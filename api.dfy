/**
 * The handler `obtener_datos_proyecto`: it trims the two timestamp bounds,
 * cleans the rows of the first query, re-queries and cleans more rows when
 * too few survive, then sorts, truncates and projects. The two queries are
 * the data source; their results are parameters here.
 */
module Api {
  import opened Wrappers
  import opened Cleaning
  import opened Selection

  /** The fields the handler reads from the JSON body. */
  datatype Request = Request(
    nombreCampo: string,
    cantidadValores: int,
    fechaInicio: string,
    fechaFin: string,
    proyectoId: int,
    nodoId: int)

  /** The parameters handed to the SQL query; `limit` is the LIMIT of the
      second query and absent on the first. */
  datatype Query = Query(
    nombreCampo: string,
    fechaInicio: string,
    fechaFin: string,
    proyectoId: int,
    nodoId: int,
    limit: Option<int>)

  /** `s.split('.')[0]`: the text before the first '.', the whole string when
      it has none. */
  function TrimAtDot(s: string): (r: string)
    ensures r <= s
    ensures '.' !in r
    ensures |r| < |s| ==> s[|r|] == '.'
    ensures '.' !in s ==> r == s
  {
    if s == [] || s[0] == '.' then []
    else [s[0]] + TrimAtDot(s[1..])
  }

  /** The first `n` rows of a query result, as a LIMIT keeps them. */
  function Limit(rows: seq<RawRow>, n: nat): (r: seq<RawRow>)
    ensures |r| <= n
    ensures r <= rows
    ensures |r| == n || r == rows
  {
    if n <= |rows| then rows[..n] else rows
  }

  /** The frame before sorting: the cleaned first batch, followed, when it
      has fewer than `cantidad` rows, by the cleaned second batch, which the
      second query limits to the number of rows missing. */
  function Combined(field: Field, cantidad: int, first: seq<RawRow>, second: seq<RawRow>): seq<Row>
  {
    var df := CleanBatch(field, first);
    if |df| < cantidad then df + CleanBatch(field, Limit(second, cantidad - |df|))
    else df
  }

  /** The records of the response body's "datos" list. */
  function Response(req: Request, first: seq<RawRow>, second: seq<RawRow>): seq<Record>
  {
    var field := FieldOf(req.nombreCampo);
    Project(Select(req.cantidadValores, Combined(field, req.cantidadValores, first, second)))
  }

  /** The backfill never pushes the total past `cantidad`: the cleaned first
      batch always leads the frame, it is the whole frame when it already has
      `cantidad` rows, and otherwise the frame has at most `cantidad` rows, so
      the later `head` drops none of them. */
  lemma BackfillProperties(field: Field, cantidad: int, first: seq<RawRow>, second: seq<RawRow>)
    ensures CleanBatch(field, first) <= Combined(field, cantidad, first, second)
    ensures |CleanBatch(field, first)| >= cantidad ==>
      Combined(field, cantidad, first, second) == CleanBatch(field, first)
    ensures |CleanBatch(field, first)| < cantidad ==>
      |Combined(field, cantidad, first, second)| <= cantidad &&
      |Select(cantidad, Combined(field, cantidad, first, second))| == |Combined(field, cantidad, first, second)|
  {
  }

  /** When both queries see the same rows, the second returns a prefix of the
      first, so the backfill adds only copies of rows already kept: the set of
      rows is that of the cleaned first batch. */
  lemma BackfillRepeatsRows(field: Field, cantidad: int, rows: seq<RawRow>)
    ensures forall r :: r in Combined(field, cantidad, rows, rows) <==> r in CleanBatch(field, rows)
  {
    var df := CleanBatch(field, rows);
    if |df| < cantidad {
      var pre := Limit(rows, cantidad - |df|);
      assert rows == pre + rows[|pre|..];
      CleanBatchAppend(field, pre, rows[|pre|..]);
    }
  }

  /** A concrete case for temperatura: one numeric and one non-numeric
      reading, two values requested. One row survives, so the backfill runs
      with a LIMIT of 1, re-reads reading 1, and the response lists it twice. */
  lemma DuplicateIdsExample()
    ensures Project(Select(2, Combined(Temperatura, 2, [RawRow(1, Some(5.0), 20), RawRow(2, None, 10)],
                                       [RawRow(1, Some(5.0), 20), RawRow(2, None, 10)])))
            == [Record(1, 5.0), Record(1, 5.0)]
  {
  }

  /** Every row of the frame comes from a numeric row of one of the two query
      results, with the same id, and keeps the field's bound. */
  lemma CombinedRows(field: Field, n: int, first: seq<RawRow>, second: seq<RawRow>)
    ensures forall r :: r in Combined(field, n, first, second) ==>
      exists v: real :: RawRow(r.id, Some(v), r.fecha) in first || RawRow(r.id, Some(v), r.fecha) in second
    ensures field == Temperatura ==> forall r :: r in Combined(field, n, first, second) ==> r.valor >= 0.0
    ensures field == Humedad ==> forall r :: r in Combined(field, n, first, second) ==> r.valor <= 100.0
  {
    var df := CleanBatch(field, first);
    if |df| < n {
      var extra := Limit(second, n - |df|);
      CleanBatchOrigin(field, extra);
      assert forall x :: x in extra ==> x in second;
    }
    CleanBatchOrigin(field, first);
  }

  /** Each record of the response is the id and value of a row of the frame. */
  lemma ResponseRecords(req: Request, first: seq<RawRow>, second: seq<RawRow>)
    ensures forall d :: d in Response(req, first, second) ==>
      exists r :: r in Combined(FieldOf(req.nombreCampo), req.cantidadValores, first, second) &&
        d == Record(r.id, r.valor)
  {
    var c := Combined(FieldOf(req.nombreCampo), req.cantidadValores, first, second);
    var sel := Select(req.cantidadValores, c);
    SelectProperties(req.cantidadValores, c);
    forall d | d in Response(req, first, second)
      ensures exists r :: r in c && d == Record(r.id, r.valor)
    {
      var i :| 0 <= i < |sel| && Project(sel)[i] == d;
      assert sel[i] in multiset(sel);
      assert sel[i] in c;
    }
  }

  /** What the response promises for any request and any query results: the
      length `head` gives, the field's bound on each value, and ids that come
      from the rows the queries returned. */
  lemma ResponseProperties(req: Request, first: seq<RawRow>, second: seq<RawRow>)
    ensures |Response(req, first, second)| ==
      HeadCount(req.cantidadValores, |Combined(FieldOf(req.nombreCampo), req.cantidadValores, first, second)|)
    ensures FieldOf(req.nombreCampo) == Temperatura ==>
      forall d :: d in Response(req, first, second) ==> d.valor >= 0.0
    ensures FieldOf(req.nombreCampo) == Humedad ==>
      forall d :: d in Response(req, first, second) ==> d.valor <= 100.0
    ensures forall d :: d in Response(req, first, second) ==>
      exists x :: (x in first || x in second) && x.id == d.id
  {
    var field := FieldOf(req.nombreCampo);
    var c := Combined(field, req.cantidadValores, first, second);
    SelectProperties(req.cantidadValores, c);
    CombinedRows(field, req.cantidadValores, first, second);
    ResponseRecords(req, first, second);
    forall d | d in Response(req, first, second)
      ensures exists x :: (x in first || x in second) && x.id == d.id
    {
      var r :| r in c && d == Record(r.id, r.valor);
      var v: real :| RawRow(r.id, Some(v), r.fecha) in first || RawRow(r.id, Some(v), r.fecha) in second;
      var x := RawRow(r.id, Some(v), r.fecha);
      assert x.id == d.id;
    }
  }

  /** Cleans one query result, rebinding the frame stage by stage as the
      handler does: coercion with `dropna`, then the field's rule. */
  method CleanFrame(field: Field, rows: seq<RawRow>) returns (df: seq<Row>)
    ensures df == CleanBatch(field, rows)
  {
    df := DropNonNumeric(rows);
    match field {
      case Temperatura =>
        df := Filter(NonNegative, df);
      case Humedad =>
        df := MapValor(ToPercent, df);
        df := Filter(AtMostHundred, df);
      case Other =>
    }
  }

  /** The handler. `fetched` is what the first query returns; `refetched` is
      what the second query would return without its LIMIT, which is applied
      here. Returns the parameters of both queries (the second only when it
      runs) and the response records. */
  method ObtenerDatosProyecto(req: Request, fetched: seq<RawRow>, refetched: seq<RawRow>)
    returns (consulta: Query, adicional: Option<Query>, datos: seq<Record>)
    ensures consulta == Query(req.nombreCampo, TrimAtDot(req.fechaInicio), TrimAtDot(req.fechaFin),
                              req.proyectoId, req.nodoId, None)
    ensures adicional.Some? <==> |CleanBatch(FieldOf(req.nombreCampo), fetched)| < req.cantidadValores
    ensures adicional.Some? ==>
      adicional.value == consulta.(limit := Some(req.cantidadValores - |CleanBatch(FieldOf(req.nombreCampo), fetched)|))
    ensures adicional.Some? ==> adicional.value.limit.value > 0
    ensures datos == Response(req, fetched, refetched)
  {
    var fechaInicio := TrimAtDot(req.fechaInicio);
    var fechaFin := TrimAtDot(req.fechaFin);
    consulta := Query(req.nombreCampo, fechaInicio, fechaFin, req.proyectoId, req.nodoId, None);
    var field := FieldOf(req.nombreCampo);

    var df := CleanFrame(field, fetched);
    adicional := None;
    if |df| < req.cantidadValores {
      var cantidadFaltante := req.cantidadValores - |df|;
      adicional := Some(consulta.(limit := Some(cantidadFaltante)));
      var additionalDf := CleanFrame(field, Limit(refetched, cantidadFaltante));
      df := df + additionalDf;
    }
    assert adicional.Some? ==>
      adicional.value == consulta.(limit := Some(req.cantidadValores - |CleanBatch(field, fetched)|));
    assert df == Combined(field, req.cantidadValores, fetched, refetched);

    df := Head(SortDesc(df), req.cantidadValores);
    datos := Project(df);
  }
}
