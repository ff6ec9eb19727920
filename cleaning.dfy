/**
 * Cleaning of one batch of readings, as the API handler does it to the rows a
 * query returns: numeric coercion, dropping rows that are not numeric, and the
 * rule of the requested field (temperatura, humedad or any other).
 */
module Cleaning {
  import opened Wrappers

  /** A reading as the query returns it, after numeric coercion of `valor`:
      `None` where the stored value could not be read as a number. */
  datatype RawRow = RawRow(id: int, valor: Option<real>, fecha: int)

  /** A reading whose value is a number. `fecha` is the reading's timestamp,
      as an ordered instant. */
  datatype Row = Row(id: int, valor: real, fecha: int)

  /** The field rules the handler distinguishes. */
  datatype Field = Temperatura | Humedad | Other

  // ---------------------------------------------------------------------------
  // Field names
  // ---------------------------------------------------------------------------

  function LowerChar(c: char): char
  {
    if 'A' <= c <= 'Z' then (c as int + 32) as char else c
  }

  /** `str.lower()` on the letters A-Z: the result has the input's length, no
      capital letter, and leaves every other character where it was. */
  function Lower(s: string): (r: string)
    ensures |r| == |s|
    ensures forall i :: 0 <= i < |r| ==> !('A' <= r[i] <= 'Z')
    ensures forall i :: 0 <= i < |s| && !('A' <= s[i] <= 'Z') ==> r[i] == s[i]
  {
    seq(|s|, i requires 0 <= i < |s| => LowerChar(s[i]))
  }

  /** The rule applied for a field name, compared after lower-casing. */
  function FieldOf(nombre: string): Field
  {
    var l := Lower(nombre);
    if l == "temperatura" then Temperatura
    else if l == "humedad" then Humedad
    else Other
  }

  /** Two names that are equal up to the case of their letters. */
  predicate SameIgnoringCase(s: string, t: string)
  {
    |s| == |t| && forall i :: 0 <= i < |s| ==> LowerChar(s[i]) == LowerChar(t[i])
  }

  /** The field rule does not depend on the case of the field name. */
  lemma FieldOfIgnoresCase(s: string, t: string)
    requires SameIgnoringCase(s, t)
    ensures FieldOf(s) == FieldOf(t)
  {
  }

  /** Only the names "temperatura" and "humedad", in any case, select a rule. */
  lemma FieldOfNames(nombre: string)
    ensures FieldOf(nombre) == Temperatura <==> SameIgnoringCase(nombre, "temperatura")
    ensures FieldOf(nombre) == Humedad <==> SameIgnoringCase(nombre, "humedad")
  {
  }

  // ---------------------------------------------------------------------------
  // Rounding of humidity values
  // ---------------------------------------------------------------------------

  /** Nearest integer, ties to the even neighbour (the rule numpy's rounding uses). */
  function RoundHalfEven(y: real): (n: int)
    ensures y - 0.5 <= n as real <= y + 0.5
    ensures (n as real == y - 0.5 || n as real == y + 0.5) ==> n % 2 == 0
  {
    var f := y.Floor;
    var d := y - f as real;
    if d < 0.5 then f
    else if d > 0.5 then f + 1
    else if f % 2 == 0 then f
    else f + 1
  }

  /** `round(x, 1)`: x rounded to one decimal place. */
  function RoundTenth(x: real): (r: real)
    ensures x - 0.05 <= r <= x + 0.05
    ensures (r * 10.0).Floor as real == r * 10.0
  {
    RoundHalfEven(x * 10.0) as real / 10.0
  }

  /** The humidity conversion: the stored count times 0.10, to one decimal. */
  function ToPercent(raw: real): real
  {
    RoundTenth(raw * 0.10)
  }

  /** A converted humidity value stays at most 100 exactly when the stored
      count is at most 1000.5; there is no lower limit. */
  lemma ToPercentThreshold(raw: real)
    ensures ToPercent(raw) <= 100.0 <==> raw <= 1000.5
  {
  }

  // ---------------------------------------------------------------------------
  // Frame operations
  // ---------------------------------------------------------------------------

  /** The rows of `s` that satisfy `p`, in their order. */
  function Filter<T(!new)>(p: T -> bool, s: seq<T>): (r: seq<T>)
    ensures |r| <= |s|
    ensures forall x :: x in r <==> x in s && p(x)
  {
    if s == [] then []
    else (if p(s[0]) then [s[0]] else []) + Filter(p, s[1..])
  }

  lemma {:induction false} FilterAppend<T(!new)>(p: T -> bool, a: seq<T>, b: seq<T>)
    ensures Filter(p, a + b) == Filter(p, a) + Filter(p, b)
  {
    if a == [] {
      assert a + b == b;
    } else {
      assert (a + b)[1..] == a[1..] + b;
      FilterAppend(p, a[1..], b);
    }
  }

  /** Overwrites the `valor` column with `f` of itself; every row keeps its
      id and timestamp, and its place. */
  function MapValor(f: real -> real, df: seq<Row>): (r: seq<Row>)
    ensures |r| == |df|
    ensures forall i :: 0 <= i < |df| ==> r[i].id == df[i].id && r[i].fecha == df[i].fecha
  {
    seq(|df|, i requires 0 <= i < |df| => df[i].(valor := f(df[i].valor)))
  }

  /** `dropna(subset=['valor'])` after coercion: the numeric rows, in order. */
  function DropNonNumeric(rows: seq<RawRow>): (df: seq<Row>)
    ensures |df| <= |rows|
  {
    if rows == [] then []
    else
      var head := match rows[0].valor
        case Some(v) => [Row(rows[0].id, v, rows[0].fecha)]
        case None => [];
      head + DropNonNumeric(rows[1..])
  }

  /** A row survives `dropna` exactly when its value is numeric, unchanged. */
  lemma {:induction false} DropNonNumericMembers(rows: seq<RawRow>)
    ensures forall r: Row :: r in DropNonNumeric(rows) <==> RawRow(r.id, Some(r.valor), r.fecha) in rows
  {
    if rows != [] {
      DropNonNumericMembers(rows[1..]);
      assert rows == [rows[0]] + rows[1..];
    }
  }

  predicate NonNegative(r: Row) { r.valor >= 0.0 }

  predicate AtMostHundred(r: Row) { r.valor <= 100.0 }

  /** The field-specific step applied to a numeric frame. */
  function ApplyFieldRule(field: Field, df: seq<Row>): (r: seq<Row>)
    ensures |r| <= |df|
  {
    match field
    case Temperatura => Filter(NonNegative, df)
    case Humedad => Filter(AtMostHundred, MapValor(ToPercent, df))
    case Other => df
  }

  /** A cleaned batch: numeric rows only, then the field's rule. */
  function CleanBatch(field: Field, rows: seq<RawRow>): (df: seq<Row>)
    ensures |df| <= |rows|
  {
    ApplyFieldRule(field, DropNonNumeric(rows))
  }

  /** Reference definition: what cleaning does to one row on its own. */
  function CleanRow(field: Field, x: RawRow): Option<Row>
  {
    match x.valor
    case None => None
    case Some(v) =>
      match field
      case Temperatura => if v >= 0.0 then Some(Row(x.id, v, x.fecha)) else None
      case Humedad =>
        var p := ToPercent(v);
        if p <= 100.0 then Some(Row(x.id, p, x.fecha)) else None
      case Other => Some(Row(x.id, v, x.fecha))
  }

  // ---------------------------------------------------------------------------
  // Properties of cleaning
  // ---------------------------------------------------------------------------

  lemma {:induction false} DropNonNumericAppend(a: seq<RawRow>, b: seq<RawRow>)
    ensures DropNonNumeric(a + b) == DropNonNumeric(a) + DropNonNumeric(b)
  {
    if a == [] {
      assert a + b == b;
    } else {
      assert (a + b)[1..] == a[1..] + b;
      DropNonNumericAppend(a[1..], b);
    }
  }

  lemma ApplyFieldRuleAppend(field: Field, a: seq<Row>, b: seq<Row>)
    ensures ApplyFieldRule(field, a + b) == ApplyFieldRule(field, a) + ApplyFieldRule(field, b)
  {
    match field
    case Temperatura => FilterAppend(NonNegative, a, b);
    case Humedad =>
      assert MapValor(ToPercent, a + b) == MapValor(ToPercent, a) + MapValor(ToPercent, b);
      FilterAppend(AtMostHundred, MapValor(ToPercent, a), MapValor(ToPercent, b));
    case Other =>
  }

  /** Cleaning works row by row: the batch a + b cleans to the cleaned a
      followed by the cleaned b, so no row is moved or added. */
  lemma CleanBatchAppend(field: Field, a: seq<RawRow>, b: seq<RawRow>)
    ensures CleanBatch(field, a + b) == CleanBatch(field, a) + CleanBatch(field, b)
  {
    DropNonNumericAppend(a, b);
    ApplyFieldRuleAppend(field, DropNonNumeric(a), DropNonNumeric(b));
  }

  /** A single row is cleaned as the reference definition says. */
  lemma CleanBatchSingle(field: Field, x: RawRow)
    ensures CleanBatch(field, [x]) == ToSeq(CleanRow(field, x))
  {
  }

  /** Cleaning the rows one by one with the reference definition and
      concatenating gives the cleaned batch. */
  function CleanEach(field: Field, rows: seq<RawRow>): seq<Row>
  {
    if rows == [] then [] else ToSeq(CleanRow(field, rows[0])) + CleanEach(field, rows[1..])
  }

  lemma {:induction false} CleanBatchIsRowByRow(field: Field, rows: seq<RawRow>)
    ensures CleanBatch(field, rows) == CleanEach(field, rows)
  {
    if rows != [] {
      assert rows == [rows[0]] + rows[1..];
      CleanBatchAppend(field, [rows[0]], rows[1..]);
      CleanBatchSingle(field, rows[0]);
      CleanBatchIsRowByRow(field, rows[1..]);
    }
  }

  /** temperatura: exactly the numeric rows with a value of at least 0 are
      kept, each unchanged. */
  lemma TemperaturaRule(rows: seq<RawRow>)
    ensures forall r: Row :: r in CleanBatch(Temperatura, rows) <==>
      r.valor >= 0.0 && RawRow(r.id, Some(r.valor), r.fecha) in rows
  {
    DropNonNumericMembers(rows);
  }

  /** humedad: every kept value is the converted value of a numeric row with
      the same id and timestamp and is at most 100; every numeric row whose
      converted value is at most 100 is kept, however small. */
  lemma HumedadRule(rows: seq<RawRow>)
    ensures forall r: Row :: r in CleanBatch(Humedad, rows) <==>
      r.valor <= 100.0 && exists v: real :: RawRow(r.id, Some(v), r.fecha) in rows && r.valor == ToPercent(v)
  {
    var df := DropNonNumeric(rows);
    var m := MapValor(ToPercent, df);
    DropNonNumericMembers(rows);
    forall r: Row | r in CleanBatch(Humedad, rows)
      ensures r.valor <= 100.0 && exists v: real :: RawRow(r.id, Some(v), r.fecha) in rows && r.valor == ToPercent(v)
    {
      assert r in m;
      var i :| 0 <= i < |m| && m[i] == r;
      assert df[i] in df;
      assert RawRow(r.id, Some(df[i].valor), r.fecha) in rows;
    }
    forall r: Row | r.valor <= 100.0 && exists v: real :: RawRow(r.id, Some(v), r.fecha) in rows && r.valor == ToPercent(v)
      ensures r in CleanBatch(Humedad, rows)
    {
      var v :| RawRow(r.id, Some(v), r.fecha) in rows && r.valor == ToPercent(v);
      var y := Row(r.id, v, r.fecha);
      assert y in df;
      var i :| 0 <= i < |df| && df[i] == y;
      assert m[i] == r;
    }
  }

  /** Any other field: exactly the numeric rows are kept, values unchanged. */
  lemma OtherRule(rows: seq<RawRow>)
    ensures forall r: Row :: r in CleanBatch(Other, rows) <==> RawRow(r.id, Some(r.valor), r.fecha) in rows
  {
    DropNonNumericMembers(rows);
  }

  /** Whatever the field, a cleaned row comes from a numeric row of the batch
      with the same id and timestamp. */
  lemma CleanBatchOrigin(field: Field, rows: seq<RawRow>)
    ensures forall r: Row :: r in CleanBatch(field, rows) ==>
      exists v: real :: RawRow(r.id, Some(v), r.fecha) in rows
  {
    match field
    case Temperatura => TemperaturaRule(rows);
    case Humedad => HumedadRule(rows);
    case Other => OtherRule(rows);
  }
}
