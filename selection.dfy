/**
 * The last steps of the handler: sort the combined frame by timestamp, newest
 * first, keep the first `cantidad_valores` rows (pandas `head`), and project
 * each row onto its id and value.
 */
module Selection {
  import opened Cleaning

  /** Non-increasing by timestamp. */
  predicate SortedDesc(s: seq<Row>)
  {
    forall i, j :: 0 <= i < j < |s| ==> s[i].fecha >= s[j].fecha
  }

  /** A row no older than every row of a sorted frame can lead it. */
  lemma SortedCons(h: Row, t: seq<Row>)
    requires SortedDesc(t)
    requires forall y :: y in t ==> y.fecha <= h.fecha
    ensures SortedDesc([h] + t)
  {
  }

  /** The first row of a sorted frame is the newest. */
  lemma SortedFirstNewest(s: seq<Row>)
    requires SortedDesc(s) && s != []
    ensures forall y :: y in s ==> y.fecha <= s[0].fecha
  {
  }

  /** Inserts `x` into a frame sorted newest first. */
  function Insert(x: Row, s: seq<Row>): (r: seq<Row>)
    requires SortedDesc(s)
    ensures |r| == |s| + 1
    ensures multiset(r) == multiset(s) + multiset{x}
    ensures forall y :: y in r ==> y == x || y in s
    ensures SortedDesc(r)
    decreases |s|
  {
    if s == [] then [x]
    else if x.fecha >= s[0].fecha then
      SortedFirstNewest(s);
      SortedCons(x, s);
      [x] + s
    else
      var t := Insert(x, s[1..]);
      assert s == [s[0]] + s[1..];
      SortedFirstNewest(s);
      SortedCons(s[0], t);
      [s[0]] + t
  }

  /** `sort_values(by='fecha_lectura', ascending=False)`; the order among rows
      with equal timestamps is this definition's own choice. */
  function SortDesc(s: seq<Row>): (r: seq<Row>)
    ensures |r| == |s|
    ensures multiset(r) == multiset(s)
    ensures SortedDesc(r)
  {
    if s == [] then []
    else
      assert s == [s[0]] + s[1..];
      Insert(s[0], SortDesc(s[1..]))
  }

  /** How many rows pandas' `head(n)` keeps of `len`: the first n, or, for a
      negative n, all but the last -n. */
  function HeadCount(n: int, len: nat): (k: nat)
    ensures k <= len
  {
    if n >= 0 then (if n <= len then n else len)
    else if len + n >= 0 then len + n else 0
  }

  function Head(s: seq<Row>, n: int): seq<Row>
  {
    s[..HeadCount(n, |s|)]
  }

  /** What `head(n)` returns: a prefix of the frame; the whole frame when n is
      at least its length; exactly n rows for 0 <= n <= length; for a negative
      n, the frame without its last -n rows, or nothing when -n exceeds the
      length. */
  lemma HeadProperties(s: seq<Row>, n: int)
    ensures Head(s, n) <= s
    ensures n >= |s| ==> Head(s, n) == s
    ensures 0 <= n <= |s| ==> |Head(s, n)| == n
    ensures -|s| <= n < 0 ==> Head(s, n) + s[|s| + n..] == s
    ensures n < -|s| ==> Head(s, n) == []
  {
  }

  /** Sort newest first, then `head(n)`. */
  function Select(n: int, df: seq<Row>): seq<Row>
  {
    Head(SortDesc(df), n)
  }

  /** The selection has `head`'s length, is sorted newest first, takes its
      rows from the frame, and no row it leaves out is newer than a row it
      keeps. */
  lemma SelectProperties(n: int, df: seq<Row>)
    ensures |Select(n, df)| == HeadCount(n, |df|)
    ensures SortedDesc(Select(n, df))
    ensures multiset(Select(n, df)) <= multiset(df)
    ensures forall x, y :: x in Select(n, df) && y in multiset(df) - multiset(Select(n, df)) ==>
      y.fecha <= x.fecha
  {
    var s := SortDesc(df);
    var k := HeadCount(n, |s|);
    SplitSorted(s, k);
  }

  /** Cutting a sorted frame at k: the rest is what the prefix leaves of the
      frame's multiset, and is no newer than any row of the prefix. */
  lemma SplitSorted(s: seq<Row>, k: nat)
    requires SortedDesc(s) && k <= |s|
    ensures multiset(s) - multiset(s[..k]) == multiset(s[k..])
    ensures forall x, y :: x in s[..k] && y in s[k..] ==> y.fecha <= x.fecha
  {
    assert s == s[..k] + s[k..];
    assert multiset(s) == multiset(s[..k]) + multiset(s[k..]);
    forall x, y | x in s[..k] && y in s[k..]
      ensures y.fecha <= x.fecha
    {
      var i :| 0 <= i < k && s[..k][i] == x;
      var j :| 0 <= j < |s| - k && s[k..][j] == y;
      assert s[i] == x && s[k + j] == y;
    }
  }

  /** A response record: `df[['id', 'valor']]` of one row. */
  datatype Record = Record(id: int, valor: real)

  function Project(df: seq<Row>): (out: seq<Record>)
    ensures |out| == |df|
    ensures forall i :: 0 <= i < |df| ==> out[i].id == df[i].id && out[i].valor == df[i].valor
  {
    if df == [] then [] else [Record(df[0].id, df[0].valor)] + Project(df[1..])
  }
}
