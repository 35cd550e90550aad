/** Timestamped rows and the queries the data store asks of a table of them.

    A table has the timestamp as its primary key, so it is modelled by the
    sequence of its rows in increasing timestamp order, the order every
    query of the store asks for. Timestamps are integer microseconds. */
module Rows {

  datatype Option<+T> = None | Some(value: T)

  /** A call returns, or raises because of a value the code does not expect. */
  datatype Result<+T> = Ok(value: T) | Raised

  datatype Row = Row(ts: int, data: seq<real>)

  ghost predicate Increasing(rows: seq<Row>) {
    forall i, j :: 0 <= i < j < |rows| ==> rows[i].ts < rows[j].ts
  }

  /** Neighbouring rows are in order. */
  predicate StrictlyIncreasing(data: seq<Row>) {
    forall i :: 0 <= i < |data| - 1 ==> data[i].ts < data[i + 1].ts
  }

  /** New rows are in order and after the last row there was. */
  predicate Monotonic(data: seq<Row>, lastTs: Option<int>) {
    data == [] || (StrictlyIncreasing(data) && (lastTs.None? || lastTs.value < data[0].ts))
  }

  /** The number of leading rows with a timestamp below `b`. */
  function Below(rows: seq<Row>, b: int): (n: nat)
    ensures n <= |rows|
  {
    if rows == [] || rows[0].ts >= b then 0 else 1 + Below(rows[1..], b)
  }

  lemma {:induction false} BelowSpec(rows: seq<Row>, b: int)
    requires Increasing(rows)
    ensures forall i :: 0 <= i < |rows| ==> (rows[i].ts < b <==> i < Below(rows, b))
  {
    if rows != [] {
      BelowSpec(rows[1..], b);
      forall i | 0 <= i < |rows| ensures rows[i].ts < b <==> i < Below(rows, b) {
        if i > 0 {
          assert rows[1..][i - 1] == rows[i];
        }
      }
    }
  }

  lemma BelowIs(rows: seq<Row>, b: int, n: nat)
    requires Increasing(rows) && n <= |rows|
    requires n > 0 ==> rows[n - 1].ts < b
    requires n < |rows| ==> b <= rows[n].ts
    ensures Below(rows, b) == n
  {
    BelowSpec(rows, b);
  }

  lemma BelowMonotone(rows: seq<Row>, a: int, b: int)
    requires Increasing(rows) && a <= b
    ensures Below(rows, a) <= Below(rows, b)
  {
    BelowSpec(rows, a);
    BelowSpec(rows, b);
    var n := Below(rows, a);
    if n > 0 {
      assert rows[n - 1].ts < b;
    }
  }

  /** The rows of [s, e), in order. */
  function Select(rows: seq<Row>, s: int, e: int): seq<Row> {
    var lo, hi := Below(rows, s), Below(rows, e);
    if lo <= hi then rows[lo..hi] else []
  }

  lemma SelectSpec(rows: seq<Row>, s: int, e: int)
    requires Increasing(rows)
    ensures Increasing(Select(rows, s, e))
    ensures forall i :: 0 <= i < |Select(rows, s, e)| ==>
      Select(rows, s, e)[i] in rows && s <= Select(rows, s, e)[i].ts < e
    ensures forall i :: 0 <= i < |rows| && s <= rows[i].ts < e ==> rows[i] in Select(rows, s, e)
  {
    BelowSpec(rows, s);
    BelowSpec(rows, e);
    var lo, hi := Below(rows, s), Below(rows, e);
    forall i | 0 <= i < |rows| && s <= rows[i].ts < e ensures rows[i] in Select(rows, s, e) {
      assert rows[lo..hi][i - lo] == rows[i];
    }
  }

  /** The row with the largest timestamp below `b`. */
  function LastBelow(rows: seq<Row>, b: int): Option<Row> {
    var n := Below(rows, b);
    if n == 0 then None else Some(rows[n - 1])
  }

  /** A range query splits at any point inside the range. */
  lemma SelectSplit(rows: seq<Row>, s: int, m: int, e: int)
    requires Increasing(rows) && s <= m <= e
    ensures Select(rows, s, e) == Select(rows, s, m) + Select(rows, m, e)
  {
    BelowMonotone(rows, s, m);
    BelowMonotone(rows, m, e);
  }

  /** Asking again from just above the k-th answer gives the answers after it. */
  lemma SelectAfter(rows: seq<Row>, s: int, e: int, k: nat)
    requires Increasing(rows) && k < |Select(rows, s, e)|
    ensures Select(rows, Select(rows, s, e)[k].ts + 1, e) == Select(rows, s, e)[k + 1..]
  {
    var lo, hi := Below(rows, s), Below(rows, e);
    var t := rows[lo + k].ts + 1;
    assert Select(rows, s, e) == rows[lo..hi];
    BelowIs(rows, t, lo + k + 1);
    assert Select(rows, t, e) == rows[lo + k + 1..hi] == rows[lo..hi][k + 1..];
  }
}
