/** Removing a range of data leaves a gap: no interval reported afterwards may
    overlap the range. The code meets this exactly unless the boundary that
    marks the gap is not written. */
module Removal {
  import opened Rows
  import opened Segments
  import opened Bounds
  import opened IntervalTools
  import opened Store
  import opened StoreProperties

  ghost predicate Overlaps(found: seq<Interval>, s: int, e: int) {
    exists k :: 0 <= k < |found| && found[k].0 < e && s < found[k].1
  }

  function RowsLeft(rows: seq<Row>, s: int, e: int): seq<Row> { Outside(rows, Some(s), Some(e)) }

  function BoundsLeft(rows: seq<Row>, bounds: seq<int>, s: int, e: int): seq<int> {
    RemoveBounds(rows, bounds, Some(s), Some(e))
  }

  /** There is data on both sides, the last boundary before the range sits on
      the last row before it, and no boundary follows up to the first row after
      it. All of this can be looked up before the call. */
  predicate MarkLost(rows: seq<Row>, bounds: seq<int>, s: int, e: int) {
    && LastBelow(rows, s).Some?
    && FirstFrom(rows, e).Some?
    && LastBoundAt(bounds, s - 1) == Some(LastBelow(rows, s).value.ts)
    && !Separated(bounds, e - 1, FirstFrom(rows, e).value)
  }

  lemma FirstFromSpec(rows: seq<Row>, e: int)
    requires Increasing(rows)
    ensures match FirstFrom(rows, e)
            case None => forall i :: 0 <= i < |rows| ==> rows[i].ts < e
            case Some(q) => e <= q && (exists i :: 0 <= i < |rows| && rows[i].ts == q)
                            && forall i :: 0 <= i < |rows| && e <= rows[i].ts ==> q <= rows[i].ts
  {
    BelowSpec(rows, e);
  }

  lemma LastBoundIff(bounds: seq<int>, ts: int, b: int)
    requires NonDecreasing(bounds)
    ensures LastBoundAt(bounds, ts) == Some(b)
      <==> b in bounds && b <= ts && forall c :: c in bounds && c <= ts ==> c <= b
  {
    forall c | c in bounds && c <= ts
      ensures LastBoundAt(bounds, ts).Some? && c <= LastBoundAt(bounds, ts).value
    {
      LastBoundIsLargest(bounds, ts, c);
    }
  }

  /** What is seen around the range before and after the deletion. */
  lemma AroundRange(rows: seq<Row>, s: int, e: int)
    requires Increasing(rows) && s < e
    ensures LastBelow(RowsLeft(rows, s, e), s + 1) == LastBelow(rows, s)
    ensures FirstFrom(RowsLeft(rows, s, e), e) == FirstFrom(rows, e)
  {
    var left := RowsLeft(rows, s, e);
    OutsideIncreasing(rows, Some(s), Some(e));
    LastBelowSpec(left, s + 1);
    LastBelowSpec(rows, s);
    FirstFromIs(left, e);
    FirstFromIs(rows, e);
    SameLast(rows, left, s, e);
    SameFirst(rows, left, s, e, FirstFrom(left, e), FirstFrom(rows, e));
  }

  lemma SameLast(rows: seq<Row>, left: seq<Row>, s: int, e: int)
    requires Increasing(rows) && Increasing(left) && s < e && left == RowsLeft(rows, s, e)
    ensures LastBelow(left, s + 1) == LastBelow(rows, s)
  {
    LastBelowSpec(left, s + 1);
    LastBelowSpec(rows, s);
    var x, y := LastBelow(left, s + 1), LastBelow(rows, s);
    if x.Some? {
      assert x.value in left;
    }
    if y.Some? {
      assert y.value in left;
    }
  }

  ghost predicate IsFirst(rows: seq<Row>, e: int, first: Option<int>) {
    match first
    case None => forall r :: r in rows ==> r.ts < e
    case Some(q) => e <= q && (exists r :: r in rows && r.ts == q) && forall r :: r in rows && e <= r.ts ==> q <= r.ts
  }

  lemma FirstFromIs(rows: seq<Row>, e: int)
    requires Increasing(rows)
    ensures IsFirst(rows, e, FirstFrom(rows, e))
  {
    FirstFromSpec(rows, e);
  }

  lemma SameFirst(rows: seq<Row>, left: seq<Row>, s: int, e: int, x: Option<int>, y: Option<int>)
    requires s < e && left == RowsLeft(rows, s, e) && IsFirst(left, e, x) && IsFirst(rows, e, y)
    ensures x == y
  {
  }
  /** The rows on the two sides are cut apart exactly unless the mark is lost. */
  lemma MarkedIff(rows: seq<Row>, bounds: seq<int>, s: int, e: int)
    requires Increasing(rows) && NonDecreasing(bounds) && s < e
    requires LastBelow(rows, s).Some? && FirstFrom(rows, e).Some?
    ensures Separated(BoundsLeft(rows, bounds, s, e), LastBelow(rows, s).value.ts, FirstFrom(rows, e).value)
      <==> !MarkLost(rows, bounds, s, e)
  {
    var p, q := LastBelow(rows, s).value.ts, FirstFrom(rows, e).value;
    var kept := Without(bounds, t => InRange(t, Some(s), Some(e)));
    AroundRange(rows, s, e);
    FirstFromSpec(rows, e);
    LastBelowSpec(rows, s);
    OutsideIncreasing(rows, Some(s), Some(e));
    KeptLast(bounds, s, e, p);
    CloseSeparatesIff(RowsLeft(rows, s, e), kept, s, q);
    KeptBeyond(bounds, s, e, q);
  }

  lemma KeptLast(bounds: seq<int>, s: int, e: int, p: int)
    requires NonDecreasing(bounds) && p < s < e
    ensures var kept := Without(bounds, t => InRange(t, Some(s), Some(e)));
      NonDecreasing(kept) && (LastBoundAt(kept, s) == Some(p) <==> LastBoundAt(bounds, s - 1) == Some(p))
  {
    var kept := Without(bounds, t => InRange(t, Some(s), Some(e)));
    WithoutOrdered(bounds, t => InRange(t, Some(s), Some(e)));
    LastBoundIff(kept, s, p);
    LastBoundIff(bounds, s - 1, p);
    assert forall c :: c in kept && c <= s <==> c in bounds && c <= s - 1;
  }

  lemma KeptBeyond(bounds: seq<int>, s: int, e: int, q: int)
    requires s < e <= q
    ensures Separated(Without(bounds, t => InRange(t, Some(s), Some(e))), s, q) <==> Separated(bounds, e - 1, q)
  {
    var kept := Without(bounds, t => InRange(t, Some(s), Some(e)));
    if Separated(kept, s, q) {
      var c :| c in kept && s < c <= q;
      assert c in bounds && e - 1 < c <= q;
    }
    if Separated(bounds, e - 1, q) {
      var c :| c in bounds && e - 1 < c <= q;
      assert c in kept && s < c <= q;
    }
  }

  /** An interval of any later query that overlaps the range joins the rows on
      its two sides. */
  lemma OverlapJoins(rows: seq<Row>, bounds: seq<int>, s: int, e: int, lo: int, hi: int)
    requires Increasing(rows) && NonDecreasing(bounds) && s < e
    requires Overlaps(IntervalsIn(RowsLeft(rows, s, e), BoundsLeft(rows, bounds, s, e), lo, hi), s, e)
    ensures LastBelow(rows, s).Some? && FirstFrom(rows, e).Some?
    ensures lo <= LastBelow(rows, s).value.ts && FirstFrom(rows, e).value < hi
    ensures InOneInterval(IntervalsIn(RowsLeft(rows, s, e), BoundsLeft(rows, bounds, s, e), lo, hi),
                          LastBelow(rows, s).value.ts, FirstFrom(rows, e).value)
  {
    var left := RowsLeft(rows, s, e);
    var found := IntervalsIn(left, BoundsLeft(rows, bounds, s, e), lo, hi);
    OutsideIncreasing(rows, Some(s), Some(e));
    var k :| 0 <= k < |found| && found[k].0 < e && s < found[k].1;
    var first, last := EndsOnRows(left, BoundsLeft(rows, bounds, s, e), lo, hi, k);
    LastBelowSpec(rows, s);
    FirstFromSpec(rows, e);
    assert first.ts < s && e <= last.ts;
    assert Holds(found[k], LastBelow(rows, s).value.ts) && Holds(found[k], FirstFrom(rows, e).value);
  }

  /** No query reports an interval overlapping the removed range, unless the
      mark was lost. */
  lemma RemovalLeavesGap(rows: seq<Row>, bounds: seq<int>, s: int, e: int, lo: int, hi: int)
    requires Increasing(rows) && NonDecreasing(bounds) && s < e
    requires !MarkLost(rows, bounds, s, e)
    ensures !Overlaps(IntervalsIn(RowsLeft(rows, s, e), BoundsLeft(rows, bounds, s, e), lo, hi), s, e)
  {
    if Overlaps(IntervalsIn(RowsLeft(rows, s, e), BoundsLeft(rows, bounds, s, e), lo, hi), s, e) {
      OverlapJoins(rows, bounds, s, e, lo, hi);
      JoinedAcross(rows, bounds, s, e, lo, hi);
    }
  }

  lemma JoinedAcross(rows: seq<Row>, bounds: seq<int>, s: int, e: int, lo: int, hi: int)
    requires Increasing(rows) && NonDecreasing(bounds) && s < e
    requires LastBelow(rows, s).Some? && FirstFrom(rows, e).Some?
    requires lo <= LastBelow(rows, s).value.ts && FirstFrom(rows, e).value < hi
    ensures InOneInterval(IntervalsIn(RowsLeft(rows, s, e), BoundsLeft(rows, bounds, s, e), lo, hi),
                          LastBelow(rows, s).value.ts, FirstFrom(rows, e).value)
      <==> MarkLost(rows, bounds, s, e)
  {
    var left := RowsLeft(rows, s, e);
    OutsideIncreasing(rows, Some(s), Some(e));
    AroundRange(rows, s, e);
    LastBelowSpec(left, s + 1);
    FirstFromSpec(left, e);
    MarkedIff(rows, bounds, s, e);
    var i :| 0 <= i < |left| && left[i].ts == FirstFrom(rows, e).value;
    SharedIff(left, BoundsLeft(rows, bounds, s, e), lo, hi, LastBelow(rows, s).value, left[i]);
  }

  /** ... and when the mark was lost, a query over the data on both sides does
      report one. */
  lemma LostMarkOverlaps(rows: seq<Row>, bounds: seq<int>, s: int, e: int, lo: int, hi: int)
    requires Increasing(rows) && NonDecreasing(bounds) && s < e
    requires MarkLost(rows, bounds, s, e)
    requires lo <= LastBelow(rows, s).value.ts && FirstFrom(rows, e).value < hi
    ensures Overlaps(IntervalsIn(RowsLeft(rows, s, e), BoundsLeft(rows, bounds, s, e), lo, hi), s, e)
  {
    JoinedAcross(rows, bounds, s, e, lo, hi);
    LastBelowSpec(rows, s);
    FirstFromSpec(rows, e);
    var found := IntervalsIn(RowsLeft(rows, s, e), BoundsLeft(rows, bounds, s, e), lo, hi);
    var k :| 0 <= k < |found| && Holds(found[k], LastBelow(rows, s).value.ts)
        && Holds(found[k], FirstFrom(rows, e).value);
    assert found[k].0 < e && s < found[k].1;
  }

  /** Rows 1us apart: the boundary after row 9 sits on row 10, so removing
      [15, 25) writes no mark and rows 10 and 30 are reported together. */
  lemma MarkCanBeLost() returns (rows: seq<Row>, bounds: seq<int>)
    ensures Increasing(rows) && NonDecreasing(bounds) && MarkLost(rows, bounds, 15, 25)
    ensures Overlaps(IntervalsIn(RowsLeft(rows, 15, 25), BoundsLeft(rows, bounds, 15, 25), 0, 100), 15, 25)
  {
    rows, bounds := [Row(9, []), Row(10, []), Row(20, []), Row(30, [])], [10];
    BelowIs(rows, 15, 2);
    BelowIs(rows, 25, 3);
    var s, e, lo, hi := 15, 25, 0, 100;
    LostMarkOverlaps(rows, bounds, s, e, lo, hi);
  }

  /** Rows at a < b < c, an interval having ended at b: removing the row at b
      leaves its boundary inside the gap that the removal marks, so that
      consolidating counts a gap which it does not close. */
  lemma StaleBoundaryStays(a: int, b: int, c: int, lo: int, hi: int, maxGap: int)
    returns (rows: seq<Row>, bounds: seq<int>)
    requires lo <= a < b < c < hi && c - a - 1 <= maxGap
    ensures Increasing(rows) && NonDecreasing(bounds) && Aligned(rows, bounds)
    ensures var left, after := RowsLeft(rows, b, b + 1), BoundsLeft(rows, bounds, b, b + 1);
      var before := IntervalsIn(left, after, lo, hi);
      var small := SmallGaps(Gaps(before), maxGap);
      var found := IntervalsIn(left, DropStarts(after, small), lo, hi);
      && !AllClean(Select(left, lo, hi), after, maxGap)
      && |small| != |before| - |found| && Gaps(found) != LongGaps(Gaps(before), maxGap)
  {
    rows, bounds := [Row(a, []), Row(b, []), Row(c, [])], [b + 1];
    assert b + 1 == rows[1].ts + 1;
    MiddleRemoved(rows, bounds, b);
    StaleCounted(RowsLeft(rows, b, b + 1), BoundsLeft(rows, bounds, b, b + 1), b, lo, hi, maxGap);
  }

  lemma MiddleRemoved(rows: seq<Row>, bounds: seq<int>, b: int)
    requires Increasing(rows) && |rows| == 3 && rows[1].ts == b && bounds == [b + 1]
    ensures RowsLeft(rows, b, b + 1) == [rows[0], rows[2]] && b + 1 in BoundsLeft(rows, bounds, b, b + 1)
  {
    var two, one := rows[1..], rows[2..];
    var none := one[1..];
    assert two[1..] == one && Outside(none, Some(b), Some(b + 1)) == [];
    assert Outside(one, Some(b), Some(b + 1)) == [rows[2]];
    assert Outside(two, Some(b), Some(b + 1)) == [rows[2]];
    assert b + 1 in Without(bounds, t => InRange(t, Some(b), Some(b + 1)));
  }

  lemma StaleCounted(rows: seq<Row>, bounds: seq<int>, b: int, lo: int, hi: int, maxGap: int)
    requires Increasing(rows) && |rows| == 2 && b + 1 in bounds && rows[0].ts < b < rows[1].ts
    requires lo <= rows[0].ts && rows[1].ts < hi && rows[1].ts - rows[0].ts - 1 <= maxGap
    ensures !AllClean(Select(rows, lo, hi), bounds, maxGap)
    ensures var before := IntervalsIn(rows, bounds, lo, hi);
      var small := SmallGaps(Gaps(before), maxGap);
      var found := IntervalsIn(rows, DropStarts(bounds, small), lo, hi);
      |small| != |before| - |found| && Gaps(found) != LongGaps(Gaps(before), maxGap)
  {
    BelowIs(rows, lo, 0);
    BelowIs(rows, hi, 2);
    assert Select(rows, lo, hi) == rows;
    assert SmallGap(bounds, rows[0].ts, rows[0 + 1].ts, maxGap);
    ConsolidationExact(rows, bounds, lo, hi, maxGap);
  }
}
