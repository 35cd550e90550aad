/** What the store promises about the intervals it reports. */
module StoreProperties {
  import opened Rows
  import opened Segments
  import opened Bounds
  import opened IntervalTools
  import opened Store

  // ---- intervals partition the rows --------------------------------------

  predicate Holds(x: Interval, t: int) {
    x.0 <= t < x.1
  }

  lemma {:induction false} FindPart(segs: seq<seq<Row>>, r: Row) returns (k: nat)
    requires r in Concat(segs)
    ensures k < |segs| && r in segs[k]
  {
    if r in segs[0] {
      k := 0;
    } else {
      assert r in Concat(segs[1..]);
      k := FindPart(segs[1..], r);
      k := k + 1;
    }
  }

  lemma {:induction false} PartIncreasing(segs: seq<seq<Row>>, k: nat)
    requires Increasing(Concat(segs)) && k < |segs|
    ensures Increasing(segs[k])
  {
    IncreasingTail(segs[0], Concat(segs[1..]));
    if k > 0 {
      PartIncreasing(segs[1..], k - 1);
    }
  }

  lemma RowInExtent(segs: seq<seq<Row>>, k: nat, r: Row)
    requires Increasing(Concat(segs)) && k < |segs| && (forall i :: 0 <= i < |segs| ==> segs[i] != [])
    requires r in Concat(segs)
    ensures r in segs[k] <==> Holds(Extent(segs[k]), r.ts)
  {
    var j := FindPart(segs, r);
    PartHolds(segs, j, r);
    PartsAreChain(segs);
    if r in segs[k] {
      PartHolds(segs, k, r);
    }
    var ext := Extents(segs);
    assert j != k ==> ext[j].1 <= ext[k].0 || ext[k].1 <= ext[j].0;
  }

  lemma PartHolds(segs: seq<seq<Row>>, k: nat, r: Row)
    requires Increasing(Concat(segs)) && k < |segs| && segs[k] != [] && r in segs[k]
    ensures Holds(Extent(segs[k]), r.ts)
  {
    PartIncreasing(segs, k);
  }

  /** Every row of the range lies in exactly one reported interval. */
  lemma EachRowOnce(rows: seq<Row>, bounds: seq<int>, s: int, e: int, r: Row) returns (k: nat)
    requires Increasing(rows) && r in rows && s <= r.ts < e
    ensures var found := IntervalsIn(rows, bounds, s, e);
      && k < |found| && Holds(found[k], r.ts)
      && forall j :: 0 <= j < |found| && Holds(found[j], r.ts) ==> j == k
  {
    SelectSpec(rows, s, e);
    var segs := Split(Select(rows, s, e), bounds);
    SplitIsSplit(Select(rows, s, e), bounds);
    assert r in Concat(segs);
    k := FindPart(segs, r);
    RowInExtent(segs, k, r);
    IntervalsAreChain(rows, bounds, s, e);
  }

  /** A reported interval starts on a row and ends 1us after one, both in the
      range. */
  lemma EndsOnRows(rows: seq<Row>, bounds: seq<int>, s: int, e: int, k: nat)
    returns (first: Row, last: Row)
    requires Increasing(rows) && k < |IntervalsIn(rows, bounds, s, e)|
    ensures first in rows && last in rows && s <= first.ts <= last.ts < e
    ensures IntervalsIn(rows, bounds, s, e)[k] == (first.ts, last.ts + 1)
  {
    var r := Select(rows, s, e);
    SelectSpec(rows, s, e);
    SplitIsSplit(r, bounds);
    first, last := SegmentEnds(r, Split(r, bounds), k);
  }

  lemma SegmentEnds(rows: seq<Row>, segs: seq<seq<Row>>, k: nat) returns (first: Row, last: Row)
    requires Increasing(rows) && Concat(segs) == rows && k < |segs| && segs[k] != []
    ensures first in rows && last in rows && first.ts <= last.ts && Extent(segs[k]) == (first.ts, last.ts + 1)
  {
    first, last := segs[k][0], segs[k][|segs[k]| - 1];
    ConcatIn(segs, k, first);
    ConcatIn(segs, k, last);
    PartIncreasing(segs, k);
  }

  ghost predicate InOneInterval(found: seq<Interval>, a: int, b: int) {
    exists k :: 0 <= k < |found| && Holds(found[k], a) && Holds(found[k], b)
  }

  /** Two rows are reported in one interval exactly when no boundary cuts
      between them. */
  lemma SharedIff(rows: seq<Row>, bounds: seq<int>, s: int, e: int, a: Row, b: Row)
    requires Increasing(rows) && a in rows && b in rows && s <= a.ts <= b.ts < e
    ensures InOneInterval(IntervalsIn(rows, bounds, s, e), a.ts, b.ts) <==> !Separated(bounds, a.ts, b.ts)
  {
    SelectSpec(rows, s, e);
    var r := Select(rows, s, e);
    var segs := Split(r, bounds);
    SplitIsSplit(r, bounds);
    var i :| 0 <= i < |r| && r[i] == a;
    var j :| 0 <= j < |r| && r[j] == b;
    assert i <= j;
    TogetherIff(r, bounds, i, j);
    TogetherInOne(segs, a, b);
  }

  lemma TogetherInOne(segs: seq<seq<Row>>, a: Row, b: Row)
    requires Increasing(Concat(segs)) && forall k :: 0 <= k < |segs| ==> segs[k] != []
    requires a in Concat(segs) && b in Concat(segs)
    ensures InOneInterval(Extents(segs), a.ts, b.ts) <==> Together(segs, a, b)
  {
    forall k | 0 <= k < |segs|
      ensures a in segs[k] <==> Holds(Extents(segs)[k], a.ts)
      ensures b in segs[k] <==> Holds(Extents(segs)[k], b.ts)
    {
      RowInExtent(segs, k, a);
      RowInExtent(segs, k, b);
    }
  }

  // ---- consolidation -----------------------------------------------------

  /** The positive gaps at which consecutive rows are cut. */
  function RowGaps(rows: seq<Row>, bounds: seq<int>): seq<Interval> {
    if |rows| < 2 then []
    else
      (if Separated(bounds, rows[0].ts, rows[1].ts) && rows[0].ts + 1 < rows[1].ts
       then [(rows[0].ts + 1, rows[1].ts)] else [])
      + RowGaps(rows[1..], bounds)
  }

  lemma GapsCons(x: Interval, rest: seq<Interval>)
    requires rest != []
    ensures Gaps([x] + rest) == (if x.1 < rest[0].0 then [(x.1, rest[0].0)] else []) + Gaps(rest)
  {
    assert ([x] + rest)[1..] == rest;
  }

  lemma ExtentsCons(seg: seq<Row>, rest: seq<seq<Row>>)
    requires seg != [] && forall i :: 0 <= i < |rest| ==> rest[i] != []
    ensures Extents([seg] + rest) == [Extent(seg)] + Extents(rest)
  {
  }

  /** Gaps only depend on the ends of the first interval. */
  lemma GapsFirstStart(x: Interval, y: Interval, rest: seq<Interval>)
    requires x.1 == y.1
    ensures Gaps([x] + rest) == Gaps([y] + rest)
  {
    assert ([x] + rest)[1..] == rest && ([y] + rest)[1..] == rest;
  }

  /** A row joined to the first segment changes no gap. */
  lemma GapsSameFirst(r: Row, segs: seq<seq<Row>>)
    requires segs != [] && forall i :: 0 <= i < |segs| ==> segs[i] != []
    ensures Gaps(Extents([[r] + segs[0]] + segs[1..])) == Gaps(Extents(segs))
  {
    ExtentsCons([r] + segs[0], segs[1..]);
    ExtentsCons(segs[0], segs[1..]);
    assert [segs[0]] + segs[1..] == segs;
    GapsFirstStart(Extent([r] + segs[0]), Extent(segs[0]), Extents(segs[1..]));
  }

  lemma {:induction false} GapsAreRowGaps(rows: seq<Row>, bounds: seq<int>)
    requires IsSplit(rows, bounds, Split(rows, bounds))
    ensures Gaps(Extents(Split(rows, bounds))) == RowGaps(rows, bounds)
  {
    if |rows| >= 2 {
      var tail := rows[1..];
      var rest: seq<seq<Row>> := Split(tail, bounds);
      SplitIsSplit(tail, bounds);
      GapsAreRowGaps(tail, bounds);
      assert rest[0][0] == rows[1] by { assert Concat(rest) == rest[0] + Concat(rest[1..]); }
      if Separated(bounds, rows[0].ts, rows[1].ts) {
        ExtentsCons([rows[0]], rest);
        GapsCons(Extent([rows[0]]), Extents(rest));
      } else {
        GapsSameFirst(rows[0], rest);
      }
    }
  }

  /** The boundaries that cut between two rows all sit 1us after the first. */
  predicate Clean(bounds: seq<int>, a: int, b: int) {
    forall c :: c in bounds && a < c <= b ==> c == a + 1
  }

  predicate SmallGap(bounds: seq<int>, a: int, b: int, maxGap: int) {
    Separated(bounds, a, b) && 0 < b - a - 1 <= maxGap
  }

  /** What consolidating rows `rows` deletes. */
  function Joined(rows: seq<Row>, bounds: seq<int>, maxGap: int): seq<int> {
    DropStarts(bounds, SmallGaps(RowGaps(rows, bounds), maxGap))
  }

  /** g is the positive gap after row k, and is cut. */
  predicate GapAt(rows: seq<Row>, bounds: seq<int>, k: int, g: Interval) {
    && 0 <= k < |rows| - 1
    && g == (rows[k].ts + 1, rows[k + 1].ts) && g.0 < g.1
    && Separated(bounds, rows[k].ts, rows[k + 1].ts)
  }

  lemma {:induction false} StartsAreRows(rows: seq<Row>, bounds: seq<int>, g: Interval)
    ensures g in RowGaps(rows, bounds) <==> exists k :: GapAt(rows, bounds, k, g)
  {
    if |rows| >= 2 {
      var tail := rows[1..];
      StartsAreRows(tail, bounds, g);
      if g in RowGaps(tail, bounds) {
        var k :| GapAt(tail, bounds, k, g);
        assert GapAt(rows, bounds, k + 1, g);
      }
      if k :| GapAt(rows, bounds, k, g) {
        if k > 0 {
          assert GapAt(tail, bounds, k - 1, g);
        }
      }
      if g !in RowGaps(tail, bounds) && g in RowGaps(rows, bounds) {
        assert GapAt(rows, bounds, 0, g);
      }
    }
  }

  lemma JoinedPointwise(rows: seq<Row>, bounds: seq<int>, maxGap: int, k: nat)
    requires Increasing(rows) && k < |rows| - 1
    ensures var a, b := rows[k].ts, rows[k + 1].ts;
      Separated(Joined(rows, bounds, maxGap), a, b)
      <==> Separated(bounds, a, b) && !(SmallGap(bounds, a, b, maxGap) && Clean(bounds, a, b))
  {
    var a, b := rows[k].ts, rows[k + 1].ts;
    var left := Joined(rows, bounds, maxGap);
    forall c | c in bounds && a < c <= b
      ensures c in left <==> !(c == a + 1 && SmallGap(bounds, a, b, maxGap))
    {
      DroppedIff(rows, bounds, maxGap, k, c);
    }
    if SmallGap(bounds, a, b, maxGap) && !Clean(bounds, a, b) {
      var c :| c in bounds && a < c <= b && c != a + 1;
      assert c in left;
    }
  }

  lemma DroppedIff(rows: seq<Row>, bounds: seq<int>, maxGap: int, k: nat, c: int)
    requires Increasing(rows) && k < |rows| - 1 && c in bounds && rows[k].ts < c <= rows[k + 1].ts
    ensures c in Joined(rows, bounds, maxGap)
      <==> !(c == rows[k].ts + 1 && SmallGap(bounds, rows[k].ts, rows[k + 1].ts, maxGap))
  {
    var small := SmallGaps(RowGaps(rows, bounds), maxGap);
    var here := (rows[k].ts + 1, rows[k + 1].ts);
    StartsAreRows(rows, bounds, here);
    assert SmallGap(bounds, rows[k].ts, rows[k + 1].ts, maxGap) ==> GapAt(rows, bounds, k, here);
    forall g | g in small && g.0 == c ensures g == here {
      StartsAreRows(rows, bounds, g);
      var j :| GapAt(rows, bounds, j, g);
      assert j == k;
    }
  }

  /** Every gap that consolidation means to close is cut only by boundaries
      it deletes. */
  ghost predicate AllClean(rows: seq<Row>, bounds: seq<int>, maxGap: int) {
    forall k :: 0 <= k < |rows| - 1 && SmallGap(bounds, rows[k].ts, rows[k + 1].ts, maxGap)
      ==> Clean(bounds, rows[k].ts, rows[k + 1].ts)
  }

  /** `left` cuts where `bounds` does, but not at the clean small gaps. */
  ghost predicate JoinsClean(rows: seq<Row>, bounds: seq<int>, left: seq<int>, maxGap: int) {
    forall k :: 0 <= k < |rows| - 1 ==> JoinsCleanAt(bounds, left, maxGap, rows[k].ts, rows[k + 1].ts)
  }

  predicate JoinsCleanAt(bounds: seq<int>, left: seq<int>, maxGap: int, a: int, b: int) {
    Separated(left, a, b) <==> Separated(bounds, a, b) && !(SmallGap(bounds, a, b, maxGap) && Clean(bounds, a, b))
  }

  function LongGaps(gaps: seq<Interval>, maxGap: int): (r: seq<Interval>)
    ensures forall g :: g in r ==> g in gaps && g.1 - g.0 > maxGap
  {
    if gaps == [] then []
    else
      assert gaps == [gaps[0]] + gaps[1..];
      (if gaps[0].1 - gaps[0].0 > maxGap then [gaps[0]] else []) + LongGaps(gaps[1..], maxGap)
  }

  lemma JoinsCleanTail(rows: seq<Row>, bounds: seq<int>, left: seq<int>, maxGap: int)
    requires |rows| >= 2 && JoinsClean(rows, bounds, left, maxGap)
    ensures JoinsCleanAt(bounds, left, maxGap, rows[0].ts, rows[1].ts)
    ensures JoinsClean(rows[1..], bounds, left, maxGap)
    ensures AllClean(rows, bounds, maxGap)
      <==> (SmallGap(bounds, rows[0].ts, rows[1].ts, maxGap) ==> Clean(bounds, rows[0].ts, rows[1].ts))
           && AllClean(rows[1..], bounds, maxGap)
  {
    var tail := rows[1..];
    assert JoinsCleanAt(bounds, left, maxGap, rows[0].ts, rows[0 + 1].ts);
    forall k | 0 <= k < |tail| - 1 ensures JoinsCleanAt(bounds, left, maxGap, tail[k].ts, tail[k + 1].ts) {
      assert JoinsCleanAt(bounds, left, maxGap, rows[k + 1].ts, rows[k + 1 + 1].ts);
    }
    if AllClean(rows, bounds, maxGap) {
      assert SmallGap(bounds, rows[0].ts, rows[0 + 1].ts, maxGap) ==> Clean(bounds, rows[0].ts, rows[0 + 1].ts);
      forall k | 0 <= k < |tail| - 1 && SmallGap(bounds, tail[k].ts, tail[k + 1].ts, maxGap)
        ensures Clean(bounds, tail[k].ts, tail[k + 1].ts)
      {
        assert SmallGap(bounds, rows[k + 1].ts, rows[k + 1 + 1].ts, maxGap);
      }
    }
    if AllClean(tail, bounds, maxGap)
        && (SmallGap(bounds, rows[0].ts, rows[1].ts, maxGap) ==> Clean(bounds, rows[0].ts, rows[1].ts)) {
      forall k | 0 <= k < |rows| - 1 && SmallGap(bounds, rows[k].ts, rows[k + 1].ts, maxGap)
        ensures Clean(bounds, rows[k].ts, rows[k + 1].ts)
      {
        if k > 0 {
          assert SmallGap(bounds, tail[k - 1].ts, tail[k - 1 + 1].ts, maxGap);
        }
      }
    }
  }

  lemma SmallGapsCons(head: seq<Interval>, rest: seq<Interval>, maxGap: int)
    requires |head| <= 1
    ensures SmallGaps(head + rest, maxGap)
         == (if head != [] && head[0].1 - head[0].0 <= maxGap then head else []) + SmallGaps(rest, maxGap)
    ensures LongGaps(head + rest, maxGap)
         == (if head != [] && head[0].1 - head[0].0 > maxGap then head else []) + LongGaps(rest, maxGap)
  {
    if head == [] {
      assert head + rest == rest;
    } else {
      assert (head + rest)[1..] == rest && [head[0]] == head;
    }
  }

  /** The number of gaps to close is at least the drop in the number of
      intervals, and equal to it exactly when all of them are clean. */
  lemma {:induction false} CountDrop(rows: seq<Row>, bounds: seq<int>, left: seq<int>, maxGap: int)
    requires JoinsClean(rows, bounds, left, maxGap)
    ensures var small := |SmallGaps(RowGaps(rows, bounds), maxGap)|;
      var drop := |Split(rows, bounds)| - |Split(rows, left)|;
      drop <= small && (drop == small <==> AllClean(rows, bounds, maxGap))
  {
    if |rows| >= 2 {
      JoinsCleanTail(rows, bounds, left, maxGap);
      CountDrop(rows[1..], bounds, left, maxGap);
      var a, b := rows[0].ts, rows[1].ts;
      var head := if Separated(bounds, a, b) && a + 1 < b then [(a + 1, b)] else [];
      SmallGapsCons(head, RowGaps(rows[1..], bounds), maxGap);
    }
  }

  /** Consolidation leaves exactly the longer gaps when all the small ones
      are clean, and not otherwise. */
  lemma GapsLeft(rows: seq<Row>, bounds: seq<int>, left: seq<int>, maxGap: int)
    requires Increasing(rows) && JoinsClean(rows, bounds, left, maxGap)
    ensures RowGaps(rows, left) == LongGaps(RowGaps(rows, bounds), maxGap) <==> AllClean(rows, bounds, maxGap)
  {
    if AllClean(rows, bounds, maxGap) {
      GapsLeftClean(rows, bounds, left, maxGap);
    } else {
      var k :| 0 <= k < |rows| - 1 && SmallGap(bounds, rows[k].ts, rows[k + 1].ts, maxGap)
               && !Clean(bounds, rows[k].ts, rows[k + 1].ts);
      var g := (rows[k].ts + 1, rows[k + 1].ts);
      assert JoinsCleanAt(bounds, left, maxGap, rows[k].ts, rows[k + 1].ts);
      assert GapAt(rows, left, k, g);
      StartsAreRows(rows, left, g);
    }
  }

  lemma {:induction false} GapsLeftClean(rows: seq<Row>, bounds: seq<int>, left: seq<int>, maxGap: int)
    requires Increasing(rows) && JoinsClean(rows, bounds, left, maxGap) && AllClean(rows, bounds, maxGap)
    ensures RowGaps(rows, left) == LongGaps(RowGaps(rows, bounds), maxGap)
  {
    if |rows| >= 2 {
      JoinsCleanTail(rows, bounds, left, maxGap);
      GapsLeftClean(rows[1..], bounds, left, maxGap);
      var a, b := rows[0].ts, rows[1].ts;
      var head := if Separated(bounds, a, b) && a + 1 < b then [(a + 1, b)] else [];
      SmallGapsCons(head, RowGaps(rows[1..], bounds), maxGap);
    }
  }

  /** Consolidating [s, e): the count returned is the drop in the number of
      intervals, and the gaps left are exactly the longer ones, if and only if
      every gap to close is cut only by boundaries just after its first row. */
  lemma ConsolidationExact(rows: seq<Row>, bounds: seq<int>, s: int, e: int, maxGap: int)
    requires Increasing(rows)
    ensures var before := IntervalsIn(rows, bounds, s, e);
      var small := SmallGaps(Gaps(before), maxGap);
      var after := IntervalsIn(rows, DropStarts(bounds, small), s, e);
      && (|small| == |before| - |after| <==> AllClean(Select(rows, s, e), bounds, maxGap))
      && (Gaps(after) == LongGaps(Gaps(before), maxGap) <==> AllClean(Select(rows, s, e), bounds, maxGap))
  {
    var r := Select(rows, s, e);
    SelectSpec(rows, s, e);
    SplitIsSplit(r, bounds);
    GapsAreRowGaps(r, bounds);
    var left := Joined(r, bounds, maxGap);
    SplitIsSplit(r, left);
    GapsAreRowGaps(r, left);
    forall k | 0 <= k < |r| - 1 ensures JoinsCleanAt(bounds, left, maxGap, r[k].ts, r[k + 1].ts) {
      JoinedPointwise(r, bounds, maxGap, k);
    }
    CountDrop(r, bounds, left, maxGap);
    GapsLeft(r, bounds, left, maxGap);
  }

  /** Every boundary was put 1us after a row still stored. */
  ghost predicate Aligned(rows: seq<Row>, bounds: seq<int>) {
    forall c :: c in bounds ==> exists i :: 0 <= i < |rows| && c == rows[i].ts + 1
  }

  lemma RowsInOrder(rows: seq<Row>, i: nat, k: nat)
    requires Increasing(rows) && i < |rows| && k < |rows|
    ensures i < k ==> rows[i].ts < rows[k].ts
  {
  }

  lemma CleanAfter(rows: seq<Row>, bounds: seq<int>, m: nat)
    requires Increasing(rows) && Aligned(rows, bounds) && m + 1 < |rows|
    ensures Clean(bounds, rows[m].ts, rows[m + 1].ts)
  {
    forall c | c in bounds && rows[m].ts < c <= rows[m + 1].ts ensures c == rows[m].ts + 1 {
      var i :| 0 <= i < |rows| && c == rows[i].ts + 1;
      RowsInOrder(rows, i, m);
      RowsInOrder(rows, m + 1, i);
    }
  }

  lemma AlignedIsClean(rows: seq<Row>, bounds: seq<int>, s: int, e: int, maxGap: int)
    requires Increasing(rows) && Aligned(rows, bounds)
    ensures AllClean(Select(rows, s, e), bounds, maxGap)
  {
    var r := Select(rows, s, e);
    var lo := Below(rows, s);
    forall k | 0 <= k < |r| - 1 ensures Clean(bounds, r[k].ts, r[k + 1].ts) {
      CleanAfter(rows, bounds, lo + k);
    }
  }
}
