/** What the calls of the store return, stated on the rows and boundaries
    alone: for every range, open ends included. */
module StoreReports {
  import opened Rows
  import opened Segments
  import opened Bounds
  import opened IntervalTools
  import opened Store
  import opened StoreProperties

  // ---- intervals ---------------------------------------------------------

  /** There is a row at t, in the range. */
  ghost predicate RowAt(rows: seq<Row>, start: Option<int>, end: Option<int>, t: int) {
    InRange(t, start, end) && exists i :: 0 <= i < |rows| && rows[i].ts == t
  }

  ghost predicate HeldOnce(found: seq<Interval>, t: int) {
    exists k :: 0 <= k < |found| && Holds(found[k], t)
      && forall m :: 0 <= m < |found| && Holds(found[m], t) ==> m == k
  }

  /** A right report: intervals in order that start on a row of the range and
      end 1us after one, with every row of the range in exactly one of them, and
      two in the same one exactly if no boundary cuts between them. */
  ghost predicate Reported(rows: seq<Row>, bounds: seq<int>, start: Option<int>, end: Option<int>,
                           found: seq<Interval>)
  {
    && NonEmptyChain(found)
    && (forall k {:trigger EndsOn(rows, start, end, found[k])} ::
          0 <= k < |found| ==> EndsOn(rows, start, end, found[k]))
    && (forall t {:trigger HeldOnce(found, t)} :: RowAt(rows, start, end, t) ==> HeldOnce(found, t))
    && (forall t, u {:trigger InOneInterval(found, t, u)} ::
          RowAt(rows, start, end, t) && RowAt(rows, start, end, u) && t <= u ==>
            (InOneInterval(found, t, u) <==> !Separated(bounds, t, u)))
  }

  ghost predicate EndsOn(rows: seq<Row>, start: Option<int>, end: Option<int>, x: Interval) {
    RowAt(rows, start, end, x.0) && RowAt(rows, start, end, x.1 - 1)
  }

  /** The rows of the range are those of [s, e). */
  ghost predicate Within(rows: seq<Row>, start: Option<int>, end: Option<int>, s: int, e: int) {
    forall i :: 0 <= i < |rows| ==> (InRange(rows[i].ts, start, end) <==> s <= rows[i].ts < e)
  }

  lemma RowThere(rows: seq<Row>, start: Option<int>, end: Option<int>, s: int, e: int, t: int) returns (r: Row)
    requires Within(rows, start, end, s, e) && RowAt(rows, start, end, t)
    ensures r in rows && r.ts == t && s <= t < e
  {
    var i :| 0 <= i < |rows| && rows[i].ts == t;
    r := rows[i];
  }

  lemma ThereRow(rows: seq<Row>, start: Option<int>, end: Option<int>, s: int, e: int, r: Row)
    requires Within(rows, start, end, s, e) && r in rows && s <= r.ts < e
    ensures RowAt(rows, start, end, r.ts)
  {
    var i :| 0 <= i < |rows| && rows[i] == r;
  }

  lemma ReportedBetween(rows: seq<Row>, bounds: seq<int>, start: Option<int>, end: Option<int>, s: int, e: int)
    requires Increasing(rows) && Within(rows, start, end, s, e)
    ensures Reported(rows, bounds, start, end, IntervalsIn(rows, bounds, s, e))
  {
    var found := IntervalsIn(rows, bounds, s, e);
    IntervalsAreChain(rows, bounds, s, e);
    forall k | 0 <= k < |found| ensures EndsOn(rows, start, end, found[k]) {
      var first, last := EndsOnRows(rows, bounds, s, e, k);
      ThereRow(rows, start, end, s, e, first);
      ThereRow(rows, start, end, s, e, last);
    }
    forall t | RowAt(rows, start, end, t) ensures HeldOnce(found, t) {
      var r := RowThere(rows, start, end, s, e, t);
      var k := EachRowOnce(rows, bounds, s, e, r);
    }
    forall t, u | RowAt(rows, start, end, t) && RowAt(rows, start, end, u) && t <= u
      ensures InOneInterval(found, t, u) <==> !Separated(bounds, t, u)
    {
      var a := RowThere(rows, start, end, s, e, t);
      var b := RowThere(rows, start, end, s, e, u);
      SharedIff(rows, bounds, s, e, a, b);
    }
  }

  lemma OpenRange(rows: seq<Row>, start: Option<int>, end: Option<int>)
    requires Increasing(rows) && rows != []
    ensures Within(rows, start, end, if start.Some? then start.value else rows[0].ts,
                   if end.Some? then end.value else rows[|rows| - 1].ts + 1)
  {
    forall i | 0 <= i < |rows| ensures rows[0].ts <= rows[i].ts <= rows[|rows| - 1].ts {
      RowsInOrder(rows, 0, i);
      RowsInOrder(rows, i, |rows| - 1);
    }
  }

  /** A range, with any of its ends open: the call raises exactly for an empty
      table with a given start and an open end; otherwise the report is right. */
  lemma IntervalsAreRight(rows: seq<Row>, bounds: seq<int>, start: Option<int>, end: Option<int>)
    requires Increasing(rows)
    ensures IntervalsSpec(rows, bounds, start, end).Raised? <==> rows == [] && start.Some? && end.None?
    ensures var result := IntervalsSpec(rows, bounds, start, end);
      result.Ok? ==> Reported(rows, bounds, start, end, result.value)
  {
    if rows != [] {
      OpenRange(rows, start, end);
      ReportedBetween(rows, bounds, start, end, if start.Some? then start.value else rows[0].ts,
                      if end.Some? then end.value else rows[|rows| - 1].ts + 1);
    } else if start.Some? && end.Some? {
      ReportedBetween(rows, bounds, start, end, start.value, end.value);
    }
  }

  /** Each interval of one right report is in the other. */
  lemma SameInterval(rows: seq<Row>, bounds: seq<int>, start: Option<int>, end: Option<int>, a: seq<Interval>,
                     b: seq<Interval>, k: nat)
    requires Reported(rows, bounds, start, end, a) && Reported(rows, bounds, start, end, b) && k < |a|
    ensures a[k] in b
  {
    assert EndsOn(rows, start, end, a[k]) && Holds(a[k], a[k].0) && Holds(a[k], a[k].1 - 1);
    assert InOneInterval(a, a[k].0, a[k].1 - 1) && InOneInterval(b, a[k].0, a[k].1 - 1);
    var m :| 0 <= m < |b| && Holds(b[m], a[k].0) && Holds(b[m], a[k].1 - 1);
    assert EndsOn(rows, start, end, b[m]) && Holds(b[m], b[m].0) && Holds(b[m], b[m].1 - 1);
    assert InOneInterval(b, b[m].0, b[m].1 - 1) && InOneInterval(a, b[m].0, b[m].1 - 1);
    var n :| 0 <= n < |a| && Holds(a[n], b[m].0) && Holds(a[n], b[m].1 - 1);
    assert Holds(a[n], a[k].0) && HeldOnce(a, a[k].0);
    assert n == k && a[k] == b[m];
  }

  lemma RestOf(a: seq<Interval>, b: seq<Interval>)
    requires NonEmptyChain(a) && a != [] && b != [] && a[0] == b[0] && forall x :: x in a ==> x in b
    ensures forall x :: x in a[1..] ==> x in b[1..]
  {
    forall x | x in a[1..] ensures x in b[1..] {
      var k :| 0 <= k < |a[1..]| && a[1..][k] == x;
      assert a[0].1 <= a[k + 1].0 && x in a;
      var m :| 0 <= m < |b| && b[m] == x;
      assert b[1..][m - 1] == x;
    }
  }

  lemma {:induction false} SameChain(a: seq<Interval>, b: seq<Interval>)
    requires NonEmptyChain(a) && NonEmptyChain(b) && forall x :: x in a <==> x in b
    ensures a == b
  {
    assert (a != [] ==> a[0] in b) && (b != [] ==> b[0] in a);
    if a != [] {
      assert a[0] == b[0];
      RestOf(a, b);
      RestOf(b, a);
      SameChain(a[1..], b[1..]);
    }
  }

  /** There is only one right report. */
  lemma ReportIsUnique(rows: seq<Row>, bounds: seq<int>, start: Option<int>, end: Option<int>, a: seq<Interval>,
                       b: seq<Interval>)
    requires Increasing(rows) && Reported(rows, bounds, start, end, a) && Reported(rows, bounds, start, end, b)
    ensures a == b
  {
    forall x ensures x in a <==> x in b {
      if x in a {
        var k :| 0 <= k < |a| && a[k] == x;
        SameInterval(rows, bounds, start, end, a, b, k);
      }
      if x in b {
        var k :| 0 <= k < |b| && b[k] == x;
        SameInterval(rows, bounds, start, end, b, a, k);
      }
    }
    SameChain(a, b);
  }

  // ---- consolidation -----------------------------------------------------

  /** Between interval k and the next there is a gap of at most `maxGap`. */
  predicate SmallAfter(found: seq<Interval>, maxGap: int, k: int) {
    0 <= k < |found| - 1 && 0 < found[k + 1].0 - found[k].1 <= maxGap
  }

  function SmallPlaces(found: seq<Interval>, maxGap: int): set<int> {
    set k | 0 <= k < |found| - 1 && SmallAfter(found, maxGap, k)
  }

  /** c is the start of a gap to close. */
  ghost predicate StartsGap(found: seq<Interval>, maxGap: int, c: int) {
    exists k :: SmallAfter(found, maxGap, k) && found[k].1 == c
  }

  /** No small gap between rows of the range is cut but just after its first
      row. */
  ghost predicate CleanIn(rows: seq<Row>, bounds: seq<int>, start: Option<int>, end: Option<int>, maxGap: int) {
    forall k :: 0 <= k < |rows| - 1 && CutIn(rows, bounds, start, end, maxGap, k)
      ==> Clean(bounds, rows[k].ts, rows[k + 1].ts)
  }

  ghost predicate CutIn(rows: seq<Row>, bounds: seq<int>, start: Option<int>, end: Option<int>, maxGap: int, k: int) {
    && 0 <= k < |rows| - 1
    && InRange(rows[k].ts, start, end) && InRange(rows[k + 1].ts, start, end)
    && SmallGap(bounds, rows[k].ts, rows[k + 1].ts, maxGap)
  }

  lemma CleanBetween(rows: seq<Row>, bounds: seq<int>, start: Option<int>, end: Option<int>, s: int, e: int,
                     maxGap: int)
    requires Increasing(rows) && Within(rows, start, end, s, e)
    ensures CleanIn(rows, bounds, start, end, maxGap) <==> AllClean(Select(rows, s, e), bounds, maxGap)
  {
    var r, lo := Select(rows, s, e), Below(rows, s);
    BelowSpec(rows, s);
    BelowSpec(rows, e);
    if AllClean(r, bounds, maxGap) {
      forall k | 0 <= k < |rows| - 1 && CutIn(rows, bounds, start, end, maxGap, k)
        ensures Clean(bounds, rows[k].ts, rows[k + 1].ts)
      {
        assert r[k - lo] == rows[k] && r[k - lo + 1] == rows[k + 1];
      }
    }
    if CleanIn(rows, bounds, start, end, maxGap) {
      forall k | 0 <= k < |r| - 1 && SmallGap(bounds, r[k].ts, r[k + 1].ts, maxGap)
        ensures Clean(bounds, r[k].ts, r[k + 1].ts)
      {
        assert r[k] == rows[lo + k] && r[k + 1] == rows[lo + k + 1];
        assert CutIn(rows, bounds, start, end, maxGap, lo + k);
      }
    }
  }

  lemma {:induction false} SizeOfNext(a: set<int>, b: set<int>)
    requires forall x :: x in b <==> x - 1 in a
    ensures |a| == |b|
    decreases |b|
  {
    if x :| x in b {
      SizeOfNext(a - {x - 1}, b - {x});
    } else {
      assert forall x :: x in a ==> x + 1 in b;
      assert forall x :: x !in a && x !in b;
      assert a == b;
    }
  }

  lemma SizeWithout(a: set<int>)
    ensures |a| == |a - {0}| + (if 0 in a then 1 else 0)
  {
    if 0 in a {
      assert a == a - {0} + {0};
    } else {
      assert a == a - {0};
    }
  }

  lemma FirstSmall(found: seq<Interval>, maxGap: int)
    requires |found| >= 2
    ensures |SmallGaps(Gaps(found), maxGap)|
         == (if SmallAfter(found, maxGap, 0) then 1 else 0) + |SmallGaps(Gaps(found[1..]), maxGap)|
  {
    SmallGapsCons(FirstGap(found), Gaps(found[1..]), maxGap);
  }

  lemma {:induction false} SmallCount(found: seq<Interval>, maxGap: int)
    ensures |SmallGaps(Gaps(found), maxGap)| == |SmallPlaces(found, maxGap)|
  {
    var places := SmallPlaces(found, maxGap);
    if |found| < 2 {
      assert places == {};
    } else {
      var rest := found[1..];
      SmallCount(rest, maxGap);
      FirstSmall(found, maxGap);
      PlacesCons(found, maxGap);
      SizeOfNext(SmallPlaces(rest, maxGap), places - {0});
      SizeWithout(places);
    }
  }

  lemma PlacesCons(found: seq<Interval>, maxGap: int)
    requires |found| >= 2
    ensures 0 in SmallPlaces(found, maxGap) <==> SmallAfter(found, maxGap, 0)
    ensures forall k :: k in SmallPlaces(found, maxGap) - {0} <==> k - 1 in SmallPlaces(found[1..], maxGap)
  {
    var rest := found[1..];
    forall k ensures k in SmallPlaces(found, maxGap) - {0} <==> k - 1 in SmallPlaces(rest, maxGap) {
      assert k > 0 ==> (SmallAfter(found, maxGap, k) <==> SmallAfter(rest, maxGap, k - 1));
    }
  }

  lemma {:induction false} SmallStarts(found: seq<Interval>, maxGap: int, c: int)
    ensures (exists g :: g in SmallGaps(Gaps(found), maxGap) && g.0 == c) <==> StartsGap(found, maxGap, c)
  {
    if |found| >= 2 {
      var rest, first := found[1..], FirstGap(found);
      SmallStarts(rest, maxGap, c);
      var all := Gaps(found);
      assert all == first + Gaps(rest);
      if StartsGap(rest, maxGap, c) {
        var k :| SmallAfter(rest, maxGap, k) && rest[k].1 == c;
        assert SmallAfter(found, maxGap, k + 1) && found[k + 1].1 == c;
      }
      if StartsGap(found, maxGap, c) {
        var k :| SmallAfter(found, maxGap, k) && found[k].1 == c;
        if k > 0 {
          assert SmallAfter(rest, maxGap, k - 1) && rest[k - 1].1 == c;
        } else {
          assert first[0] in all && first[0].0 == c;
        }
      }
      if g :| g in SmallGaps(all, maxGap) && g.0 == c {
        if g in Gaps(rest) {
          assert g in SmallGaps(Gaps(rest), maxGap);
        } else {
          assert g in first && SmallAfter(found, maxGap, 0);
        }
      }
    }
  }

  lemma {:induction false} WithoutCounts(bounds: seq<int>, drop: int -> bool, c: int)
    ensures multiset(Without(bounds, drop))[c] == if drop(c) then 0 else multiset(bounds)[c]
  {
    if bounds != [] {
      WithoutCounts(bounds[1..], drop, c);
      assert bounds == [bounds[0]] + bounds[1..];
    }
  }

  /** What a consolidation may do: the report before and after it, the count it
      returns and the boundaries it leaves. */
  ghost predicate Consolidated(bounds: seq<int>, before: seq<Interval>, after: seq<Interval>, maxGap: int, clean: bool,
                               count: nat, left: seq<int>)
  {
    && NonDecreasing(left)
    && (forall c :: multiset(left)[c] == if StartsGap(before, maxGap, c) then 0 else multiset(bounds)[c])
    && count == |SmallPlaces(before, maxGap)|
    && (count == |before| - |after| <==> clean)
    && (Gaps(after) == LongGaps(Gaps(before), maxGap) <==> clean)
  }

  lemma ConsolidatedBetween(rows: seq<Row>, bounds: seq<int>, s: int, e: int, maxGap: int)
    requires Increasing(rows) && NonDecreasing(bounds)
    ensures var before := IntervalsIn(rows, bounds, s, e);
      var small := SmallGaps(Gaps(before), maxGap);
      var left := DropStarts(bounds, small);
      Consolidated(bounds, before, IntervalsIn(rows, left, s, e), maxGap, AllClean(Select(rows, s, e), bounds, maxGap),
                   |small|, left)
  {
    var before := IntervalsIn(rows, bounds, s, e);
    var small := SmallGaps(Gaps(before), maxGap);
    var left := DropStarts(bounds, small);
    DropStartsOrdered(bounds, small);
    SmallCount(before, maxGap);
    forall c ensures multiset(left)[c] == if StartsGap(before, maxGap, c) then 0 else multiset(bounds)[c] {
      SmallStarts(before, maxGap, c);
      WithoutCounts(bounds, c => exists g :: g in small && g.0 == c, c);
    }
    ConsolidationExact(rows, bounds, s, e, maxGap);
  }

  /** For every range and gap: the count returned is the number of gaps of at
      most that length, exactly the boundaries at their starts are gone, and the
      count is the drop in the number of intervals, and the gaps left are the
      longer ones, if and only if no such gap is cut elsewhere. */
  lemma ConsolidateIsRight(rows: seq<Row>, bounds: seq<int>, start: Option<int>, end: Option<int>, maxGap: int)
    requires Increasing(rows) && NonDecreasing(bounds)
    ensures var result := ConsolidateSpec(rows, bounds, start, end, maxGap);
      && (result.Raised? <==> rows == [] && start.Some? && end.None?)
      && (result.Ok? ==>
            var (count, left) := result.value;
            var before, after := IntervalsSpec(rows, bounds, start, end), IntervalsSpec(rows, left, start, end);
            && before.Ok? && after.Ok?
            && Consolidated(bounds, before.value, after.value, maxGap, CleanIn(rows, bounds, start, end, maxGap),
                            count, left))
  {
    IntervalsAreRight(rows, bounds, start, end);
    if rows != [] {
      var s := if start.Some? then start.value else rows[0].ts;
      var e := if end.Some? then end.value else rows[|rows| - 1].ts + 1;
      OpenRange(rows, start, end);
      CleanBetween(rows, bounds, start, end, s, e, maxGap);
      ConsolidatedBetween(rows, bounds, s, e, maxGap);
    } else if start.Some? && end.Some? {
      CleanBetween(rows, bounds, start, end, start.value, end.value, maxGap);
      ConsolidatedBetween(rows, bounds, start.value, end.value, maxGap);
    } else {
      DropNone(bounds);
    }
  }

  // ---- closing and removing ----------------------------------------------

  /** c is 1us after the last row up to `ts`, and no boundary lies from that row
      up to `ts`. */
  ghost predicate ClosesAt(rows: seq<Row>, bounds: seq<int>, ts: int, c: int) {
    && (exists r :: r in rows && r.ts == c - 1)
    && c - 1 <= ts && (forall r :: r in rows && r.ts <= ts ==> r.ts <= c - 1)
    && forall b :: b in bounds ==> !(c - 1 <= b <= ts)
  }

  lemma NoBoundFrom(bounds: seq<int>, t: int, ts: int)
    requires NonDecreasing(bounds) && t <= ts
    ensures (forall b :: b in bounds ==> !(t <= b <= ts))
        <==> LastBoundAt(bounds, ts).None? || LastBoundAt(bounds, ts).value < t
  {
    forall b | b in bounds && b <= ts ensures LastBoundAt(bounds, ts).Some? && b <= LastBoundAt(bounds, ts).value {
      LastBoundIsLargest(bounds, ts, b);
    }
  }

  /** A close adds the boundary just after the last row up to `ts`, unless there
      is one from that row on, and changes nothing else. */
  lemma CloseIsRight(rows: seq<Row>, bounds: seq<int>, ts: int, c: int)
    requires Increasing(rows) && NonDecreasing(bounds)
    ensures multiset(CloseAt(rows, bounds, ts))[c]
         == multiset(bounds)[c] + (if ClosesAt(rows, bounds, ts, c) then 1 else 0)
  {
    LastRowUpTo(rows, ts);
    match LastBelow(rows, ts + 1)
    case None =>
    case Some(last) =>
      NoBoundFrom(bounds, last.ts, ts);
      InsertCounts(bounds, last.ts + 1, c);
      LastCloses(rows, bounds, ts, last, c);
      CloseAtLast(rows, bounds, ts, last);
  }

  lemma CloseAtLast(rows: seq<Row>, bounds: seq<int>, ts: int, last: Row)
    requires LastBelow(rows, ts + 1) == Some(last)
    ensures var b := LastBoundAt(bounds, ts);
      CloseAt(rows, bounds, ts) == if b.None? || b.value < last.ts then Insert(bounds, last.ts + 1) else bounds
  {
  }

  lemma LastRowUpTo(rows: seq<Row>, ts: int)
    requires Increasing(rows)
    ensures match LastBelow(rows, ts + 1)
            case None => forall r :: r in rows ==> r.ts > ts
            case Some(last) => last in rows && last.ts <= ts && forall r :: r in rows && r.ts <= ts ==> r.ts <= last.ts
  {
    LastBelowSpec(rows, ts + 1);
  }

  lemma LastCloses(rows: seq<Row>, bounds: seq<int>, ts: int, last: Row, c: int)
    requires last in rows && last.ts <= ts && forall r :: r in rows && r.ts <= ts ==> r.ts <= last.ts
    ensures ClosesAt(rows, bounds, ts, c)
        <==> c == last.ts + 1 && forall b :: b in bounds ==> !(last.ts <= b <= ts)
  {
  }

  lemma {:induction false} InsertCounts(bounds: seq<int>, x: int, c: int)
    ensures multiset(Insert(bounds, x))[c] == multiset(bounds)[c] + (if c == x then 1 else 0)
  {
    if bounds != [] {
      assert bounds == [bounds[0]] + bounds[1..];
      if bounds[0] < x {
        InsertCounts(bounds[1..], x, c);
      }
    }
  }

  /** A removal deletes the boundaries of the range and then, if the range has a
      start, closes there what is left. */
  lemma RemovedBounds(rows: seq<Row>, bounds: seq<int>, start: Option<int>, end: Option<int>, c: int)
    requires Increasing(rows) && NonDecreasing(bounds)
    ensures var kept := if InRange(c, start, end) then 0 else multiset(bounds)[c];
      multiset(RemoveBounds(rows, bounds, start, end))[c] ==
        if start.Some? && MarksRemoval(rows, bounds, start, end, c) then kept + 1 else kept
  {
    var left := Without(bounds, t => InRange(t, start, end));
    WithoutCounts(bounds, t => InRange(t, start, end), c);
    WithoutOrdered(bounds, t => InRange(t, start, end));
    OutsideIncreasing(rows, start, end);
    if start.Some? {
      CloseIsRight(Outside(rows, start, end), left, start.value, c);
      MarkIsClose(rows, bounds, start, end, c);
    }
  }

  /** c is 1us after the last row kept up to the start of the range, and no
      boundary kept lies from that row up to the start. */
  ghost predicate MarksRemoval(rows: seq<Row>, bounds: seq<int>, start: Option<int>, end: Option<int>, c: int)
    requires start.Some?
  {
    && (exists r :: r in rows && !InRange(r.ts, start, end) && r.ts == c - 1)
    && c - 1 <= start.value
    && (forall r :: r in rows && !InRange(r.ts, start, end) && r.ts <= start.value ==> r.ts <= c - 1)
    && forall b :: b in bounds && !InRange(b, start, end) ==> !(c - 1 <= b <= start.value)
  }

  lemma MarkIsClose(rows: seq<Row>, bounds: seq<int>, start: Option<int>, end: Option<int>, c: int)
    requires start.Some?
    ensures MarksRemoval(rows, bounds, start, end, c)
        <==> ClosesAt(Outside(rows, start, end), Without(bounds, t => InRange(t, start, end)), start.value, c)
  {
  }
}
