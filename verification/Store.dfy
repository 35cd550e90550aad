/** The data store of one stream: its base table, its table of interval
    boundaries and its decimation tables. */
module Store {
  import opened Rows
  import opened Segments
  import opened Bounds
  import opened IntervalTools

  /** Unknown ends of a range default to the ends of the data. An empty table
      gives no range if the start is unknown; if only the end is unknown,
      adding to the missing timestamp raises. */
  function ConvertTimeBounds(rows: seq<Row>, start: Option<int>, end: Option<int>): Result<Option<(int, int)>> {
    if start.None? && rows == [] then Ok(None)
    else if end.None? && rows == [] then Raised
    else
      Ok(Some((if start.Some? then start.value else rows[0].ts,
               if end.Some? then end.value else rows[|rows| - 1].ts + 1)))
  }

  function FirstIn(rows: seq<Row>, s: int, e: int): Option<int> {
    if Select(rows, s, e) == [] then None else Some(Select(rows, s, e)[0].ts)
  }

  function FirstFrom(rows: seq<Row>, s: int): Option<int> {
    if Below(rows, s) < |rows| then Some(rows[Below(rows, s)].ts) else None
  }

  /** What is reported of the rows between two cuts. */
  function ReportOf(rows: seq<Row>, s: int, e: int): seq<Interval> {
    match (FirstIn(rows, s, e), LastBelow(rows, e))
    case (Some(first), Some(last)) => [(first, last.ts + 1)]
    case _ => []
  }

  /** What is reported between the first n cuts. */
  function Reports(rows: seq<Row>, cuts: seq<int>, n: nat): seq<Interval>
    requires n <= |cuts|
  {
    if n < 2 then [] else Reports(rows, cuts, n - 1) + ReportOf(rows, cuts[n - 2], cuts[n - 1])
  }

  /** The intervals of a range: the extents of its segments. */
  function IntervalsIn(rows: seq<Row>, bounds: seq<int>, s: int, e: int): seq<Interval> {
    SplitIsSplit(Select(rows, s, e), bounds);
    Extents(Split(Select(rows, s, e), bounds))
  }

  function IntervalsSpec(rows: seq<Row>, bounds: seq<int>, start: Option<int>, end: Option<int>)
    : Result<seq<Interval>>
  {
    match ConvertTimeBounds(rows, start, end)
    case Raised => Raised
    case Ok(None) => Ok([])
    case Ok(Some((s, e))) => Ok(IntervalsIn(rows, bounds, s, e))
  }

  function SmallGaps(gaps: seq<Interval>, maxGap: int): (r: seq<Interval>)
    ensures forall g :: g in r <==> g in gaps && g.1 - g.0 <= maxGap
  {
    if gaps == [] then []
    else
      assert gaps == [gaps[0]] + gaps[1..];
      (if gaps[0].1 - gaps[0].0 <= maxGap then [gaps[0]] else []) + SmallGaps(gaps[1..], maxGap)
  }

  /** Deleting the boundaries at the starts of the given gaps. */
  function DropStarts(bounds: seq<int>, gaps: seq<Interval>): seq<int> {
    Without(bounds, c => exists g :: g in gaps && g.0 == c)
  }

  /** The rows outside [start, end); a missing end of the range is unlimited. */
  predicate InRange(t: int, start: Option<int>, end: Option<int>) {
    && (start.Some? ==> start.value <= t)
    && (end.Some? ==> t < end.value)
  }

  function Outside(rows: seq<Row>, start: Option<int>, end: Option<int>): (r: seq<Row>)
    ensures forall x :: x in r <==> x in rows && !InRange(x.ts, start, end)
  {
    if rows == [] then []
    else
      assert rows == [rows[0]] + rows[1..];
      (if InRange(rows[0].ts, start, end) then [] else [rows[0]]) + Outside(rows[1..], start, end)
  }

  lemma {:induction false} OutsideIncreasing(rows: seq<Row>, start: Option<int>, end: Option<int>)
    requires Increasing(rows)
    ensures Increasing(Outside(rows, start, end))
  {
    if rows != [] {
      OutsideIncreasing(rows[1..], start, end);
      var rest := Outside(rows[1..], start, end);
      forall k | 0 <= k < |rest| ensures rows[0].ts < rest[k].ts {
        assert rest[k] in rows[1..];
      }
    }
  }

  class StreamStore {
    var rows: seq<Row>
    var bounds: seq<int>
    var levels: seq<seq<Row>>

    ghost predicate Valid()
      reads this
    {
      Increasing(rows) && NonDecreasing(bounds) && forall k :: 0 <= k < |levels| ==> Increasing(levels[k])
    }

    constructor ()
      ensures Valid() && rows == [] && bounds == [] && levels == []
    {
      rows := [];
      bounds := [];
      levels := [];
    }

    /** Put a boundary 1us after the last row at or before `ts`, if needed. */
    method CloseInterval(ts: int)
      requires Valid()
      modifies this`bounds
      ensures Valid() && bounds == CloseAt(rows, old(bounds), ts)
    {
      CloseAtOrdered(rows, bounds, ts);
      var lastTs := LastBelow(rows, ts + 1);
      if lastTs == None {
        return;
      }
      var lastInterval := LastBoundAt(bounds, ts);
      if lastInterval == None || lastTs.value.ts > lastInterval.value {
        bounds := Insert(bounds, lastTs.value.ts + 1);
      }
    }

    /** Delete the boundaries of [start, end], both ends included. */
    method RemoveIntervalBreaks(start: int, end: int)
      requires Valid()
      modifies this`bounds
      ensures Valid() && bounds == Without(old(bounds), c => start <= c <= end)
    {
      WithoutOrdered(bounds, c => start <= c <= end);
      bounds := Without(bounds, c => start <= c <= end);
    }

    method Intervals(start: Option<int>, end: Option<int>) returns (result: Result<seq<Interval>>)
      requires Valid()
      ensures result == IntervalsSpec(rows, bounds, start, end)
    {
      var range := ConvertTimeBounds(rows, start, end);
      if range.Raised? {
        return Raised;
      }
      if range.value.None? {
        return Ok([]);
      }
      var (s, e) := range.value.value;
      PiecesAreSegments(rows, bounds, s, e);
      ReportsAreExtents(rows, Cuts(bounds, s, e), |Cuts(bounds, s, e)|);
      assert Cuts(bounds, s, e)[..|Cuts(bounds, s, e)|] == Cuts(bounds, s, e);
      var intervals := IntervalsBetween(Cuts(bounds, s, e));
      return Ok(intervals);
    }

    /** An interval for each pair of boundaries with rows between them: it ends
        just after the last row before the second. */
    method IntervalsBetween(boundaries: seq<int>) returns (intervals: seq<Interval>)
      requires Valid()
      ensures intervals == Reports(rows, boundaries, |boundaries|)
    {
      intervals := [];
      var curStart: Option<int> := None;
      for i := 0 to |boundaries|
        invariant intervals == Reports(rows, boundaries, i)
        invariant i == 0 ==> curStart == None
        invariant 0 < i < |boundaries| ==> curStart == FirstIn(rows, boundaries[i - 1], boundaries[i])
      {
        var boundary := boundaries[i];
        if curStart.Some? {
          ReportEnds(rows, boundaries[i - 1], boundary);
          var prev := LastBelow(rows, boundary);
          intervals := intervals + [(curStart.value, prev.value.ts + 1)];
          curStart := None;
        }
        var next :=
          if i < |boundaries| - 1 then FirstIn(rows, boundary, boundaries[i + 1]) else FirstFrom(rows, boundary);
        if next == None {
          continue;
        }
        if curStart == None {
          curStart := next;
        }
      }
    }

    /** Join the intervals of a range that are at most `maxGap` apart. */
    method Consolidate(start: Option<int>, end: Option<int>, maxGap: int) returns (result: Result<nat>)
      requires Valid()
      modifies this`bounds
      ensures Valid()
      ensures match ConsolidateSpec(rows, old(bounds), start, end, maxGap)
              case Raised => result == Raised && bounds == old(bounds)
              case Ok((joined, left)) => result == Ok(joined) && bounds == left
    {
      var found := Intervals(start, end);
      if found.Raised? {
        return Raised;
      }
      var intervals := found.value;
      DropNone(bounds);
      if |intervals| == 0 {
        return Ok(0);
      }
      var range := ConvertTimeBounds(rows, start, end).value.value;
      IntervalsAreChain(rows, bounds, range.0, range.1);
      var duration := (intervals[0].0, intervals[|intervals| - 1].1);
      var gaps := IntervalDifference([duration], intervals);
      DifferenceIsGaps(intervals);
      if |gaps| == 0 {
        return Ok(0);
      }
      var smallGaps := SmallGaps(gaps, maxGap);
      if |smallGaps| == 0 {
        return Ok(0);
      }
      DropStartsOrdered(bounds, smallGaps);
      bounds := DropStarts(bounds, smallGaps);
      return Ok(|smallGaps|);
    }

    /** Delete the rows and boundaries of [start, end) from every table, and
        mark the missing data by a boundary. */
    method Remove(start: Option<int>, end: Option<int>)
      requires Valid()
      modifies this
      ensures Valid()
      ensures rows == Outside(old(rows), start, end)
      ensures bounds == RemoveBounds(old(rows), old(bounds), start, end)
      ensures |levels| == |old(levels)|
      ensures forall k :: 0 <= k < |levels| ==> levels[k] == Outside(old(levels)[k], start, end)
    {
      for k := 0 to |levels|
        invariant |levels| == |old(levels)| && rows == old(rows) && bounds == old(bounds)
        invariant forall j :: 0 <= j < |levels| ==>
          levels[j] == if j < k then Outside(old(levels)[j], start, end) else old(levels)[j]
      {
        levels := levels[k := Outside(levels[k], start, end)];
      }
      forall k | 0 <= k < |levels| ensures Increasing(levels[k]) {
        OutsideIncreasing(old(levels)[k], start, end);
      }
      OutsideIncreasing(rows, start, end);
      rows := Outside(rows, start, end);
      WithoutOrdered(bounds, t => InRange(t, start, end));
      bounds := Without(bounds, t => InRange(t, start, end));
      if start.Some? {
        CloseInterval(start.value);
      }
    }
  }

  function ConsolidateSpec(rows: seq<Row>, bounds: seq<int>, start: Option<int>, end: Option<int>, maxGap: int)
    : Result<(nat, seq<int>)>
  {
    match IntervalsSpec(rows, bounds, start, end)
    case Raised => Raised
    case Ok(intervals) =>
      var small := SmallGaps(Gaps(intervals), maxGap);
      Ok((|small|, DropStarts(bounds, small)))
  }

  function RemoveBounds(rows: seq<Row>, bounds: seq<int>, start: Option<int>, end: Option<int>): seq<int> {
    var left := Without(bounds, t => InRange(t, start, end));
    if start.Some? then CloseAt(Outside(rows, start, end), left, start.value) else left
  }

  lemma {:induction false} DropNone(bounds: seq<int>)
    ensures DropStarts(bounds, []) == bounds
  {
    if bounds != [] {
      DropNone(bounds[1..]);
    }
  }

  lemma DropStartsOrdered(bounds: seq<int>, gaps: seq<Interval>)
    requires NonDecreasing(bounds)
    ensures NonDecreasing(DropStarts(bounds, gaps))
  {
    WithoutOrdered(bounds, c => exists g :: g in gaps && g.0 == c);
  }

  lemma IntervalsAreChain(rows: seq<Row>, bounds: seq<int>, s: int, e: int)
    requires Increasing(rows)
    ensures NonEmptyChain(IntervalsIn(rows, bounds, s, e))
  {
    SelectSpec(rows, s, e);
    SplitIsSplit(Select(rows, s, e), bounds);
    PartsAreChain(Split(Select(rows, s, e), bounds));
  }

  lemma IncreasingTail(first: seq<Row>, rest: seq<Row>)
    requires Increasing(first + rest)
    ensures Increasing(first) && Increasing(rest)
    ensures forall i, j :: 0 <= i < |first| && 0 <= j < |rest| ==> first[i].ts < rest[j].ts
  {
    var all := first + rest;
    assert forall i :: 0 <= i < |first| ==> first[i] == all[i];
    assert forall j :: 0 <= j < |rest| ==> rest[j] == all[|first| + j];
  }

  lemma LaterPart(first: seq<Row>, rest: seq<seq<Row>>, k: nat)
    requires Increasing(first + Concat(rest)) && first != [] && k < |rest| && rest[k] != []
    ensures first[|first| - 1].ts < rest[k][0].ts
  {
    IncreasingTail(first, Concat(rest));
    ConcatIn(rest, k, rest[k][0]);
  }

  lemma {:induction false} PartsAreChain(segs: seq<seq<Row>>)
    requires Increasing(Concat(segs)) && forall i :: 0 <= i < |segs| ==> segs[i] != []
    ensures NonEmptyChain(Extents(segs))
  {
    if segs != [] {
      var first, rest := segs[0], segs[1..];
      IncreasingTail(first, Concat(rest));
      PartsAreChain(rest);
      forall k | 0 <= k < |rest| ensures Extent(first).1 <= Extents(rest)[k].0 {
        LaterPart(first, rest, k);
      }
      ChainCons(Extent(first), Extents(rest));
      assert Extents(segs) == [Extent(first)] + Extents(rest);
    }
  }

  lemma ChainCons(x: Interval, rest: seq<Interval>)
    requires NonEmptyChain(rest) && x.0 < x.1
    requires forall k :: 0 <= k < |rest| ==> x.1 <= rest[k].0
    ensures NonEmptyChain([x] + rest)
  {
  }

  ghost predicate PiecesFilled(rows: seq<Row>, cuts: seq<int>) {
    forall k :: 0 <= k < |Pieces(rows, cuts)| ==> Pieces(rows, cuts)[k] != []
  }

  lemma PieceEnds(rows: seq<Row>, s: int, e: int)
    requires Select(rows, s, e) != []
    ensures LastBelow(rows, e) == Some(Select(rows, s, e)[|Select(rows, s, e)| - 1])
  {
  }

  lemma ExtentsAppend(segs: seq<seq<Row>>, seg: seq<Row>)
    requires seg != [] && forall i :: 0 <= i < |segs| ==> segs[i] != []
    ensures Extents(segs + [seg]) == Extents(segs) + [Extent(seg)]
  {
  }

  /** Where the rows between two cuts begin there is a last one to end with. */
  lemma ReportEnds(rows: seq<Row>, s: int, e: int)
    requires FirstIn(rows, s, e).Some?
    ensures LastBelow(rows, e).Some?
        && ReportOf(rows, s, e) == [(FirstIn(rows, s, e).value, LastBelow(rows, e).value.ts + 1)]
  {
  }

  /** One more cut, one more piece, if it has rows. */
  lemma PiecesNext(rows: seq<Row>, cuts: seq<int>, n: nat)
    requires 2 <= n <= |cuts|
    ensures var piece := Select(rows, cuts[n - 2], cuts[n - 1]);
      Pieces(rows, cuts[..n]) == Pieces(rows, cuts[..n - 1]) + (if piece == [] then [] else [piece])
  {
    assert cuts[..n][..n - 1] == cuts[..n - 1];
  }

  lemma ReportNext(rows: seq<Row>, s: int, e: int, done: seq<seq<Row>>)
    requires forall i :: 0 <= i < |done| ==> done[i] != []
    ensures var piece := Select(rows, s, e); var more := done + (if piece == [] then [] else [piece]);
      (forall i :: 0 <= i < |more| ==> more[i] != []) && Extents(more) == Extents(done) + ReportOf(rows, s, e)
  {
    var piece := Select(rows, s, e);
    if piece != [] {
      PieceEnds(rows, s, e);
      ExtentsAppend(done, piece);
    } else {
      assert done + [] == done;
    }
  }

  /** The reports are the extents of the pieces that have rows. */
  lemma {:induction false} ReportsAreExtents(rows: seq<Row>, cuts: seq<int>, n: nat)
    requires n <= |cuts|
    ensures PiecesFilled(rows, cuts[..n]) && Reports(rows, cuts, n) == Extents(Pieces(rows, cuts[..n]))
  {
    if n >= 2 {
      ReportsAreExtents(rows, cuts, n - 1);
      PiecesNext(rows, cuts, n);
      ReportNext(rows, cuts[n - 2], cuts[n - 1], Pieces(rows, cuts[..n - 1]));
    }
  }
}
