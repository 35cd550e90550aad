/** Inserters one after the other on one stream: what the store keeps are the
    intervals of each pipe in turn, but where an inserter merges. */
module LifeRuns {
  import opened Rows
  import opened Segments
  import opened Bounds
  import opened StoreProperties
  import opened Decimators
  import opened Inserters
  import opened InserterRuns
  import opened Lives

  // ---- the first rows of a life ------------------------------------------

  /** The time of the first row an inserter reads. */
  function FirstTs(input: seq<Read>): Option<int> {
    if input == [] then None
    else if input[0].data != [] then Some(input[0].data[0].ts)
    else FirstTs(input[1..])
  }

  /** A new inserter on what is stored. */
  function Renewed(s: State): State {
    s.(firstInsert := true, lastTs := None, decimator := None)
  }

  predicate After(rows: seq<Row>, t0: int) {
    rows == [] || rows[|rows| - 1].ts < t0
  }

  predicate LaterInput(rows: seq<Row>, input: seq<Read>) {
    FirstTs(input).Some? ==> After(rows, FirstTs(input).value)
  }

  /** The segments a new inserter finds once its opening close and merge are
      done, and the one that its first rows continue. */
  function Carried(rows: seq<Row>, cuts: seq<int>, t0: int): (seq<seq<Row>>, seq<Row>) {
    var segs := Split(rows, cuts);
    if rows == [] || Separated(cuts, rows[|rows| - 1].ts, t0) then (segs, [])
    else (segs[..|segs| - 1], segs[|segs| - 1])
  }

  lemma {:induction false} FilledFull(parts: seq<seq<Row>>)
    requires forall i :: 0 <= i < |parts| ==> parts[i] != []
    ensures Filled(parts) == parts
  {
    if parts != [] {
      FilledFull(parts[1..]);
    }
  }

  lemma OpenedStored(s: State, t0: int, gap: int)
    requires Stored(s) && After(s.rows, t0)
    ensures var cuts := Opened(s.rows, s.bounds, t0, gap);
      && NonDecreasing(cuts) && Aligned(s.rows, cuts)
      && forall c :: c in cuts ==> s.rows != [] && c <= s.rows[|s.rows| - 1].ts + 1 <= t0
  {
    var closed := CloseAt(s.rows, s.bounds, t0 - 1);
    CloseAtOrdered(s.rows, s.bounds, t0 - 1);
    CloseAtAligned(s.rows, s.bounds, t0 - 1);
    WithoutOrdered(closed, c => t0 - gap <= c <= t0);
    forall c | c in closed ensures s.rows != [] && c <= s.rows[|s.rows| - 1].ts + 1 {
      BoundsBeforeEnd(s.rows, closed, c);
    }
  }

  /** The first rows follow the segments carried over. */
  lemma CarriedGrows(rows: seq<Row>, cuts: seq<int>, data: seq<Row>)
    requires data != [] && Whole(data, cuts)
    ensures var (done, now) := Carried(rows, cuts, data[0].ts);
      Split(rows + data, cuts) == Filled(done + [now + data])
  {
    var (done, now) := Carried(rows, cuts, data[0].ts);
    SplitIsSplit(rows, cuts);
    FilledFull(done);
    FilledAppend(done, [now + data]);
    FilledOne(now + data);
    WholeSplit(data, cuts);
    if rows == [] {
      assert rows + data == data && now + data == data;
    } else if Separated(cuts, rows[|rows| - 1].ts, data[0].ts) {
      SplitAppend(rows, data, cuts);
      assert now + data == data;
    } else {
      SplitExtendLast(rows, data, cuts);
    }
  }

  lemma FirstTracks(s: State, gap: int, decimate: bool, data: seq<Row>, valid: bool)
    requires Stored(s) && s.firstInsert && data != [] && After(s.rows, data[0].ts)
    requires Write(s, gap, decimate, data, valid).1 && s.lastTs.None?
    ensures var (done, now) := Carried(s.rows, Opened(s.rows, s.bounds, data[0].ts, gap), data[0].ts);
      Tracks(Write(s, gap, decimate, data, valid).0, done, now + data)
  {
    var cuts := Opened(s.rows, s.bounds, data[0].ts, gap);
    StrictIsIncreasing(data);
    OpenedStored(s, data[0].ts, gap);
    MingleAfter(s.rows, data);
    FirstWrites(s, gap, decimate, data, valid);
    FirstStored(s, Write(s, gap, decimate, data, valid).0, cuts, data);
  }

  lemma FirstWrites(s: State, gap: int, decimate: bool, data: seq<Row>, valid: bool)
    requires s.firstInsert && data != [] && Write(s, gap, decimate, data, valid).1
    ensures var s1 := Write(s, gap, decimate, data, valid).0;
      && s1.rows == Mingle(s.rows, data) && s1.bounds == Opened(s.rows, s.bounds, data[0].ts, gap)
      && s1.lastTs == Some(data[|data| - 1].ts) && !s1.firstInsert
  {
  }

  lemma FirstStored(s: State, s1: State, cuts: seq<int>, data: seq<Row>)
    requires Stored(s) && data != [] && Increasing(data) && After(s.rows, data[0].ts)
    requires Aligned(s.rows, cuts) && NonDecreasing(cuts)
    requires forall c :: c in cuts ==> s.rows != [] && c <= s.rows[|s.rows| - 1].ts + 1
    requires s1.rows == s.rows + data && s1.bounds == cuts
    requires s1.lastTs == Some(data[|data| - 1].ts) && !s1.firstInsert
    ensures var (done, now) := Carried(s.rows, cuts, data[0].ts); Tracks(s1, done, now + data)
  {
    var (done, now) := Carried(s.rows, cuts, data[0].ts);
    var more := now + data;
    AlignedGrows(s.rows, s1.rows, cuts);
    assert Stored(s1);
    CarriedGrows(s.rows, cuts, data);
    assert more != [] && s1.rows[|s1.rows| - 1] == data[|data| - 1];
  }

  /** The first read with rows, and all that follow. */
  lemma FirstRead(s: State, gap: int, decimate: bool, input: seq<Read>)
    requires Stored(s) && s.firstInsert && s.lastTs.None? && input != [] && input[0].data != []
    requires After(s.rows, input[0].data[0].ts)
    requires Life(s, gap, decimate, input).1 && Spaced(Life(s, gap, decimate, input).0.rows)
    ensures var end, t0 := Life(s, gap, decimate, input).0, input[0].data[0].ts;
      var (done, now) := Carried(s.rows, Opened(s.rows, s.bounds, t0, gap), t0);
      Stored(end) && Split(end.rows, end.bounds) == Filled(IntervalsOf(done, now, InputsOf(input, false)))
  {
    var r, t0 := input[0], input[0].data[0].ts;
    var (done, now) := Carried(s.rows, Opened(s.rows, s.bounds, t0, gap), t0);
    var written, s1 := Write(s, gap, decimate, r.data, r.valid).0, Step(s, gap, decimate, r).0;
    FirstTracks(s, gap, decimate, r.data, r.valid);
    LifeGrows(s1, gap, decimate, input[1..]);
    SpacedSubset(s1.rows, Life(s1, gap, decimate, input[1..]).0.rows);
    if r.endOfInterval {
      TracksEnd(written, done, now + r.data);
    }
    InputsOfRead(done, now, input, false);
    var (done1, now1) := PartsOf(done, now, r, false);
    LifeTracks(s1, done1, now1, gap, decimate, input[1..]);
  }

  /** One life: its intervals continue what was carried over. */
  lemma {:induction false} LaterLife(s: State, gap: int, decimate: bool, input: seq<Read>)
    requires Stored(s) && s.firstInsert && s.lastTs.None? && LaterInput(s.rows, input)
    requires Life(s, gap, decimate, input).1 && Spaced(Life(s, gap, decimate, input).0.rows)
    ensures var end := Life(s, gap, decimate, input).0;
      && Stored(end)
      && match FirstTs(input)
         case None => end == s && InputsOf(input, false) == []
         case Some(t0) =>
           var (done, now) := Carried(s.rows, Opened(s.rows, s.bounds, t0, gap), t0);
           Split(end.rows, end.bounds) == Filled(IntervalsOf(done, now, InputsOf(input, false)))
    decreases |input|
  {
    if input != [] {
      var r := input[0];
      if r.data == [] {
        LaterLife(s, gap, decimate, input[1..]);
        assert InputsOf(input, false) == InputsOf(input[1..], false);
      } else {
        FirstRead(s, gap, decimate, input);
      }
    }
  }

  // ---- what a life adds --------------------------------------------------

  /** The first row is not within the merge gap of the last row stored. */
  predicate Apart(rows: seq<Row>, input: seq<Read>, gap: int) {
    FirstTs(input).Some? && rows != [] && gap > 0 ==> FirstTs(input).value - rows[|rows| - 1].ts > gap + 1
  }

  lemma {:induction false} SplitFewer(rows: seq<Row>, a: seq<int>, b: seq<int>)
    requires forall k :: 0 <= k < |rows| - 1 ==>
      (Separated(a, rows[k].ts, rows[k + 1].ts) ==> Separated(b, rows[k].ts, rows[k + 1].ts))
    ensures |Split(rows, a)| <= |Split(rows, b)|
  {
    if |rows| >= 2 {
      var tail := rows[1..];
      forall k | 0 <= k < |tail| - 1
        ensures Separated(a, tail[k].ts, tail[k + 1].ts) ==> Separated(b, tail[k].ts, tail[k + 1].ts)
      {
        assert Separated(a, rows[k + 1].ts, rows[k + 1 + 1].ts) ==> Separated(b, rows[k + 1].ts, rows[k + 1 + 1].ts);
      }
      SplitFewer(tail, a, b);
      assert Separated(a, rows[0].ts, rows[0 + 1].ts) ==> Separated(b, rows[0].ts, rows[0 + 1].ts);
    }
  }

  lemma LastBefore(rows: seq<Row>, t0: int)
    requires Increasing(rows) && rows != [] && After(rows, t0)
    ensures LastBelow(rows, t0) == Some(rows[|rows| - 1])
  {
    BelowIs(rows, t0, |rows|);
  }

  /** The opening close leaves a boundary just after the last row. */
  lemma OpeningRecorded(s: State, t0: int)
    requires Stored(s) && Spaced(s.rows) && s.rows != [] && After(s.rows, t0)
    ensures var last := s.rows[|s.rows| - 1].ts;
      forall c :: c in CloseAt(s.rows, s.bounds, t0 - 1) <==> c in s.bounds || c == last + 1
  {
    var last := s.rows[|s.rows| - 1];
    LastBefore(s.rows, t0);
    NoBoundOnRow(s.rows, s.bounds, last);
    forall c | c in s.bounds ensures c <= last.ts + 1 {
      BoundsBeforeEnd(s.rows, s.bounds, c);
    }
    OnlyMark(s.rows, s.bounds, last, t0);
  }

  lemma OnlyMark(rows: seq<Row>, bounds: seq<int>, last: Row, t0: int)
    requires LastBelow(rows, t0) == Some(last) && last.ts !in bounds && forall c :: c in bounds ==> c <= last.ts + 1
    ensures forall c :: c in CloseAt(rows, bounds, t0 - 1) <==> c in bounds || c == last.ts + 1
  {
  }

  /** A life that does not merge finds the segments as they are. */
  lemma CarriedApart(s: State, t0: int, gap: int)
    requires Stored(s) && Spaced(s.rows) && After(s.rows, t0)
    requires s.rows != [] && gap > 0 ==> t0 - s.rows[|s.rows| - 1].ts > gap + 1
    ensures Carried(s.rows, Opened(s.rows, s.bounds, t0, gap), t0) == (Split(s.rows, s.bounds), [])
  {
    if s.rows != [] {
      var last, cuts := s.rows[|s.rows| - 1].ts, Opened(s.rows, s.bounds, t0, gap);
      OpeningRecorded(s, t0);
      forall c | c in s.bounds ensures c <= last + 1 {
        BoundsBeforeEnd(s.rows, s.bounds, c);
      }
      SplitBeyond(s.rows, s.bounds, cuts);
      assert last + 1 in cuts;
    }
  }

  /** A life that merges continues the last segment, and finds no more of them
      than there were. */
  lemma CarriedMerges(s: State, t0: int, gap: int)
    requires Stored(s) && Spaced(s.rows) && After(s.rows, t0)
    requires s.rows != [] && gap > 0 && t0 - s.rows[|s.rows| - 1].ts <= gap + 1
    ensures var (done, now) := Carried(s.rows, Opened(s.rows, s.bounds, t0, gap), t0);
      && now != [] && |done| + 1 <= |Split(s.rows, s.bounds)|
      && forall i :: 0 <= i < |done| ==> done[i] != []
  {
    var last, cuts := s.rows[|s.rows| - 1].ts, Opened(s.rows, s.bounds, t0, gap);
    LastBefore(s.rows, t0);
    MergeThreshold(s.rows, s.bounds, t0, gap);
    OpeningRecorded(s, t0);
    forall k | 0 <= k < |s.rows| - 1 && Separated(cuts, s.rows[k].ts, s.rows[k + 1].ts)
      ensures Separated(s.bounds, s.rows[k].ts, s.rows[k + 1].ts)
    {
      var c :| c in cuts && s.rows[k].ts < c <= s.rows[k + 1].ts;
      assert c in s.bounds;
    }
    SplitFewer(s.rows, cuts, s.bounds);
    SplitIsSplit(s.rows, cuts);
  }

  lemma {:induction false} IntervalsPrefix(done: seq<seq<Row>>, now: seq<Row>, inputs: seq<Input>)
    ensures IntervalsOf(done, now, inputs) == done + IntervalsOf([], now, inputs)
    decreases |inputs|
  {
    var none: seq<seq<Row>>, noRows: seq<Row> := [], [];
    if inputs == [] {
      assert none + [now] == [now];
    } else {
      match inputs[0]
      case Block(rows) => IntervalsPrefix(done, now + rows, inputs[1..]);
      case Break =>
        IntervalsPrefix(done + [now], noRows, inputs[1..]);
        IntervalsPrefix(none + [now], noRows, inputs[1..]);
        Assoc(done, [now], IntervalsOf(none, noRows, inputs[1..]));
        assert none + [now] == [now];
    }
  }

  /** Rows held from before come in front of the first interval. */
  lemma {:induction false} IntervalsHead(now: seq<Row>, more: seq<Row>, inputs: seq<Input>)
    ensures var parts := IntervalsOf([], more, inputs);
      parts != [] && IntervalsOf([], now + more, inputs) == [now + parts[0]] + parts[1..]
    decreases |inputs|
  {
    var none: seq<seq<Row>>, noRows: seq<Row> := [], [];
    if inputs == [] {
      assert none + [now + more] == [now + more] && none + [more] == [more];
    } else {
      match inputs[0]
      case Block(rows) =>
        IntervalsHead(now, more + rows, inputs[1..]);
        Assoc(now, more, rows);
      case Break =>
        IntervalsPrefix(none + [now + more], noRows, inputs[1..]);
        IntervalsPrefix(none + [more], noRows, inputs[1..]);
        assert none + [now + more] == [now + more] && none + [more] == [more];
    }
  }

  /** The first interval has the first rows read. */
  lemma {:induction false} FirstNotEmpty(input: seq<Read>)
    requires FirstTs(input).Some?
    ensures var parts := IntervalsOf([], [], InputsOf(input, false)); parts != [] && parts[0] != []
  {
    var none: seq<Row> := [];
    if input[0].data == [] {
      FirstNotEmpty(input[1..]);
      assert InputsOf(input, false) == InputsOf(input[1..], false);
    } else {
      var inputs := InputsOf(input, false);
      assert inputs[0] == Block(input[0].data);
      assert none + input[0].data == input[0].data + none;
      IntervalsHead(input[0].data, none, inputs[1..]);
    }
  }

  function Intervals(input: seq<Read>): seq<seq<Row>> {
    Filled(IntervalsOf([], [], InputsOf(input, false)))
  }

  lemma NoIntervals(input: seq<Read>)
    requires InputsOf(input, false) == []
    ensures Intervals(input) == []
  {
    var none: seq<seq<Row>>, noRows: seq<Row> := [], [];
    assert none + [noRows] == [noRows];
    FilledOne(noRows);
  }

  /** A life adds the intervals of its pipe to the segments if it does not
      merge; otherwise there are fewer. */
  lemma LifeAdds(s: State, gap: int, decimate: bool, input: seq<Read>)
    requires Stored(s) && s.firstInsert && s.lastTs.None? && LaterInput(s.rows, input)
    requires Life(s, gap, decimate, input).1 && Spaced(Life(s, gap, decimate, input).0.rows)
    ensures var end := Life(s, gap, decimate, input).0;
      if Apart(s.rows, input, gap) then Split(end.rows, end.bounds) == Split(s.rows, s.bounds) + Intervals(input)
      else |Split(end.rows, end.bounds)| < |Split(s.rows, s.bounds)| + |Intervals(input)|
  {
    LaterLife(s, gap, decimate, input);
    LifeGrows(s, gap, decimate, input);
    SpacedSubset(s.rows, Life(s, gap, decimate, input).0.rows);
    match FirstTs(input)
    case None =>
      NoIntervals(input);
      assert Split(s.rows, s.bounds) + [] == Split(s.rows, s.bounds);
    case Some(t0) =>
      var (done, now) := Carried(s.rows, Opened(s.rows, s.bounds, t0, gap), t0);
      IntervalsPrefix(done, now, InputsOf(input, false));
      FilledAppend(done, IntervalsOf([], now, InputsOf(input, false)));
      if Apart(s.rows, input, gap) {
        CarriedApart(s, t0, gap);
        SplitIsSplit(s.rows, s.bounds);
        FilledFull(done);
      } else {
        CarriedMerges(s, t0, gap);
        MergedFewer(done, now, input);
      }
  }

  lemma MergedFewer(done: seq<seq<Row>>, now: seq<Row>, input: seq<Read>)
    requires FirstTs(input).Some? && now != [] && forall i :: 0 <= i < |done| ==> done[i] != []
    ensures |Filled(done)| + |Filled(IntervalsOf([], now, InputsOf(input, false)))| == |done| + |Intervals(input)|
  {
    var inputs, none: seq<Row> := InputsOf(input, false), [];
    var parts := IntervalsOf([], none, inputs);
    FilledFull(done);
    FirstNotEmpty(input);
    IntervalsHead(now, none, inputs);
    assert now + none == now;
    FilledAppend([now + parts[0]], parts[1..]);
    FilledAppend([parts[0]], parts[1..]);
    assert [parts[0]] + parts[1..] == parts;
    FilledOne(now + parts[0]);
    FilledOne(parts[0]);
  }

  // ---- any number of lives -----------------------------------------------

  /** An inserter: its merge gap, whether the stream is decimated, and what it
      reads. */
  datatype Task = Task(gap: int, decimate: bool, input: seq<Read>)

  function Lifetimes(s: State, tasks: seq<Task>): (State, bool)
    decreases |tasks|
  {
    if tasks == [] then (s, true)
    else
      var (s1, ok) := Life(Renewed(s), tasks[0].gap, tasks[0].decimate, tasks[0].input);
      if ok then Lifetimes(s1, tasks[1..]) else (s1, false)
  }

  function Outlived(s: State, task: Task): State {
    Life(Renewed(s), task.gap, task.decimate, task.input).0
  }

  /** Each inserter brings rows later than those stored. */
  predicate InTurn(s: State, tasks: seq<Task>)
    decreases |tasks|
  {
    tasks == [] || (LaterInput(s.rows, tasks[0].input) && InTurn(Outlived(s, tasks[0]), tasks[1..]))
  }

  /** None begins within its merge gap of the last row stored. */
  predicate NoneMerges(s: State, tasks: seq<Task>)
    decreases |tasks|
  {
    tasks == []
    || (Apart(s.rows, tasks[0].input, tasks[0].gap) && NoneMerges(Outlived(s, tasks[0]), tasks[1..]))
  }

  /** The intervals of all pipes, one after the other. */
  function AllIntervals(tasks: seq<Task>): seq<seq<Row>> {
    if tasks == [] then [] else Intervals(tasks[0].input) + AllIntervals(tasks[1..])
  }

  lemma {:induction false} LifetimesGrow(s: State, tasks: seq<Task>)
    ensures forall r :: r in s.rows ==> r in Lifetimes(s, tasks).0.rows
    decreases |tasks|
  {
    if tasks != [] {
      LifeGrows(Renewed(s), tasks[0].gap, tasks[0].decimate, tasks[0].input);
      LifetimesGrow(Outlived(s, tasks[0]), tasks[1..]);
    }
  }

  lemma {:induction false} LifetimesAdd(s: State, tasks: seq<Task>)
    requires Stored(s) && InTurn(s, tasks) && Lifetimes(s, tasks).1 && Spaced(Lifetimes(s, tasks).0.rows)
    ensures var end := Lifetimes(s, tasks).0;
      if NoneMerges(s, tasks) then Split(end.rows, end.bounds) == Split(s.rows, s.bounds) + AllIntervals(tasks)
      else |Split(end.rows, end.bounds)| < |Split(s.rows, s.bounds)| + |AllIntervals(tasks)|
    decreases |tasks|
  {
    if tasks == [] {
      assert Split(s.rows, s.bounds) + AllIntervals(tasks) == Split(s.rows, s.bounds);
    } else {
      var task, s1 := tasks[0], Outlived(s, tasks[0]);
      LifetimesGrow(s1, tasks[1..]);
      SpacedSubset(s1.rows, Lifetimes(s1, tasks[1..]).0.rows);
      LaterLife(Renewed(s), task.gap, task.decimate, task.input);
      LifeAdds(Renewed(s), task.gap, task.decimate, task.input);
      LifetimesAdd(s1, tasks[1..]);
      Assoc(Split(s.rows, s.bounds), Intervals(task.input), AllIntervals(tasks[1..]));
    }
  }

  /** From an empty stream, and rows 2us apart: after any number of inserters,
      each with later rows than the one before, the segments of the store are
      the non-empty intervals of their pipes, one after the other, if and only
      if none began within its merge gap of the last row stored. */
  lemma {:induction false} StoreKeepsLivesIff(s: State, tasks: seq<Task>)
    requires s.rows == [] && s.bounds == []
    requires InTurn(s, tasks) && Lifetimes(s, tasks).1 && Spaced(Lifetimes(s, tasks).0.rows)
    ensures var end := Lifetimes(s, tasks).0;
      Split(end.rows, end.bounds) == AllIntervals(tasks) <==> NoneMerges(s, tasks)
  {
    LifetimesAdd(s, tasks);
    var all := AllIntervals(tasks);
    assert Split(s.rows, s.bounds) == [] && [] + all == all;
  }
}
