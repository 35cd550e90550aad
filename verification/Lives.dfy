/** One inserter on an empty stream: what it stores are exactly the intervals
    of the pipe it read. */
module Lives {
  import opened Rows
  import opened Segments
  import opened Bounds
  import opened StoreProperties
  import opened Decimators
  import opened Inserters
  import opened InserterRuns

  /** The blocks and breaks an inserter takes from its reads; an interval that
      ends before any row is ignored. */
  function InputsOf(input: seq<Read>, started: bool): seq<Input>
    decreases |input|
  {
    if input == [] then []
    else
      var now := started || input[0].data != [];
      (if input[0].data != [] then [Block(input[0].data)] else [])
      + (if input[0].endOfInterval && now then [Break] else [])
      + InputsOf(input[1..], now)
  }

  function Filled(parts: seq<seq<Row>>): seq<seq<Row>> {
    if parts == [] then []
    else (if parts[0] == [] then [] else [parts[0]]) + Filled(parts[1..])
  }

  lemma {:induction false} FilledAppend(a: seq<seq<Row>>, b: seq<seq<Row>>)
    ensures Filled(a + b) == Filled(a) + Filled(b)
  {
    if a == [] {
      assert a + b == b;
    } else {
      assert (a + b)[1..] == a[1..] + b;
      FilledAppend(a[1..], b);
    }
  }

  lemma FilledOne(part: seq<Row>)
    ensures Filled([part]) == if part == [] then [] else [part]
  {
    assert [part][1..] == [];
  }

  /** The store has taken the complete intervals `done` and the rows `now` of
      the current one: its segments are exactly these, and the last boundary
      follows the last row exactly when nothing came after the last break. */
  ghost predicate Tracks(s: State, done: seq<seq<Row>>, now: seq<Row>) {
    && Stored(s)
    && Split(s.rows, s.bounds) == Filled(done + [now])
    && AtEnd(s, now)
  }

  ghost predicate Stored(s: State) {
    Increasing(s.rows) && NonDecreasing(s.bounds) && Aligned(s.rows, s.bounds)
  }

  ghost predicate AtEnd(s: State, now: seq<Row>) {
    && s.firstInsert == s.lastTs.None? == (s.rows == [])
    && (s.rows == [] ==> s.bounds == [] && now == [])
    && (s.rows != [] ==>
          && s.lastTs == Some(s.rows[|s.rows| - 1].ts)
          && (s.lastTs.value + 1 in s.bounds <==> now == []))
  }

  lemma {:induction false} SplitSame(rows: seq<Row>, a: seq<int>, b: seq<int>)
    requires forall k :: 0 <= k < |rows| - 1 ==>
      (Separated(a, rows[k].ts, rows[k + 1].ts) <==> Separated(b, rows[k].ts, rows[k + 1].ts))
    ensures Split(rows, a) == Split(rows, b)
  {
    if |rows| >= 2 {
      var tail := rows[1..];
      forall k | 0 <= k < |tail| - 1
        ensures Separated(a, tail[k].ts, tail[k + 1].ts) <==> Separated(b, tail[k].ts, tail[k + 1].ts)
      {
        assert Separated(a, rows[k + 1].ts, rows[k + 1 + 1].ts) <==> Separated(b, rows[k + 1].ts, rows[k + 1 + 1].ts);
      }
      SplitSame(tail, a, b);
      assert Separated(a, rows[0].ts, rows[0 + 1].ts) <==> Separated(b, rows[0].ts, rows[0 + 1].ts);
    }
  }

  /** A boundary beyond the last row cuts nothing yet. */
  lemma SplitBeyond(rows: seq<Row>, bounds: seq<int>, more: seq<int>)
    requires Increasing(rows) && rows != []
    requires forall c :: c in more <==> c in bounds || c == rows[|rows| - 1].ts + 1
    ensures Split(rows, more) == Split(rows, bounds)
  {
    forall k | 0 <= k < |rows| - 1
      ensures Separated(more, rows[k].ts, rows[k + 1].ts) <==> Separated(bounds, rows[k].ts, rows[k + 1].ts)
    {
      if Separated(more, rows[k].ts, rows[k + 1].ts) {
        var c :| c in more && rows[k].ts < c <= rows[k + 1].ts;
        assert c in bounds;
      }
      if Separated(bounds, rows[k].ts, rows[k + 1].ts) {
        var c :| c in bounds && rows[k].ts < c <= rows[k + 1].ts;
        assert c in more;
      }
    }
    SplitSame(rows, more, bounds);
  }

  /** Rows added without a cut extend the last segment. */
  lemma {:induction false} SplitExtendLast(a: seq<Row>, b: seq<Row>, bounds: seq<int>)
    requires a != [] && b != [] && !Separated(bounds, a[|a| - 1].ts, b[0].ts) && Whole(b, bounds)
    ensures Split(a, bounds) != []
    ensures var segs := Split(a, bounds); var m := |segs| - 1;
      Split(a + b, bounds) == segs[..m] + [segs[m] + b]
  {
    WholeSplit(b, bounds);
    assert (a + b)[0] == a[0] && (a + b)[1..] == a[1..] + b;
    if |a| == 1 {
      assert a[1..] + b == b && [a[0]] == a;
      assert Split(a + b, bounds) == [[a[0]] + b] + [b][1..];
    } else {
      SplitExtendLast(a[1..], b, bounds);
      ExtendLastStep(a, b, bounds);
    }
  }

  lemma ExtendLastStep(a: seq<Row>, b: seq<Row>, bounds: seq<int>)
    requires |a| >= 2 && b != []
    requires var rest := Split(a[1..], bounds); var n := |rest| - 1;
      n >= 0 && Split(a[1..] + b, bounds) == rest[..n] + [rest[n] + b]
    ensures var segs := Split(a, bounds); var m := |segs| - 1;
      m >= 0 && Split(a + b, bounds) == segs[..m] + [segs[m] + b]
  {
    var rest: seq<seq<Row>> := Split(a[1..], bounds);
    var more: seq<seq<Row>> := Split(a[1..] + b, bounds);
    assert (a + b)[0] == a[0] && (a + b)[1] == a[1] && (a + b)[1..] == a[1..] + b;
    if Separated(bounds, a[0].ts, a[1].ts) {
      ConsLast([a[0]], rest, b);
    } else {
      JoinLast(a[0], rest, b);
    }
  }

  lemma ConsLast(x: seq<Row>, rest: seq<seq<Row>>, b: seq<Row>)
    requires rest != []
    ensures var n := |rest| - 1; var segs := [x] + rest;
      [x] + (rest[..n] + [rest[n] + b]) == segs[..n + 1] + [segs[n + 1] + b]
  {
  }

  lemma JoinLast(x: Row, rest: seq<seq<Row>>, b: seq<Row>)
    requires rest != []
    ensures var n := |rest| - 1; var more := rest[..n] + [rest[n] + b]; var segs := [[x] + rest[0]] + rest[1..];
      [[x] + more[0]] + more[1..] == segs[..n] + [segs[n] + b]
  {
    var n := |rest| - 1;
    var more := rest[..n] + [rest[n] + b];
    var segs := [[x] + rest[0]] + rest[1..];
    if n == 0 {
      assert [x] + (rest[0] + b) == ([x] + rest[0]) + b;
    } else {
      assert segs[n] == rest[n] && more[0] == rest[0];
    }
  }

  lemma {:induction false} MingleAfter(a: seq<Row>, b: seq<Row>)
    requires forall i, j :: 0 <= i < |a| && 0 <= j < |b| ==> a[i].ts < b[j].ts
    ensures Mingle(a, b) == a + b
    decreases |a|
  {
    if a != [] && b != [] {
      MingleAfter(a[1..], b);
    }
  }

  /** No boundary is later than just after the last row. */
  lemma BoundsBeforeEnd(rows: seq<Row>, bounds: seq<int>, c: int)
    requires Increasing(rows) && Aligned(rows, bounds) && c in bounds
    ensures rows != [] && c <= rows[|rows| - 1].ts + 1
  {
    var i :| 0 <= i < |rows| && c == rows[i].ts + 1;
  }

  lemma OnlyFilled(done: seq<seq<Row>>, now: seq<Row>, data: seq<Row>)
    requires Filled(done + [now]) == [] && data != []
    ensures Filled(done + [now + data]) == [data]
  {
    FilledAppend(done, [now]);
    FilledAppend(done, [now + data]);
    FilledOne(now);
    FilledOne(now + data);
    assert now + data == data;
  }

  lemma TracksFirst(s: State, done: seq<seq<Row>>, now: seq<Row>, gap: int, data: seq<Row>)
    requires Tracks(s, done, now) && s.rows == [] && data != [] && StrictlyIncreasing(data)
    ensures Opened(s.rows, s.bounds, data[0].ts, gap) == s.bounds && Mingle(s.rows, data) == data
    ensures Split(data, s.bounds) == Filled(done + [now + data])
  {
    WholeSplit(data, s.bounds);
    OnlyFilled(done, now, data);
  }

  lemma LastFilled(done: seq<seq<Row>>, now: seq<Row>, data: seq<Row>)
    requires now != []
    ensures var segs := Filled(done + [now]); var m := |segs| - 1;
      m >= 0 && segs[m] == now && Filled(done + [now + data]) == segs[..m] + [now + data]
  {
    FilledAppend(done, [now]);
    FilledAppend(done, [now + data]);
    FilledOne(now);
    FilledOne(now + data);
  }

  lemma NewFilled(done: seq<seq<Row>>, data: seq<Row>)
    requires data != []
    ensures Filled(done + [[] + data]) == Filled(done + [[]]) + [data]
  {
    var none: seq<Row> := [];
    FilledAppend(done, [none]);
    FilledAppend(done, [data]);
    FilledOne(none);
    FilledOne(data);
    assert [] + data == data;
  }

  lemma AfterEnd(s: State, data: seq<Row>)
    requires Stored(s) && s.rows != [] && s.lastTs == Some(s.rows[|s.rows| - 1].ts)
    requires data != [] && Monotonic(data, s.lastTs)
    ensures Increasing(data) && Mingle(s.rows, data) == s.rows + data && Increasing(s.rows + data)
    ensures forall c :: c in s.bounds ==> c <= s.lastTs.value + 1 <= data[0].ts
    ensures Whole(data, s.bounds)
  {
    StrictIsIncreasing(data);
    MingleAfter(s.rows, data);
    forall c | c in s.bounds ensures c <= s.lastTs.value + 1 {
      BoundsBeforeEnd(s.rows, s.bounds, c);
    }
  }

  lemma TracksMore(s: State, done: seq<seq<Row>>, now: seq<Row>, data: seq<Row>)
    requires Tracks(s, done, now) && s.rows != [] && data != [] && Monotonic(data, s.lastTs)
    ensures Split(s.rows + data, s.bounds) == Filled(done + [now + data])
  {
    AfterEnd(s, data);
    var last := s.lastTs.value;
    if now == [] {
      assert last < last + 1 <= data[0].ts;
      SplitAppend(s.rows, data, s.bounds);
      WholeSplit(data, s.bounds);
      NewFilled(done, data);
    } else {
      assert !Separated(s.bounds, last, data[0].ts);
      SplitExtendLast(s.rows, data, s.bounds);
      LastFilled(done, now, data);
    }
  }

  lemma FirstWritten(s: State, gap: int, decimate: bool, data: seq<Row>, valid: bool)
    requires s.rows == [] && s.firstInsert && data != [] && Write(s, gap, decimate, data, valid).1
    requires Opened(s.rows, s.bounds, data[0].ts, gap) == s.bounds && Mingle(s.rows, data) == data
    ensures var s1 := Write(s, gap, decimate, data, valid).0;
      && s1.rows == data && s1.bounds == s.bounds && s1.lastTs == Some(data[|data| - 1].ts) && !s1.firstInsert
  {
  }

  lemma FirstWrite(s: State, done: seq<seq<Row>>, now: seq<Row>, gap: int, decimate: bool, data: seq<Row>, valid: bool)
    requires Tracks(s, done, now) && Write(s, gap, decimate, data, valid).1 && data != [] && s.rows == []
    ensures Tracks(Write(s, gap, decimate, data, valid).0, done, now + data)
  {
    StrictIsIncreasing(data);
    TracksFirst(s, done, now, gap, data);
    FirstWritten(s, gap, decimate, data, valid);
    assert now + data == data;
  }

  lemma LaterWrite(s: State, done: seq<seq<Row>>, now: seq<Row>, gap: int, decimate: bool, data: seq<Row>, valid: bool)
    requires Tracks(s, done, now) && Write(s, gap, decimate, data, valid).1 && data != [] && s.rows != []
    ensures Tracks(Write(s, gap, decimate, data, valid).0, done, now + data)
  {
    var s1 := Write(s, gap, decimate, data, valid).0;
    AfterEnd(s, data);
    TracksMore(s, done, now, data);
    AlignedGrows(s.rows, s1.rows, s.bounds);
    assert s1.rows == s.rows + data && s1.bounds == s.bounds;
    assert s1.rows[|s1.rows| - 1] == data[|data| - 1];
    assert now + data != [];
  }

  lemma TracksWrite(s: State, done: seq<seq<Row>>, now: seq<Row>, gap: int, decimate: bool, data: seq<Row>, valid: bool)
    requires Tracks(s, done, now) && Write(s, gap, decimate, data, valid).1
    ensures Tracks(Write(s, gap, decimate, data, valid).0, done, now + data)
  {
    if data == [] {
      assert now + data == now;
    } else if s.rows == [] {
      FirstWrite(s, done, now, gap, decimate, data, valid);
    } else {
      LaterWrite(s, done, now, gap, decimate, data, valid);
    }
  }

  lemma EndRecorded(s: State)
    requires Stored(s) && Spaced(s.rows) && s.rows != []
    ensures var last := s.rows[|s.rows| - 1].ts; var after := CloseAt(s.rows, s.bounds, last);
      && (forall c :: c in after <==> c in s.bounds || c == last + 1)
      && NonDecreasing(after) && Aligned(s.rows, after)
  {
    var last := s.rows[|s.rows| - 1];
    LastBelowSpec(s.rows, last.ts + 1);
    NoBoundOnRow(s.rows, s.bounds, last);
    CloseAtOrdered(s.rows, s.bounds, last.ts);
    CloseAtAligned(s.rows, s.bounds, last.ts);
    forall c | c in s.bounds ensures c <= last.ts + 1 {
      BoundsBeforeEnd(s.rows, s.bounds, c);
    }
  }

  lemma TracksEnd(s: State, done: seq<seq<Row>>, now: seq<Row>)
    requires Tracks(s, done, now) && s.lastTs.Some? && Spaced(s.rows)
    ensures Tracks(EndInterval(s), done + [now], [])
  {
    var none: seq<Row> := [];
    EndRecorded(s);
    SplitBeyond(s.rows, s.bounds, EndInterval(s).bounds);
    FilledAppend(done + [now], [none]);
    FilledOne(none);
  }

  // ---- whole lives -------------------------------------------------------

  function PartsOf(done: seq<seq<Row>>, now: seq<Row>, read: Read, started: bool): (seq<seq<Row>>, seq<Row>) {
    if read.endOfInterval && (started || read.data != []) then (done + [now + read.data], [])
    else (done, now + read.data)
  }

  lemma InputsOfRead(done: seq<seq<Row>>, now: seq<Row>, input: seq<Read>, started: bool)
    requires input != []
    ensures var (done1, now1) := PartsOf(done, now, input[0], started);
      IntervalsOf(done, now, InputsOf(input, started))
      == IntervalsOf(done1, now1, InputsOf(input[1..], started || input[0].data != []))
  {
    var r := input[0];
    var rest := InputsOf(input[1..], started || r.data != []);
    var ends := r.endOfInterval && (started || r.data != []);
    var tail := (if ends then [Break] else []) + rest;
    if ends {
      assert tail[0] == Break && tail[1..] == rest;
    } else {
      assert tail == rest;
    }
    if r.data == [] {
      assert InputsOf(input, started) == tail;
      assert now + r.data == now;
    } else {
      assert InputsOf(input, started) == [Block(r.data)] + tail;
      assert ([Block(r.data)] + tail)[1..] == tail;
    }
  }

  lemma {:induction false} LifeGrows(s: State, gap: int, decimate: bool, input: seq<Read>)
    ensures forall r :: r in s.rows ==> r in Life(s, gap, decimate, input).0.rows
    decreases |input|
  {
    if input != [] {
      var (s1, ok) := Step(s, gap, decimate, input[0]);
      forall r | r in s.rows ensures r in s1.rows {
        MingleIn(s.rows, input[0].data, r);
      }
      LifeGrows(s1, gap, decimate, input[1..]);
    }
  }

  lemma TracksStep(s: State, done: seq<seq<Row>>, now: seq<Row>, gap: int, decimate: bool, r: Read)
    requires Tracks(s, done, now) && Step(s, gap, decimate, r).1
    requires Spaced(Step(s, gap, decimate, r).0.rows)
    ensures var (done1, now1) := PartsOf(done, now, r, s.lastTs.Some?);
      Tracks(Step(s, gap, decimate, r).0, done1, now1)
    ensures Step(s, gap, decimate, r).0.lastTs.Some? == (s.lastTs.Some? || r.data != [])
  {
    var s1 := Write(s, gap, decimate, r.data, r.valid).0;
    TracksWrite(s, done, now, gap, decimate, r.data, r.valid);
    WriteBegins(s, gap, decimate, r.data, r.valid);
    if r.endOfInterval && s1.lastTs.Some? {
      TracksEnd(s1, done, now + r.data);
    }
  }

  lemma WriteBegins(s: State, gap: int, decimate: bool, data: seq<Row>, valid: bool)
    requires Write(s, gap, decimate, data, valid).1
    ensures Write(s, gap, decimate, data, valid).0.lastTs.Some? == (s.lastTs.Some? || data != [])
  {
  }

  lemma {:induction false} LifeTracks(s: State, done: seq<seq<Row>>, now: seq<Row>, gap: int, decimate: bool,
                                      input: seq<Read>)
    requires Tracks(s, done, now) && Life(s, gap, decimate, input).1
    requires Spaced(Life(s, gap, decimate, input).0.rows)
    ensures var end := Life(s, gap, decimate, input).0;
      Stored(end) && Split(end.rows, end.bounds) == Filled(IntervalsOf(done, now, InputsOf(input, s.lastTs.Some?)))
    decreases |input|
  {
    if input != [] {
      var s1 := Step(s, gap, decimate, input[0]).0;
      LifeGrows(s1, gap, decimate, input[1..]);
      SpacedSubset(s1.rows, Life(s1, gap, decimate, input[1..]).0.rows);
      TracksStep(s, done, now, gap, decimate, input[0]);
      InputsOfRead(done, now, input, s.lastTs.Some?);
      var (done1, now1) := PartsOf(done, now, input[0], s.lastTs.Some?);
      LifeTracks(s1, done1, now1, gap, decimate, input[1..]);
    }
  }

  lemma Untouched(s: State) returns (done: seq<seq<Row>>, now: seq<Row>)
    requires s == State([], [], true, None, None)
    ensures done == [] && now == [] && Tracks(s, done, now)
  {
    done, now := [], [];
    var none: seq<Row> := [];
    FilledAppend(done, [none]);
    FilledOne(none);
  }

  /** On an empty stream, the intervals the store reports after an inserter's
      life are exactly the non-empty intervals of the pipe it read. */
  lemma StoreKeepsIntervals(s: State, gap: int, decimate: bool, input: seq<Read>)
    requires s == State([], [], true, None, None)
    requires Life(s, gap, decimate, input).1 && Spaced(Life(s, gap, decimate, input).0.rows)
    ensures var end := Life(s, gap, decimate, input).0;
      Split(end.rows, end.bounds) == Filled(IntervalsOf([], [], InputsOf(input, false)))
  {
    var done, now := Untouched(s);
    LifeTracks(s, done, now, gap, decimate, input);
  }

  // ---- the decimator beside the store ------------------------------------

  /** The decimator is created with the first rows. */
  function StageOf(s: State): Stage {
    if s.decimator.Some? then s.decimator.value else NewStage(1)
  }

  /** The decimator has been fed exactly the blocks and breaks of the pipe. */
  lemma {:induction false} LifeFeeds(s: State, gap: int, input: seq<Read>)
    requires Life(s, gap, true, input).1 && s.decimator.Some? == s.lastTs.Some?
    ensures StageOf(Life(s, gap, true, input).0) == Run(StageOf(s), InputsOf(input, s.lastTs.Some?))
    decreases |input|
  {
    if input != [] {
      var s1 := Step(s, gap, true, input[0]).0;
      FeedsRead(s, gap, input);
      LifeFeeds(s1, gap, input[1..]);
    }
  }

  /** The inputs of one read, before those of the rest. */
  lemma InputsUnfold(s: Stage, input: seq<Read>, started: bool)
    requires input != []
    ensures var r := input[0]; var now := started || r.data != [];
      var fed := if r.data == [] then s else Feed(s, r.data);
      Run(s, InputsOf(input, started))
          == Run(if r.endOfInterval && now then Close(fed) else fed, InputsOf(input[1..], now))
  {
    var r := input[0];
    var now := started || r.data != [];
    var rest := InputsOf(input[1..], now);
    var tail := (if r.endOfInterval && now then [Break] else []) + rest;
    if r.endOfInterval && now {
      assert tail[0] == Break && tail[1..] == rest;
    } else {
      assert tail == rest;
    }
    if r.data == [] {
      assert InputsOf(input, started) == tail;
    } else {
      assert InputsOf(input, started) == [Block(r.data)] + tail;
      assert ([Block(r.data)] + tail)[1..] == tail;
    }
  }

  lemma FeedsRead(s: State, gap: int, input: seq<Read>)
    requires input != [] && Step(s, gap, true, input[0]).1 && s.decimator.Some? == s.lastTs.Some?
    ensures var s1 := Step(s, gap, true, input[0]).0;
      && s1.decimator.Some? == s1.lastTs.Some? == (s.lastTs.Some? || input[0].data != [])
      && Run(StageOf(s), InputsOf(input, s.lastTs.Some?)) == Run(StageOf(s1), InputsOf(input[1..], s1.lastTs.Some?))
  {
    InputsUnfold(StageOf(s), input, s.lastTs.Some?);
  }
}
