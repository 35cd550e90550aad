/** Decimated tables beside the raw one: they hold the decimation of each
    interval the store reports, and are cut by the same boundaries. */
module DecimatedSegments {
  import opened Rows
  import opened Segments
  import opened Bounds
  import opened Store
  import opened StoreProperties
  import opened Decimation
  import opened DecimatedKeys
  import opened Decimators
  import opened Inserters
  import opened InserterRuns
  import opened Lives

  lemma {:induction false} LevelOfNothing(k: nat, rows: seq<Row>)
    requires rows == []
    ensures Level(k, rows) == []
  {
    if k > 0 {
      LevelOfNothing(k - 1, rows);
    }
  }

  /** Empty intervals leave nothing at any level. */
  lemma {:induction false} FilledLevels(k: nat, parts: seq<seq<Row>>)
    ensures Concat(LevelEach(k, Filled(parts))) == Concat(LevelEach(k, parts))
  {
    if parts != [] {
      FilledLevels(k, parts[1..]);
      LevelEachCons(k, parts);
      if parts[0] == [] {
        LevelOfNothing(k, parts[0]);
        assert Filled(parts) == Filled(parts[1..]);
      } else {
        assert Filled(parts)[1..] == Filled(parts[1..]);
        LevelEachCons(k, Filled(parts));
      }
    }
  }

  lemma LevelEachCons(k: nat, parts: seq<seq<Row>>)
    requires parts != []
    ensures LevelEach(k, parts) == [Level(k, parts[0])] + LevelEach(k, parts[1..])
    ensures Concat(LevelEach(k, parts)) == Level(k, parts[0]) + Concat(LevelEach(k, parts[1..]))
  {
    assert LevelEach(k, parts)[1..] == LevelEach(k, parts[1..]);
  }

  /** After an inserter's life on an empty stream, the table at level
      4^(k + 1) is the decimation of each interval the store reports. */
  lemma TablesFollowStore(s: State, gap: int, input: seq<Read>, k: nat)
    requires s == State([], [], true, None, None)
    requires Life(s, gap, true, input).1 && Spaced(Life(s, gap, true, input).0.rows)
    ensures var end := Life(s, gap, true, input).0;
      TableAt(StageOf(end), k) == Concat(LevelEach(k + 1, Split(end.rows, end.bounds)))
  {
    LifeFeeds(s, gap, input);
    StoreKeepsIntervals(s, gap, true, input);
    DecimationIsBatch(InputsOf(input, false), k);
    FilledLevels(k + 1, IntervalsOf([], [], InputsOf(input, false)));
  }

  // ---- the same boundaries cut decimated tables --------------------------

  lemma {:induction false} WholeSpan(seg: seq<Row>, bounds: seq<int>, i: nat, j: nat)
    requires Increasing(seg) && Whole(seg, bounds) && i <= j < |seg|
    ensures !Separated(bounds, seg[i].ts, seg[j].ts)
    decreases j - i
  {
    if i < j {
      WholeSpan(seg, bounds, i + 1, j);
      assert !Separated(bounds, seg[i].ts, seg[i + 1].ts);
      SeparatedChains(bounds, seg[i].ts, seg[i + 1].ts, seg[j].ts);
    }
  }

  lemma LevelRowInSpan(k: nat, seg: seq<Row>, j: nat)
    requires Increasing(seg) && j < |Level(k, seg)|
    ensures seg != [] && seg[0].ts <= Level(k, seg)[j].ts <= seg[|seg| - 1].ts
  {
    LevelSize(k, seg);
    LevelInSpan(k, seg, j);
    SourceBounds(k, |seg|, j);
  }

  /** A group never mixes intervals, so its row stays in its interval. */
  lemma LevelWhole(k: nat, seg: seq<Row>, bounds: seq<int>)
    requires Increasing(seg) && Whole(seg, bounds)
    ensures Whole(Level(k, seg), bounds)
  {
    var l := Level(k, seg);
    forall i | 0 <= i < |l| - 1 ensures !Separated(bounds, l[i].ts, l[i + 1].ts) {
      LevelRowInSpan(k, seg, i);
      LevelRowInSpan(k, seg, i + 1);
      WholeSpan(seg, bounds, 0, |seg| - 1);
      NarrowerSpan(bounds, seg[0].ts, seg[|seg| - 1].ts, l[i].ts, l[i + 1].ts);
    }
  }

  lemma NarrowerSpan(bounds: seq<int>, a: int, b: int, x: int, y: int)
    requires !Separated(bounds, a, b) && a <= x && y <= b
    ensures !Separated(bounds, x, y)
  {
    forall c | c in bounds ensures !(x < c <= y) {
      assert !(a < c <= b);
    }
  }

  /** The decimated rows of later segments come after the first of them. */
  lemma {:induction false} LaterLevels(k: nat, segs: seq<seq<Row>>, t: int)
    requires forall i :: 0 <= i < |segs| ==> Increasing(segs[i])
    requires forall i, j :: 0 <= i < |segs| && 0 <= j < |segs[i]| ==> t <= segs[i][j].ts
    ensures forall n :: 0 <= n < |Concat(LevelEach(k, segs))| ==> t <= Concat(LevelEach(k, segs))[n].ts
  {
    if segs != [] {
      LevelEachCons(k, segs);
      LaterLevels(k, segs[1..], t);
      var first := Level(k, segs[0]);
      forall n | 0 <= n < |first| ensures t <= first[n].ts {
        LevelRowInSpan(k, segs[0], n);
      }
    }
  }

  /** Cutting the decimated table at the boundaries of the raw one gives the
      decimation of each segment, without the empty ones. */
  lemma {:induction false} DecimatedSplit(k: nat, segs: seq<seq<Row>>, bounds: seq<int>)
    requires Increasing(Concat(segs)) && IsSplit(Concat(segs), bounds, segs)
    ensures Split(Concat(LevelEach(k, segs)), bounds) == Filled(LevelEach(k, segs))
    decreases |segs|
  {
    if segs != [] {
      var rest := segs[1..];
      var x, later := Level(k, segs[0]), Concat(LevelEach(k, rest));
      TailIsSplit(segs, bounds);
      DecimatedSplit(k, rest, bounds);
      LevelEachCons(k, segs);
      LevelWhole(k, segs[0], bounds);
      if x == [] {
        assert x + later == later;
      } else if later == [] {
        assert x + later == x;
        WholeSplit(x, bounds);
      } else {
        LevelsCut(k, segs, bounds);
        SplitAppend(x, later, bounds);
        WholeSplit(x, bounds);
      }
      FilledCons(x, LevelEach(k, rest));
    }
  }

  lemma FilledCons(x: seq<Row>, rest: seq<seq<Row>>)
    ensures Filled([x] + rest) == (if x == [] then [] else [x]) + Filled(rest)
  {
    assert ([x] + rest)[1..] == rest;
  }

  lemma TailIsSplit(segs: seq<seq<Row>>, bounds: seq<int>)
    requires segs != [] && Increasing(Concat(segs)) && IsSplit(Concat(segs), bounds, segs)
    ensures Increasing(segs[0]) && Whole(segs[0], bounds)
    ensures Increasing(Concat(segs[1..])) && IsSplit(Concat(segs[1..]), bounds, segs[1..])
  {
    var rest := segs[1..];
    IncreasingTail(segs[0], Concat(rest));
    forall i | 0 <= i < |rest| - 1 ensures CutBetween(rest[i], rest[i + 1], bounds) {
      assert CutBetween(segs[i + 1], segs[i + 1 + 1], bounds);
    }
  }

  lemma LevelsCut(k: nat, segs: seq<seq<Row>>, bounds: seq<int>)
    requires segs != [] && Increasing(Concat(segs)) && IsSplit(Concat(segs), bounds, segs)
    requires Level(k, segs[0]) != [] && Concat(LevelEach(k, segs[1..])) != []
    ensures CutBetween(Level(k, segs[0]), Concat(LevelEach(k, segs[1..])), bounds)
  {
    var rest := segs[1..];
    var x, later := Level(k, segs[0]), Concat(LevelEach(k, rest));
    TailIsSplit(segs, bounds);
    assert rest != [];
    assert CutBetween(segs[0], segs[0 + 1], bounds);
    LevelRowInSpan(k, segs[0], |x| - 1);
    PartsFrom(rest);
    LaterLevels(k, rest, rest[0][0].ts);
    SeparatedWidens(bounds, bounds, segs[0][|segs[0]| - 1].ts, rest[0][0].ts, x[|x| - 1].ts, later[0].ts);
  }

  lemma PartsFrom(segs: seq<seq<Row>>)
    requires segs != [] && Increasing(Concat(segs)) && forall i :: 0 <= i < |segs| ==> segs[i] != []
    ensures forall i :: 0 <= i < |segs| ==> Increasing(segs[i])
    ensures forall i, j :: 0 <= i < |segs| && 0 <= j < |segs[i]| ==> segs[0][0].ts <= segs[i][j].ts
  {
    var all := Concat(segs);
    assert all[0] == segs[0][0];
    forall i | 0 <= i < |segs| ensures Increasing(segs[i]) {
      PartIncreasing(segs, i);
    }
    forall i, j | 0 <= i < |segs| && 0 <= j < |segs[i]| ensures segs[0][0].ts <= segs[i][j].ts {
      ConcatIn(segs, i, segs[i][j]);
      var n :| 0 <= n < |all| && all[n] == segs[i][j];
    }
  }

  /** A query of the decimated table reports the decimation of each interval
      of the raw one. */
  lemma DecimatedIntervals(rows: seq<Row>, bounds: seq<int>, k: nat)
    requires Increasing(rows)
    ensures Split(Concat(LevelEach(k, Split(rows, bounds))), bounds) == Filled(LevelEach(k, Split(rows, bounds)))
  {
    SplitIsSplit(rows, bounds);
    DecimatedSplit(k, Split(rows, bounds), bounds);
  }
}
