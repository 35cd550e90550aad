/** Filters with a sliding window: a finite impulse response and a median. The
    rows of a read that cannot be used yet stay in the pipe, so windows overlap
    from one read to the next. */
module Filters {
  import Decimation
  import opened Rows

  datatype Filter = Fir(taps: seq<real>) | Median(window: nat)

  function Span(f: Filter): nat {
    match f case Fir(taps) => |taps| case Median(window) => window
  }

  /** The window has a middle row, and rows on either side of it. */
  predicate Usable(f: Filter) {
    Span(f) % 2 == 1 && Span(f) >= 3
  }

  // ---- one window --------------------------------------------------------

  /** The last n terms of a convolution. */
  function Dot(taps: seq<real>, xs: seq<real>, n: nat): real
    requires |taps| == |xs| && n <= |taps|
  {
    if n == 0 then 0.0 else Dot(taps, xs, n - 1) + taps[n - 1] * xs[|xs| - n]
  }

  function Inserted(x: real, sorted: seq<real>): (r: seq<real>)
    ensures |r| == |sorted| + 1
  {
    if sorted == [] || x <= sorted[0] then [x] + sorted else [sorted[0]] + Inserted(x, sorted[1..])
  }

  function Sorted(xs: seq<real>): (r: seq<real>)
    ensures |r| == |xs|
  {
    if xs == [] then [] else Inserted(xs[0], Sorted(xs[1..]))
  }

  function Apply(f: Filter, xs: seq<real>): real
    requires Usable(f) && |xs| == Span(f)
  {
    match f
    case Fir(taps) => Dot(taps, xs, |taps|)
    case Median(_) => Sorted(xs)[|xs| / 2]
  }

  function Column(rows: seq<Row>, c: nat): (xs: seq<real>)
    ensures |xs| == |rows|
  {
    seq(|rows|, i requires 0 <= i < |rows| => Decimation.Cell(rows[i], c))
  }

  /** The row a window gives: the time is that of its middle row. */
  function Smoothed(f: Filter, width: nat, rows: seq<Row>): Row
    requires Usable(f) && |rows| == Span(f)
  {
    Row(rows[|rows| / 2].ts, seq(width, c requires 0 <= c < width => Apply(f, Column(rows, c))))
  }

  /** A row for every whole window of the rows. */
  function Batch(f: Filter, width: nat, rows: seq<Row>): seq<Row>
    requires Usable(f)
  {
    if |rows| < Span(f) then []
    else seq(|rows| - Span(f) + 1, i requires 0 <= i <= |rows| - Span(f) => Smoothed(f, width, rows[i..i + Span(f)]))
  }

  lemma BatchPrefix(f: Filter, width: nat, rows: seq<Row>, more: seq<Row>)
    requires Usable(f)
    ensures Batch(f, width, rows) <= Batch(f, width, rows + more)
  {
    var a, b := Batch(f, width, rows), Batch(f, width, rows + more);
    forall i | 0 <= i < |a| ensures a[i] == b[i] {
      assert (rows + more)[i..i + Span(f)] == rows[i..i + Span(f)];
    }
  }

  /** Rows that were used may be forgotten. */
  lemma BatchFrom(f: Filter, width: nat, rows: seq<Row>, k: nat)
    requires Usable(f) && k <= |rows| && k <= |Batch(f, width, rows)|
    ensures Batch(f, width, rows) == Batch(f, width, rows)[..k] + Batch(f, width, rows[k..])
  {
    var a, b := Batch(f, width, rows), Batch(f, width, rows[k..]);
    assert |b| == |a| - k;
    forall i | k <= i < |a| ensures a[i] == b[i - k] {
      assert rows[k..][i - k..i - k + Span(f)] == rows[i..i + Span(f)];
    }
  }

  /** The output of an interval has the times of its rows, but for half a
      window at either end; so it is in order, without duplicates or holes. */
  lemma BatchCentres(f: Filter, width: nat, rows: seq<Row>)
    requires Usable(f) && Increasing(rows) && |rows| >= Span(f)
    ensures var out := Batch(f, width, rows);
      && |out| == |rows| - Span(f) + 1
      && (forall i :: 0 <= i < |out| ==> out[i].ts == rows[i + Span(f) / 2].ts)
      && Increasing(out)
  {
    var out := Batch(f, width, rows);
    forall i | 0 <= i < |out| ensures out[i].ts == rows[i + Span(f) / 2].ts {
      assert out[i] == Smoothed(f, width, rows[i..i + Span(f)]);
    }
  }

  // ---- the loop ----------------------------------------------------------

  /** What a read adds to the rows kept, whether an interval ended, and
      whether the pipe was closed. */
  datatype Reading = Reading(added: seq<Row>, brk: bool, closed: bool)

  /** The rows kept in the pipe, the output intervals, and the open one. */
  datatype State = State(kept: seq<Row>, done: seq<seq<Row>>, now: seq<Row>, stopped: bool)

  function Step(f: Filter, width: nat, s: State, r: Reading): State
    requires Usable(f)
  {
    var rows := s.kept + r.added;
    if s.stopped then s
    else if |rows| < 2 * Span(f) then
      if r.closed then s.(kept := rows, stopped := true)
      else if r.brk then State([], s.done + [s.now], [], false)
      else s.(kept := rows)
    else
      var out := Batch(f, width, rows);
      if r.brk then State([], s.done + [s.now + out], [], false)
      else State(rows[|out|..], s.done, s.now + out, false)
  }

  function Steps(f: Filter, width: nat, s: State, readings: seq<Reading>): State
    requires Usable(f)
    decreases |readings|
  {
    if readings == [] then s else Steps(f, width, Step(f, width, s, readings[0]), readings[1..])
  }

  /** The input intervals read, the open one apart. */
  datatype Heard = Heard(done: seq<seq<Row>>, now: seq<Row>)

  function Hear(f: Filter, s: State, h: Heard, r: Reading): Heard {
    if s.stopped then h
    else if r.brk && !(r.closed && |s.kept + r.added| < 2 * Span(f)) then Heard(h.done + [h.now + r.added], [])
    else Heard(h.done, h.now + r.added)
  }

  function Hears(f: Filter, width: nat, s: State, h: Heard, readings: seq<Reading>): Heard
    requires Usable(f)
    decreases |readings|
  {
    if readings == [] then h
    else Hears(f, width, Step(f, width, s, readings[0]), Hear(f, s, h, readings[0]), readings[1..])
  }

  /** Output of an interval: nothing wrong in it, and at most as many rows
      missing at its end as a window has. */
  ghost predicate Follows(f: Filter, width: nat, out: seq<Row>, rows: seq<Row>)
    requires Usable(f)
  {
    var batch := Batch(f, width, rows);
    out <= batch && |batch| - |out| <= Span(f)
  }

  ghost predicate AllFollow(f: Filter, width: nat, outs: seq<seq<Row>>, ins: seq<seq<Row>>)
    requires Usable(f)
  {
    |outs| == |ins| && forall i :: 0 <= i < |outs| ==> Follows(f, width, outs[i], ins[i])
  }

  ghost predicate Tracks(f: Filter, width: nat, s: State, h: Heard)
    requires Usable(f)
  {
    && AllFollow(f, width, s.done, h.done)
    && Follows(f, width, s.now, h.now)
    && |s.now| <= |h.now| && s.kept == h.now[|s.now|..]
    && (!s.stopped ==> |s.kept| < 2 * Span(f))
  }

  /** The output so far and the batch of the rows at hand make up the batch of
      the whole interval. */
  lemma Continues(f: Filter, width: nat, out: seq<Row>, now: seq<Row>, added: seq<Row>)
    requires Usable(f) && out <= Batch(f, width, now) && |out| <= |now|
    ensures Batch(f, width, now + added) == out + Batch(f, width, now[|out|..] + added)
  {
    BatchPrefix(f, width, now, added);
    BatchFrom(f, width, now + added, |out|);
    assert (now + added)[|out|..] == now[|out|..] + added;
  }

  lemma MoreFollow(f: Filter, width: nat, outs: seq<seq<Row>>, ins: seq<seq<Row>>, out: seq<Row>, rows: seq<Row>)
    requires Usable(f) && AllFollow(f, width, outs, ins) && Follows(f, width, out, rows)
    ensures AllFollow(f, width, outs + [out], ins + [rows])
  {
  }

  lemma NothingFollows(f: Filter, width: nat)
    requires Usable(f)
    ensures Follows(f, width, [], [])
  {
  }

  lemma StepTracks(f: Filter, width: nat, s: State, h: Heard, r: Reading)
    requires Usable(f) && Tracks(f, width, s, h)
    ensures Tracks(f, width, Step(f, width, s, r), Hear(f, s, h, r))
  {
    if !s.stopped {
      var all, rows := h.now + r.added, s.kept + r.added;
      Continues(f, width, s.now, h.now, r.added);
      NothingFollows(f, width);
      var rest := Batch(f, width, rows);
      assert all[|s.now|..] == rows;
      if |rows| < 2 * Span(f) {
        assert |rest| <= Span(f);
        assert Follows(f, width, s.now, all);
        MoreFollow(f, width, s.done, h.done, s.now, all);
      } else {
        assert s.now + rest == Batch(f, width, all);
        MoreFollow(f, width, s.done, h.done, s.now + rest, all);
        assert all[|s.now + rest|..] == rows[|rest|..];
      }
    }
  }

  /** However the input is cut into reads: each output interval is the start of
      the filter applied to the whole input interval at once, lacking at most
      the last rows, one window's worth. */
  lemma {:induction false} StreamingIsBatch(f: Filter, width: nat, s: State, h: Heard, readings: seq<Reading>)
    requires Usable(f) && Tracks(f, width, s, h)
    ensures Tracks(f, width, Steps(f, width, s, readings), Hears(f, width, s, h, readings))
    decreases |readings|
  {
    if readings != [] {
      StepTracks(f, width, s, h, readings[0]);
      StreamingIsBatch(f, width, Step(f, width, s, readings[0]), Hear(f, s, h, readings[0]), readings[1..]);
    }
  }

  /** An interval loses no output exactly when the last read of it leaves less
      than a window, or at least two, in front of the filter. */
  lemma IntervalComplete(f: Filter, width: nat, s: State, h: Heard, r: Reading)
    requires Usable(f) && Tracks(f, width, s, h) && !s.stopped && r.brk && !r.closed
    ensures var out, rows := Step(f, width, s, r).done, Hear(f, s, h, r).done;
      && |out| == |rows| > 0
      && (out[|out| - 1] == Batch(f, width, rows[|rows| - 1])
          <==> |s.kept + r.added| < Span(f) || |s.kept + r.added| >= 2 * Span(f))
  {
    Continues(f, width, s.now, h.now, r.added);
    var rest := Batch(f, width, s.kept + r.added);
    assert rest == [] ==> s.now + rest == s.now;
    assert rest != [] ==> |s.now + rest| > |s.now|;
  }

  /** Whether some read finds the pipe closed with less than two windows at
      hand. */
  predicate Starves(f: Filter, width: nat, s: State, readings: seq<Reading>)
    requires Usable(f)
    decreases |readings|
  {
    readings != []
    && ((readings[0].closed && |s.kept + readings[0].added| < 2 * Span(f))
        || Starves(f, width, Step(f, width, s, readings[0]), readings[1..]))
  }

  /** The module ends exactly at such a read. */
  lemma {:induction false} StopsIff(f: Filter, width: nat, s: State, readings: seq<Reading>)
    requires Usable(f) && !s.stopped
    ensures Steps(f, width, s, readings).stopped <==> Starves(f, width, s, readings)
    decreases |readings|
  {
    if readings != [] {
      var s1 := Step(f, width, s, readings[0]);
      if s1.stopped {
        StoppedStays(f, width, s1, readings[1..]);
      } else {
        StopsIff(f, width, s1, readings[1..]);
      }
    }
  }

  function Start(): State { State([], [], [], false) }

  function Silence(): Heard { Heard([], []) }

  lemma StartTracks(f: Filter, width: nat)
    requires Usable(f)
    ensures Tracks(f, width, Start(), Silence())
  {
    NothingFollows(f, width);
  }

  // ---- the median --------------------------------------------------------

  function CountBelow(xs: seq<real>, m: real): nat {
    if xs == [] then 0 else (if xs[0] < m then 1 else 0) + CountBelow(xs[1..], m)
  }

  function CountAbove(xs: seq<real>, m: real): nat {
    if xs == [] then 0 else (if xs[0] > m then 1 else 0) + CountAbove(xs[1..], m)
  }

  ghost predicate Ordered(xs: seq<real>) {
    forall i, j :: 0 <= i <= j < |xs| ==> xs[i] <= xs[j]
  }

  lemma {:induction false} InsertedCounts(x: real, sorted: seq<real>, m: real)
    requires Ordered(sorted)
    ensures var r := Inserted(x, sorted);
      && CountBelow(r, m) == CountBelow(sorted, m) + (if x < m then 1 else 0)
      && CountAbove(r, m) == CountAbove(sorted, m) + (if x > m then 1 else 0)
      && Ordered(r) && (forall i :: 0 <= i < |r| ==> r[i] == x || r[i] in sorted)
  {
    var r := Inserted(x, sorted);
    if sorted == [] || x <= sorted[0] {
      assert r[1..] == sorted;
    } else {
      InsertedCounts(x, sorted[1..], m);
      assert r[1..] == Inserted(x, sorted[1..]);
    }
  }

  lemma {:induction false} SortedCounts(xs: seq<real>, m: real)
    ensures CountBelow(Sorted(xs), m) == CountBelow(xs, m) && CountAbove(Sorted(xs), m) == CountAbove(xs, m)
        && Ordered(Sorted(xs))
  {
    if xs != [] {
      SortedCounts(xs[1..], m);
      InsertedCounts(xs[0], Sorted(xs[1..]), m);
    }
  }

  lemma {:induction false} BelowRank(s: seq<real>, k: nat, m: real)
    requires k <= |s| && forall i :: k <= i < |s| ==> m <= s[i]
    ensures CountBelow(s, m) <= k
  {
    if s != [] {
      BelowRank(s[1..], if k > 0 then k - 1 else 0, m);
    }
  }

  lemma {:induction false} AboveRank(s: seq<real>, k: nat, m: real)
    requires k <= |s| && forall i :: 0 <= i < k ==> s[i] <= m
    ensures CountAbove(s, m) <= |s| - k
  {
    if s != [] {
      AboveRank(s[1..], if k > 0 then k - 1 else 0, m);
    }
  }

  /** At most half of a window, its middle left out, is below the median, and
      at most half is above it. */
  lemma MedianIsMiddle(window: nat, xs: seq<real>)
    requires Usable(Median(window)) && |xs| == window
    ensures var m := Apply(Median(window), xs);
      CountBelow(xs, m) <= window / 2 && CountAbove(xs, m) <= window / 2
  {
    var m := Apply(Median(window), xs);
    SortedCounts(xs, m);
    BelowRank(Sorted(xs), window / 2, m);
    AboveRank(Sorted(xs), window / 2 + 1, m);
  }

  // ---- the modules -------------------------------------------------------

  /** A window around row i, with zeros beyond the ends. */
  function Padded(rows: seq<Row>, window: nat, i: nat, c: nat): (xs: seq<real>)
    ensures |xs| == window
  {
    seq(window, j requires 0 <= j < window =>
      var k := i - window / 2 + j; if 0 <= k < |rows| then Decimation.Cell(rows[k], c) else 0.0)
  }

  lemma PaddedInside(rows: seq<Row>, window: nat, i: nat, c: nat)
    requires window % 2 == 1 && i + window <= |rows|
    ensures Padded(rows, window, i + window / 2, c) == Column(rows[i..i + window], c)
  {
  }

  function MedianRow(width: nat, window: nat, rows: seq<Row>, i: nat): seq<real>
    requires Usable(Median(window))
  {
    seq(width, c requires 0 <= c < width => Apply(Median(window), Padded(rows, window, i, c)))
  }

  lemma MedianRowInside(width: nat, window: nat, rows: seq<Row>, i: nat)
    requires Usable(Median(window)) && i + window <= |rows|
    ensures MedianRow(width, window, rows, i + window / 2) == Smoothed(Median(window), width, rows[i..i + window]).data
  {
    var middle, part := i + window / 2, rows[i..i + window];
    forall c: nat | c < width ensures Padded(rows, window, middle, c) == Column(part, c) {
      PaddedInside(rows, window, i, c);
    }
  }

  /** The row of the batch around row i. */
  lemma MedianRowInBatch(width: nat, window: nat, rows: seq<Row>, i: nat)
    requires Usable(Median(window)) && i + window <= |rows|
    ensures i < |Batch(Median(window), width, rows)| && i + window / 2 < |rows|
    ensures Batch(Median(window), width, rows)[i]
        == Row(rows[i + window / 2].ts, MedianRow(width, window, rows, i + window / 2))
  {
    MedianRowInside(width, window, rows, i);
  }

  method PaddedRows(width: nat, window: nat, rows: seq<Row>) returns (filtered: seq<seq<real>>)
    requires Usable(Median(window))
    ensures |filtered| == |rows| && forall k :: 0 <= k < |rows| ==> filtered[k] == MedianRow(width, window, rows, k)
  {
    filtered := [];
    for i := 0 to |rows|
      invariant |filtered| == i && forall k :: 0 <= k < i ==> filtered[k] == MedianRow(width, window, rows, k)
    {
      filtered := filtered + [MedianRow(width, window, rows, i)];
    }
  }

  /** The filter with zeros beyond the ends, without the rows at the ends whose
      window is not whole. */
  method MedianRows(width: nat, window: nat, rows: seq<Row>) returns (out: seq<Row>)
    requires Usable(Median(window)) && |rows| >= 2 * window
    ensures out == Batch(Median(window), width, rows)
  {
    var filtered := PaddedRows(width, window, rows);
    var bound := window / 2;
    ghost var batch := Batch(Median(window), width, rows);
    out := [];
    for i := 0 to |rows| - 2 * bound
      invariant out == batch[..i]
    {
      MedianRowInBatch(width, window, rows, i);
      out := out + [Row(rows[i + bound].ts, filtered[i + bound])];
    }
    assert batch[..|batch|] == batch;
  }

  method FirRows(taps: seq<real>, width: nat, rows: seq<Row>) returns (out: seq<Row>)
    requires Usable(Fir(taps)) && |rows| >= 2 * |taps|
    ensures out == Batch(Fir(taps), width, rows)
  {
    out := [];
    var n := |taps|;
    for i := 0 to |rows| - n + 1
      invariant out == Batch(Fir(taps), width, rows)[..i]
    {
      var data := seq(width, c requires 0 <= c < width => Dot(taps, Column(rows[i..i + n], c), n));
      assert data == Smoothed(Fir(taps), width, rows[i..i + n]).data;
      out := out + [Row(rows[i + n / 2].ts, data)];
    }
  }

  /** A module runs its filter over what the reads of its input give. */
  method Run(f: Filter, width: nat, readings: seq<Reading>) returns (done: seq<seq<Row>>, now: seq<Row>)
    requires Usable(f)
    ensures var s := Steps(f, width, Start(), readings); done == s.done && now == s.now
    ensures var h := Hears(f, width, Start(), Silence(), readings);
      AllFollow(f, width, done, h.done) && Follows(f, width, now, h.now)
  {
    StartTracks(f, width);
    StreamingIsBatch(f, width, Start(), Silence(), readings);
    var n, kept: seq<Row>, stopped := Span(f), [], false;
    done, now := [], [];
    var i := 0;
    while i < |readings| && !stopped
      invariant i <= |readings|
      invariant Steps(f, width, State(kept, done, now, stopped), readings[i..]) == Steps(f, width, Start(), readings)
    {
      var r := readings[i];
      ghost var s := State(kept, done, now, stopped);
      var rows := kept + r.added;
      if |rows| < 2 * n {
        kept, stopped := rows, r.closed;
        if !r.closed && r.brk {
          kept, done, now := [], done + [now], [];
        }
      } else {
        var out := SmoothRows(f, width, rows);
        now := now + out;
        kept := rows[|out|..];
        if r.brk {
          kept, done, now := [], done + [now], [];
        }
      }
      assert State(kept, done, now, stopped) == Step(f, width, s, r);
      assert readings[i..][1..] == readings[i + 1..];
      i := i + 1;
    }
    StoppedStays(f, width, State(kept, done, now, stopped), readings[i..]);
  }

  method SmoothRows(f: Filter, width: nat, rows: seq<Row>) returns (out: seq<Row>)
    requires Usable(f) && |rows| >= 2 * Span(f)
    ensures out == Batch(f, width, rows)
  {
    match f
    case Fir(taps) => out := FirRows(taps, width, rows);
    case Median(window) => out := MedianRows(width, window, rows);
  }

  lemma {:induction false} StoppedStays(f: Filter, width: nat, s: State, readings: seq<Reading>)
    requires Usable(f)
    ensures s.stopped || readings == [] ==> Steps(f, width, s, readings) == s
    decreases |readings|
  {
    if s.stopped && readings != [] {
      StoppedStays(f, width, s, readings[1..]);
    }
  }
}
