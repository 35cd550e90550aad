/** What holds over whole runs of inserters on one stream. */
module InserterRuns {
  import opened Rows
  import opened Segments
  import opened Bounds
  import opened StoreProperties
  import opened Inserters

  // ---- any number of inserters, one after the other, without merging -----

  /** A new inserter starts, or the running one handles a read. */
  datatype Event = Start | Handle(read: Read)

  datatype World = World(s: State, alive: bool)

  function Advance(w: World, decimate: bool, e: Event): World {
    match e
    case Start => World(w.s.(firstInsert := true, lastTs := None, decimator := None), true)
    case Handle(r) =>
      if !w.alive then w
      else
        var (s, ok) := Step(w.s, 0, decimate, r);
        World(s, ok)
  }

  function Play(w: World, decimate: bool, events: seq<Event>): World
    decreases |events|
  {
    if events == [] then w else Play(Advance(w, decimate, events[0]), decimate, events[1..])
  }

  ghost predicate Sound(w: World) {
    && Increasing(w.s.rows) && NonDecreasing(w.s.bounds) && Aligned(w.s.rows, w.s.bounds)
    && (w.alive && w.s.lastTs.Some? ==> HasTs(w.s.rows, w.s.lastTs.value))
  }

  /** Nothing stored is lost. */
  ghost predicate Grows(a: State, b: State) {
    && (forall r :: r in a.rows ==> r in b.rows)
    && (forall c :: c in a.bounds ==> c in b.bounds)
  }

  /** Rows are at least 2us apart. */
  ghost predicate Spaced(rows: seq<Row>) {
    forall a, b :: a in rows && b in rows && a.ts < b.ts ==> a.ts + 2 <= b.ts
  }

  lemma CloseAtAligned(rows: seq<Row>, bounds: seq<int>, ts: int)
    requires Increasing(rows) && Aligned(rows, bounds)
    ensures Aligned(rows, CloseAt(rows, bounds, ts))
  {
    LastBelowSpec(rows, ts + 1);
  }

  lemma AlignedGrows(rows: seq<Row>, more: seq<Row>, bounds: seq<int>)
    requires Aligned(rows, bounds) && forall r :: r in rows ==> r in more
    ensures Aligned(more, bounds)
  {
    forall c | c in bounds ensures exists i :: 0 <= i < |more| && c == more[i].ts + 1 {
      var i :| 0 <= i < |rows| && c == rows[i].ts + 1;
      assert rows[i] in more;
    }
  }

  lemma WriteSound(s: State, decimate: bool, data: seq<Row>, valid: bool)
    requires Sound(World(s, true))
    ensures var (s1, ok) := Write(s, 0, decimate, data, valid); Sound(World(s1, ok)) && Grows(s, s1)
  {
    if data != [] {
      var bounds := if s.firstInsert then Opened(s.rows, s.bounds, data[0].ts, 0) else s.bounds;
      CloseAtOrdered(s.rows, s.bounds, data[0].ts - 1);
      CloseAtAligned(s.rows, s.bounds, data[0].ts - 1);
      if Monotonic(data, s.lastTs) && !Clash(s.rows, data) {
        InsertKeepsOrder(s.rows, data);
        forall r ensures r in Mingle(s.rows, data) <==> r in s.rows || r in data {
          MingleIn(s.rows, data, r);
        }
        AlignedGrows(s.rows, Mingle(s.rows, data), bounds);
        assert data[|data| - 1] in Mingle(s.rows, data);
      }
    }
  }

  lemma AdvanceSound(w: World, decimate: bool, e: Event)
    requires Sound(w)
    ensures Sound(Advance(w, decimate, e)) && Grows(w.s, Advance(w, decimate, e).s)
  {
    if e.Handle? && w.alive {
      WriteSound(w.s, decimate, e.read.data, e.read.valid);
      var (s1, ok) := Write(w.s, 0, decimate, e.read.data, e.read.valid);
      if ok && e.read.endOfInterval && s1.lastTs.Some? {
        CloseAtOrdered(s1.rows, s1.bounds, s1.lastTs.value);
        CloseAtAligned(s1.rows, s1.bounds, s1.lastTs.value);
      }
    }
  }

  lemma {:induction false} PlaySound(w: World, decimate: bool, events: seq<Event>)
    requires Sound(w)
    ensures Sound(Play(w, decimate, events)) && Grows(w.s, Play(w, decimate, events).s)
    decreases |events|
  {
    if events != [] {
      AdvanceSound(w, decimate, events[0]);
      PlaySound(Advance(w, decimate, events[0]), decimate, events[1..]);
    }
  }

  lemma {:induction false} PlayAppend(w: World, decimate: bool, a: seq<Event>, b: seq<Event>)
    ensures Play(w, decimate, a + b) == Play(Play(w, decimate, a), decimate, b)
    decreases |a|
  {
    if a == [] {
      assert a + b == b;
    } else {
      assert (a + b)[1..] == a[1..] + b;
      PlayAppend(Advance(w, decimate, a[0]), decimate, a[1..], b);
    }
  }

  lemma NoBoundOnRow(rows: seq<Row>, bounds: seq<int>, r: Row)
    requires Aligned(rows, bounds) && Spaced(rows) && r in rows
    ensures r.ts !in bounds
  {
    forall i | 0 <= i < |rows| ensures rows[i].ts + 1 != r.ts {
      assert rows[i] in rows;
    }
  }

  /** With rows 2us apart a close always separates: no boundary can sit on the
      last row itself. */
  lemma SpacedCloseSeparates(rows: seq<Row>, bounds: seq<int>, ts: int)
    requires Increasing(rows) && NonDecreasing(bounds) && Aligned(rows, bounds) && Spaced(rows)
    requires LastBelow(rows, ts + 1).Some?
    ensures Separated(CloseAt(rows, bounds, ts), LastBelow(rows, ts + 1).value.ts, ts + 1)
  {
    var last := LastBelow(rows, ts + 1).value;
    LastBelowSpec(rows, ts + 1);
    NoBoundOnRow(rows, bounds, last);
    CloseSeparatesIff(rows, bounds, ts, ts + 1);
  }

  lemma SeparatedWidens(bounds: seq<int>, more: seq<int>, a: int, b: int, x: int, y: int)
    requires Separated(bounds, a, b) && x <= a && b <= y && forall c :: c in bounds ==> c in more
    ensures Separated(more, x, y)
  {
    var c :| c in bounds && a < c <= b;
    assert c in more && x < c <= y;
  }

  /** The last row before t + 1 is the row at t. */
  lemma LastIs(rows: seq<Row>, t: int)
    requires Increasing(rows) && HasTs(rows, t)
    ensures LastBelow(rows, t + 1).Some? && LastBelow(rows, t + 1).value.ts == t
  {
    LastBelowSpec(rows, t + 1);
    var i :| 0 <= i < |rows| && rows[i].ts == t;
    assert rows[i] in rows;
  }

  /** Ending the interval of the row at t cuts it from all later ones. */
  lemma EndCuts(s: State, t: int)
    requires Sound(World(s, true)) && s.lastTs == Some(t) && Spaced(s.rows)
    ensures Separated(EndInterval(s).bounds, t, t + 1)
  {
    LastIs(s.rows, t);
    SpacedCloseSeparates(s.rows, s.bounds, t);
  }

  lemma BreakCuts(w: World, decimate: bool, read: Read, t: int)
    requires Sound(w) && w.alive && read.endOfInterval
    requires var w1 := Advance(w, decimate, Handle(read)); w1.alive && w1.s.lastTs == Some(t) && Spaced(w1.s.rows)
    ensures Separated(Advance(w, decimate, Handle(read)).s.bounds, t, t + 1)
  {
    var (s1, ok) := Write(w.s, 0, decimate, read.data, read.valid);
    WriteSound(w.s, decimate, read.data, read.valid);
    EndCuts(s1, t);
  }

  /** Once an interval ended after the row at t, rows up to t and rows after t
      are never again in one interval, whatever inserters do later. */
  lemma BreakSurvives(w: World, decimate: bool, read: Read, later: seq<Event>, x: int, t: int, y: int)
    requires Sound(w) && w.alive && read.endOfInterval
    requires var w1 := Advance(w, decimate, Handle(read)); w1.alive && w1.s.lastTs == Some(t)
    requires Spaced(Play(Advance(w, decimate, Handle(read)), decimate, later).s.rows)
    requires x <= t < y
    ensures Separated(Play(Advance(w, decimate, Handle(read)), decimate, later).s.bounds, x, y)
  {
    var w1 := Advance(w, decimate, Handle(read));
    AdvanceSound(w, decimate, Handle(read));
    PlaySound(w1, decimate, later);
    var end := Play(w1, decimate, later);
    SpacedSubset(w1.s.rows, end.s.rows);
    BreakCuts(w, decimate, read, t);
    SeparatedWidens(w1.s.bounds, end.s.bounds, t, t + 1, x, y);
  }

  lemma SpacedSubset(rows: seq<Row>, more: seq<Row>)
    requires Spaced(more) && forall r :: r in rows ==> r in more
    ensures Spaced(rows)
  {
  }

  lemma OpeningSeparates(s: State, t0: int)
    requires Sound(World(s, true)) && Spaced(s.rows) && LastBelow(s.rows, t0).Some?
    ensures Separated(Opened(s.rows, s.bounds, t0, 0), LastBelow(s.rows, t0).value.ts, t0)
  {
    SpacedCloseSeparates(s.rows, s.bounds, t0 - 1);
  }

  /** The first insert of an inserter separates its rows from the rows that
      were stored before them, for good. */
  lemma StartSeparates(w: World, decimate: bool, read: Read, later: seq<Event>, x: int, y: int)
    requires Sound(w) && w.alive && w.s.firstInsert && read.data != []
    requires LastBelow(w.s.rows, read.data[0].ts).Some?
    requires Spaced(Play(Advance(w, decimate, Handle(read)), decimate, later).s.rows)
    requires x <= LastBelow(w.s.rows, read.data[0].ts).value.ts && read.data[0].ts <= y
    ensures Separated(Play(Advance(w, decimate, Handle(read)), decimate, later).s.bounds, x, y)
  {
    var t0 := read.data[0].ts;
    var w1 := Advance(w, decimate, Handle(read));
    AdvanceSound(w, decimate, Handle(read));
    PlaySound(w1, decimate, later);
    SpacedSubset(w.s.rows, Play(w1, decimate, later).s.rows);
    OpeningSeparates(w.s, t0);
    OpeningKept(w, decimate, read);
    SeparatedWidens(Opened(w.s.rows, w.s.bounds, t0, 0), Play(w1, decimate, later).s.bounds,
                    LastBelow(w.s.rows, t0).value.ts, t0, x, y);
  }

  lemma OpeningKept(w: World, decimate: bool, read: Read)
    requires Sound(w) && w.alive && w.s.firstInsert && read.data != []
    ensures forall c :: c in Opened(w.s.rows, w.s.bounds, read.data[0].ts, 0) ==>
      c in Advance(w, decimate, Handle(read)).s.bounds
  {
    var (s1, ok) := Write(w.s, 0, decimate, read.data, read.valid);
    WriteSound(w.s, decimate, read.data, read.valid);
    if ok && read.endOfInterval && s1.lastTs.Some? {
      CloseAtOrdered(s1.rows, s1.bounds, s1.lastTs.value);
    }
  }

  /** Over a whole run from an empty stream: every boundary is a stored row
      plus 1us, and no query reports rows on both sides of a break in one
      interval. */
  lemma BreaksSurviveRuns(decimate: bool, events: seq<Event>, i: nat, start: World, lo: int, hi: int, a: Row, b: Row,
                          t: int)
    requires start.s.rows == [] && start.s.bounds == [] && !start.alive
    requires i < |events| && events[i].Handle? && events[i].read.endOfInterval
    requires Play(start, decimate, events[..i]).alive
    requires var w := Play(start, decimate, events[..i + 1]); w.alive && w.s.lastTs == Some(t)
    requires var end := Play(start, decimate, events).s;
      Spaced(end.rows) && a in end.rows && b in end.rows && lo <= a.ts <= t < b.ts < hi
    ensures var end := Play(start, decimate, events).s;
      Aligned(end.rows, end.bounds) && !InOneInterval(Store.IntervalsIn(end.rows, end.bounds, lo, hi), a.ts, b.ts)
  {
    var w := Play(start, decimate, events[..i]);
    var end := Play(start, decimate, events);
    PlaySound(start, decimate, events);
    PlaySound(start, decimate, events[..i]);
    PlaySplit(start, decimate, events, i);
    BreakSurvives(w, decimate, events[i].read, events[i + 1..], a.ts, t, b.ts);
    SharedIff(end.s.rows, end.s.bounds, lo, hi, a, b);
  }

  lemma PlaySplit(start: World, decimate: bool, events: seq<Event>, i: nat)
    requires i < |events|
    ensures var w := Play(start, decimate, events[..i]);
      && Play(start, decimate, events[..i + 1]) == Advance(w, decimate, events[i])
      && Play(start, decimate, events) == Play(Advance(w, decimate, events[i]), decimate, events[i + 1..])
  {
    var w := Play(start, decimate, events[..i]);
    var one := [events[i]];
    assert events[..i + 1] == events[..i] + one && events == events[..i + 1] + events[i + 1..];
    PlayAppend(start, decimate, events[..i], one);
    PlayAppend(start, decimate, events[..i + 1], events[i + 1..]);
    var rest := one[1..];
    assert rest == [];
    assert Play(w, decimate, one) == Play(Advance(w, decimate, events[i]), decimate, rest);
  }

  // ---- merging with earlier data -----------------------------------------

  /** With a merge gap, a first insert at t0 is cut from the previous row p
      exactly when p is more than gap + 1 before it and the close itself was
      recorded. */
  lemma MergeIff(rows: seq<Row>, bounds: seq<int>, t0: int, gap: int)
    requires Increasing(rows) && Aligned(rows, bounds) && gap > 0 && LastBelow(rows, t0).Some?
    ensures var p := LastBelow(rows, t0).value.ts;
      Separated(Opened(rows, bounds, t0, gap), p, t0)
      <==> t0 - p > gap + 1 && Separated(CloseAt(rows, bounds, t0 - 1), p, t0)
  {
    var p := LastBelow(rows, t0).value.ts;
    var closed := CloseAt(rows, bounds, t0 - 1);
    LastBelowSpec(rows, t0);
    CloseAtAligned(rows, bounds, t0 - 1);
    forall c | c in closed && p < c <= t0 ensures c == p + 1 {
      var i :| 0 <= i < |rows| && c == rows[i].ts + 1;
    }
    if Separated(closed, p, t0) {
      var c :| c in closed && p < c <= t0;
      assert t0 - p > gap + 1 ==> c in Opened(rows, bounds, t0, gap);
    }
  }

  /** Rows 2us apart: the first insert joins the previous row exactly when it
      is at most gap + 1 after it. */
  lemma MergeThreshold(rows: seq<Row>, bounds: seq<int>, t0: int, gap: int)
    requires Increasing(rows) && NonDecreasing(bounds) && Aligned(rows, bounds) && Spaced(rows)
    requires gap > 0 && LastBelow(rows, t0).Some?
    ensures !Separated(Opened(rows, bounds, t0, gap), LastBelow(rows, t0).value.ts, t0)
      <==> t0 - LastBelow(rows, t0).value.ts <= gap + 1
  {
    MergeIff(rows, bounds, t0, gap);
    SpacedCloseSeparates(rows, bounds, t0 - 1);
  }
}
