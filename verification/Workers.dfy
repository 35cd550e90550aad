/** A worker passes what a module produces to the pipes that subscribe to it. */
module Workers {
  import opened Rows

  /** What became of a write to a pipe; each write is one step. */
  datatype Fate = Accepted | Disconnected | TimedOut | Broken

  /** What a pipe got: a row, by its place in everything the module produced,
      or a break. */
  datatype Entry = At(index: nat) | Gap

  /** `cuts` are the places where the module ended an interval, `starts` those
      where it was started; `last` is the time of the last row since then. */
  datatype World = World(subs: seq<nat>, logs: map<nat, seq<Entry>>, produced: seq<Row>, cuts: set<nat>,
                         starts: set<nat>, last: Option<int>, running: bool)

  function Log(w: World, p: nat): seq<Entry> {
    if p in w.logs then w.logs[p] else []
  }

  function Sent(w: World, p: nat, more: seq<Entry>): World {
    w.(logs := w.logs[p := Log(w, p) + more])
  }

  /** The entries of n rows. */
  function Block(from: nat, n: nat): seq<Entry> {
    seq(n, i requires 0 <= i < n => At(from + i))
  }

  function Without(pipes: seq<nat>, p: nat): seq<nat> {
    if pipes == [] then []
    else if pipes[0] == p then pipes[1..]
    else [pipes[0]] + Without(pipes[1..], p)
  }

  function FateOf(fates: map<nat, Fate>, p: nat): Fate {
    if p in fates then fates[p] else Accepted
  }

  /** Write a block to each pipe. A pipe that is gone is no subscriber any
      more, one that is late gets a break, and a closed one ends the loop. */
  function Spread(w: World, pipes: seq<nat>, fates: map<nat, Fate>, from: nat, n: nat): World
    decreases |pipes|
  {
    if pipes == [] then w
    else
      match FateOf(fates, pipes[0])
      case Accepted => Spread(Sent(w, pipes[0], Block(from, n)), pipes[1..], fates, from, n)
      case Disconnected => Spread(w.(subs := Without(w.subs, pipes[0])), pipes[1..], fates, from, n)
      case TimedOut => Spread(Sent(w, pipes[0], [Gap]), pipes[1..], fates, from, n)
      case Broken => w.(running := false)
  }

  /** Put a break into each pipe; one that is closed raises, which ends the
      handler before the pipes after it are reached. */
  function BreakAll(w: World, pipes: seq<nat>, closed: set<nat>): World
    decreases |pipes|
  {
    if pipes == [] then w
    else if pipes[0] in closed then w.(running := false)
    else BreakAll(Sent(w, pipes[0], [Gap]), pipes[1..], closed)
  }

  /** One turn of the loop that handles the output of a module. */
  function Delivered(w: World, rows: seq<Row>, ended: bool, fates: map<nat, Fate>, closed: set<nat>): World {
    if !w.running then w
    else if !Monotonic(rows, w.last) then BreakAll(w, w.subs, closed).(running := false)
    else
      var w1 := if rows == [] then w else Spread(Taken(w, rows), w.subs, fates, |w.produced|, |rows|);
      if ended && w1.running then BreakAll(w1.(cuts := w1.cuts + {|w1.produced|}), w1.subs, closed) else w1
  }

  function Taken(w: World, rows: seq<Row>): World
    requires rows != []
  {
    w.(last := Some(rows[|rows| - 1].ts), produced := w.produced + rows)
  }

  /** The module is started again, unless a break raises. */
  function Restarted(w: World, closed: set<nat>): World {
    BreakAll(w.(last := None, running := true, starts := w.starts + {|w.produced|}), w.subs, closed)
  }

  function Subscribed(w: World, p: nat): World {
    w.(subs := w.subs + [p], logs := w.logs[p := []])
  }

  // ---- what a pipe gets --------------------------------------------------

  /** What becomes of a block at a pipe. */
  function Outcome(fate: Fate, block: seq<Entry>): seq<Entry> {
    match fate
    case Accepted => block
    case TimedOut => [Gap]
    case _ => []
  }

  /** What one pipe gets of a block. */
  function Got(pipes: seq<nat>, fates: map<nat, Fate>, p: nat, block: seq<Entry>): seq<Entry> {
    if pipes == [] || FateOf(fates, pipes[0]) == Broken then []
    else if pipes[0] != p then Got(pipes[1..], fates, p, block)
    else Outcome(FateOf(fates, p), block)
  }

  predicate Distinct(pipes: seq<nat>) {
    forall i, j :: 0 <= i < j < |pipes| ==> pipes[i] != pipes[j]
  }

  lemma {:induction false} GotNothing(pipes: seq<nat>, fates: map<nat, Fate>, p: nat, block: seq<Entry>)
    requires p !in pipes
    ensures Got(pipes, fates, p, block) == []
  {
    if pipes != [] {
      GotNothing(pipes[1..], fates, p, block);
    }
  }

  lemma {:induction false} SpreadLog(w: World, pipes: seq<nat>, fates: map<nat, Fate>, from: nat, n: nat, p: nat)
    requires Distinct(pipes)
    ensures Log(Spread(w, pipes, fates, from, n), p) == Log(w, p) + Got(pipes, fates, p, Block(from, n))
    decreases |pipes|
  {
    if pipes != [] {
      var q, rest := pipes[0], pipes[1..];
      if q == p {
        GotNothing(rest, fates, p, Block(from, n));
      }
      match FateOf(fates, q)
      case Accepted => SpreadLog(Sent(w, q, Block(from, n)), rest, fates, from, n, p);
      case Disconnected => SpreadLog(w.(subs := Without(w.subs, q)), rest, fates, from, n, p);
      case TimedOut => SpreadLog(Sent(w, q, [Gap]), rest, fates, from, n, p);
      case Broken =>
    }
  }

  lemma {:induction false} WithoutHas(pipes: seq<nat>, p: nat, x: nat)
    requires Distinct(pipes)
    ensures x in Without(pipes, p) <==> x in pipes && x != p
  {
    if pipes != [] {
      WithoutHas(pipes[1..], p, x);
      assert pipes == [pipes[0]] + pipes[1..];
    }
  }

  lemma {:induction false} WithoutDistinct(pipes: seq<nat>, p: nat)
    requires Distinct(pipes)
    ensures Distinct(Without(pipes, p))
  {
    if pipes != [] && pipes[0] != p {
      WithoutDistinct(pipes[1..], p);
      WithoutHas(pipes[1..], p, pipes[0]);
      assert pipes[0] !in pipes[1..];
    }
  }

  /** All but the subscribers and what they got is as before. */
  ghost predicate SameModule(w: World, v: World) {
    && w.produced == v.produced && w.cuts == v.cuts && w.starts == v.starts && w.last == v.last
    && (v.running ==> w.running)
  }

  lemma {:induction false} SpreadModule(w: World, pipes: seq<nat>, fates: map<nat, Fate>, from: nat, n: nat)
    requires Distinct(w.subs)
    ensures var v := Spread(w, pipes, fates, from, n); SameModule(w, v) && Distinct(v.subs)
    decreases |pipes|
  {
    if pipes != [] {
      match FateOf(fates, pipes[0])
      case Accepted => SpreadModule(Sent(w, pipes[0], Block(from, n)), pipes[1..], fates, from, n);
      case Disconnected =>
        WithoutDistinct(w.subs, pipes[0]);
        SpreadModule(w.(subs := Without(w.subs, pipes[0])), pipes[1..], fates, from, n);
      case TimedOut => SpreadModule(Sent(w, pipes[0], [Gap]), pipes[1..], fates, from, n);
      case Broken =>
    }
  }

  /** While the module runs on, a subscriber that was served got the block or
      a break. */
  lemma {:induction false} SpreadServes(w: World, pipes: seq<nat>, fates: map<nat, Fate>, from: nat, n: nat, p: nat)
    requires Distinct(w.subs) && Distinct(pipes)
    ensures var v := Spread(w, pipes, fates, from, n);
      p in v.subs && v.running ==>
        p in w.subs && (p in pipes ==> Got(pipes, fates, p, Block(from, n)) in {Block(from, n), [Gap]})
    decreases |pipes|
  {
    if pipes != [] {
      var q, rest := pipes[0], pipes[1..];
      assert pipes == [q] + rest;
      match FateOf(fates, q)
      case Accepted => SpreadServes(Sent(w, q, Block(from, n)), rest, fates, from, n, p);
      case Disconnected =>
        WithoutDistinct(w.subs, q);
        WithoutHas(w.subs, q, p);
        SpreadServes(w.(subs := Without(w.subs, q)), rest, fates, from, n, p);
      case TimedOut => SpreadServes(Sent(w, q, [Gap]), rest, fates, from, n, p);
      case Broken =>
    }
  }

  /** The pipes a break reaches. */
  function Reached(pipes: seq<nat>, closed: set<nat>): seq<nat> {
    if pipes == [] || pipes[0] in closed then [] else [pipes[0]] + Reached(pipes[1..], closed)
  }

  lemma {:induction false} ReachedIn(pipes: seq<nat>, closed: set<nat>, p: nat)
    ensures p in Reached(pipes, closed) ==> p in pipes
    ensures (forall q :: q in pipes ==> q !in closed) ==> Reached(pipes, closed) == pipes
  {
    if pipes != [] {
      ReachedIn(pipes[1..], closed, p);
      assert pipes == [pipes[0]] + pipes[1..];
    }
  }

  lemma {:induction false} BreakLog(w: World, pipes: seq<nat>, closed: set<nat>, p: nat)
    requires Distinct(pipes)
    ensures var v := BreakAll(w, pipes, closed);
      && Log(v, p) == Log(w, p) + (if p in Reached(pipes, closed) then [Gap] else [])
      && v == w.(logs := v.logs, running := v.running)
      && (v.running ==> w.running && Reached(pipes, closed) == pipes)
    decreases |pipes|
  {
    if pipes != [] && pipes[0] !in closed {
      assert pipes == [pipes[0]] + pipes[1..];
      ReachedIn(pipes[1..], closed, p);
      BreakLog(Sent(w, pipes[0], [Gap]), pipes[1..], closed, p);
    }
  }

  // ---- the handler goes on -----------------------------------------------

  lemma {:induction false} SpreadRuns(w: World, pipes: seq<nat>, fates: map<nat, Fate>, from: nat, n: nat)
    ensures Spread(w, pipes, fates, from, n).running
        <==> w.running && forall p :: p in pipes ==> FateOf(fates, p) != Broken
    decreases |pipes|
  {
    if pipes != [] {
      var q, rest := pipes[0], pipes[1..];
      assert pipes == [q] + rest;
      match FateOf(fates, q)
      case Accepted => SpreadRuns(Sent(w, q, Block(from, n)), rest, fates, from, n);
      case Disconnected => SpreadRuns(w.(subs := Without(w.subs, q)), rest, fates, from, n);
      case TimedOut => SpreadRuns(Sent(w, q, [Gap]), rest, fates, from, n);
      case Broken => assert q in pipes;
    }
  }

  lemma {:induction false} SpreadSubs(w: World, pipes: seq<nat>, fates: map<nat, Fate>, from: nat, n: nat, p: nat)
    requires Distinct(w.subs) && forall q :: q in pipes ==> FateOf(fates, q) != Broken
    ensures p in Spread(w, pipes, fates, from, n).subs
        <==> p in w.subs && !(p in pipes && FateOf(fates, p) == Disconnected)
    decreases |pipes|
  {
    if pipes != [] {
      var q, rest := pipes[0], pipes[1..];
      assert pipes == [q] + rest;
      match FateOf(fates, q)
      case Accepted => SpreadSubs(Sent(w, q, Block(from, n)), rest, fates, from, n, p);
      case Disconnected =>
        WithoutDistinct(w.subs, q);
        WithoutHas(w.subs, q, p);
        SpreadSubs(w.(subs := Without(w.subs, q)), rest, fates, from, n, p);
      case TimedOut => SpreadSubs(Sent(w, q, [Gap]), rest, fates, from, n, p);
    }
  }

  lemma {:induction false} BreaksRun(w: World, pipes: seq<nat>, closed: set<nat>)
    ensures BreakAll(w, pipes, closed).running <==> w.running && forall p :: p in pipes ==> p !in closed
    decreases |pipes|
  {
    if pipes != [] {
      assert pipes == [pipes[0]] + pipes[1..];
      if pipes[0] !in closed {
        BreaksRun(Sent(w, pipes[0], [Gap]), pipes[1..], closed);
      }
    }
  }

  /** A break reaches a pipe exactly if none up to it is closed. */
  lemma {:induction false} ReachedIff(pipes: seq<nat>, closed: set<nat>, p: nat)
    ensures p in Reached(pipes, closed)
        <==> exists i :: 0 <= i < |pipes| && pipes[i] == p && forall j :: 0 <= j <= i ==> pipes[j] !in closed
  {
    if pipes != [] {
      ReachedIff(pipes[1..], closed, p);
      assert forall j :: 0 < j < |pipes| ==> pipes[1..][j - 1] == pipes[j];
      if pipes[0] !in closed && p in Reached(pipes[1..], closed) {
        var i :| 0 <= i < |pipes[1..]| && pipes[1..][i] == p && forall j :: 0 <= j <= i ==> pipes[1..][j] !in closed;
        assert pipes[i + 1] == p;
      }
      if i :| 0 <= i < |pipes| && pipes[i] == p && forall j :: 0 <= j <= i ==> pipes[j] !in closed {
        assert i > 0 ==> pipes[1..][i - 1] == p;
      }
    }
  }

  /** The subscribers that a delivery keeps: all but those that turned out to be
      gone when they were written to. */
  predicate Stays(w: World, rows: seq<Row>, fates: map<nat, Fate>, p: nat) {
    p in w.subs && !(rows != [] && FateOf(fates, p) == Disconnected)
  }

  /** The handler runs on exactly if times rise, no subscriber that is written to
      is broken, and at the end of an interval none of those left is closed. */
  lemma RunsOnIff(w: World, rows: seq<Row>, ended: bool, fates: map<nat, Fate>, closed: set<nat>)
    requires Distinct(w.subs) && w.running
    ensures Delivered(w, rows, ended, fates, closed).running
        <==> Monotonic(rows, w.last)
             && (rows != [] ==> forall p :: p in w.subs ==> FateOf(fates, p) != Broken)
             && (ended ==> forall p :: Stays(w, rows, fates, p) ==> p !in closed)
  {
    if Monotonic(rows, w.last) {
      var from, n := |w.produced|, |rows|;
      var w1 := if rows == [] then w else Spread(Taken(w, rows), w.subs, fates, from, n);
      if rows != [] {
        SpreadRuns(Taken(w, rows), w.subs, fates, from, n);
      }
      if w1.running {
        forall p: nat ensures p in w1.subs <==> Stays(w, rows, fates, p) {
          if rows != [] {
            SpreadSubs(Taken(w, rows), w.subs, fates, from, n, p);
          }
        }
        BreaksRun(w1.(cuts := w1.cuts + {|w1.produced|}), w1.subs, closed);
      }
    }
  }

  lemma {:induction false} GotWhole(pipes: seq<nat>, fates: map<nat, Fate>, p: nat, block: seq<Entry>)
    requires forall q :: q in pipes ==> FateOf(fates, q) != Broken
    ensures Got(pipes, fates, p, block) == if p in pipes then Outcome(FateOf(fates, p), block) else []
  {
    if pipes != [] {
      assert pipes == [pipes[0]] + pipes[1..];
      GotWhole(pipes[1..], fates, p, block);
    }
  }

  /** What one pipe gets of a delivery while the module runs on: the block, if it
      subscribes, by what became of its own write, then a break if an interval
      ended. */
  lemma DeliveredGets(w: World, rows: seq<Row>, ended: bool, fates: map<nat, Fate>, closed: set<nat>, p: nat)
    requires Distinct(w.subs) && w.running && Delivered(w, rows, ended, fates, closed).running
    ensures var v := Delivered(w, rows, ended, fates, closed);
      Log(v, p) == Log(w, p)
                   + (if rows == [] || p !in w.subs then []
                      else Outcome(FateOf(fates, p), Block(|w.produced|, |rows|)))
                   + (if ended && p in v.subs then [Gap] else [])
  {
    var from, n := |w.produced|, |rows|;
    var w1 := if rows == [] then w else Spread(Taken(w, rows), w.subs, fates, from, n);
    RunsOnIff(w, rows, ended, fates, closed);
    if rows != [] {
      SpreadModule(Taken(w, rows), w.subs, fates, from, n);
      SpreadLog(Taken(w, rows), w.subs, fates, from, n, p);
      GotWhole(w.subs, fates, p, Block(from, n));
    }
    assert Log(w, p) + [] == Log(w, p) && Log(w1, p) + [] == Log(w1, p);
    if ended {
      BreaksRun(w1.(cuts := w1.cuts + {|w1.produced|}), w1.subs, closed);
      BreakLog(w1.(cuts := w1.cuts + {|w1.produced|}), w1.subs, closed, p);
      ReachedIn(w1.subs, closed, p);
    }
  }

  /** What a delivery after which the handler runs on does besides. */
  lemma DeliveredKeepsBooks(w: World, rows: seq<Row>, ended: bool, fates: map<nat, Fate>, closed: set<nat>, p: nat)
    requires Distinct(w.subs) && w.running && Delivered(w, rows, ended, fates, closed).running
    ensures var v := Delivered(w, rows, ended, fates, closed);
      && v.produced == w.produced + rows && v.starts == w.starts
      && v.cuts == w.cuts + (if ended then {|w.produced| + |rows|} else {})
      && v.last == (if rows == [] then w.last else Some(rows[|rows| - 1].ts))
      && (p in v.subs <==> Stays(w, rows, fates, p))
  {
    var from, n := |w.produced|, |rows|;
    var w1 := if rows == [] then w else Spread(Taken(w, rows), w.subs, fates, from, n);
    if rows != [] {
      SpreadModule(Taken(w, rows), w.subs, fates, from, n);
      SpreadRuns(Taken(w, rows), w.subs, fates, from, n);
      SpreadSubs(Taken(w, rows), w.subs, fates, from, n, p);
    }
    if ended {
      BreakLog(w1.(cuts := w1.cuts + {|w1.produced|}), w1.subs, closed, p);
    }
  }

  /** Times that do not rise end the handler: nothing of the block is taken, and
      every subscriber reached gets a break. */
  lemma RefusedBreaks(w: World, rows: seq<Row>, ended: bool, fates: map<nat, Fate>, closed: set<nat>, p: nat)
    requires Distinct(w.subs) && w.running && !Monotonic(rows, w.last)
    ensures var v := Delivered(w, rows, ended, fates, closed);
      && !v.running && v.subs == w.subs && v.produced == w.produced && v.last == w.last
      && Log(v, p) == Log(w, p) + (if p in Reached(w.subs, closed) then [Gap] else [])
  {
    BreakLog(w, w.subs, closed, p);
  }

  /** A restart puts a break into every subscriber reached and forgets the last
      time; the module runs again unless one of them is closed. */
  lemma RestartBreaks(w: World, closed: set<nat>, p: nat)
    requires Distinct(w.subs)
    ensures var v := Restarted(w, closed);
      && (v.running <==> forall q :: q in w.subs ==> q !in closed)
      && v.subs == w.subs && v.produced == w.produced && v.last == None
      && v.starts == w.starts + {|w.produced|} && v.cuts == w.cuts
      && Log(v, p) == Log(w, p) + (if p in Reached(w.subs, closed) then [Gap] else [])
  {
    var w1 := w.(last := None, running := true, starts := w.starts + {|w.produced|});
    BreakLog(w1, w.subs, closed, p);
    BreaksRun(w1, w.subs, closed);
  }

  // ---- what every step keeps ---------------------------------------------

  /** Consecutive rows were produced one after the other, with no break of the
      module between them. */
  ghost predicate Linked(log: seq<Entry>, breaks: set<nat>, total: nat) {
    && (forall k :: 0 <= k < |log| && log[k].At? ==> log[k].index < total)
    && (forall k :: 0 < k < |log| && log[k - 1].At? && log[k].At?
          ==> log[k].index == log[k - 1].index + 1 && log[k].index !in breaks)
  }

  /** A pipe that may be sent row n next. */
  ghost predicate Follows(log: seq<Entry>, breaks: set<nat>, n: nat) {
    log == [] || log[|log| - 1] == Gap || (log[|log| - 1].index + 1 == n && n !in breaks)
  }

  function Breaks(w: World): set<nat> { w.cuts + w.starts }

  ghost predicate Served(w: World, p: nat) {
    && Linked(Log(w, p), Breaks(w), |w.produced|)
    && (w.running && p in w.subs ==> Follows(Log(w, p), Breaks(w), |w.produced|))
  }

  /** Times rise, but for restarts of the module. */
  ghost predicate Timely(w: World) {
    && (forall i :: 0 < i < |w.produced| && i !in w.starts ==> w.produced[i - 1].ts < w.produced[i].ts)
    && (w.running && w.last.None? ==> |w.produced| in w.starts)
    && (w.running && w.last.Some? ==> w.produced != [] && w.last.value == w.produced[|w.produced| - 1].ts)
    && (forall k :: k in w.starts ==> k <= |w.produced|)
    && (forall k :: k in w.cuts ==> k <= |w.produced|)
  }

  ghost predicate Inv(w: World) {
    Distinct(w.subs) && Timely(w) && forall p: nat :: Served(w, p)
  }

  lemma BlockLinks(log: seq<Entry>, breaks: set<nat>, from: nat, n: nat)
    requires Linked(log, breaks, from) && Follows(log, breaks, from) && n > 0
    requires forall k :: k in breaks ==> k <= from
    ensures Linked(log + Block(from, n), breaks, from + n) && Follows(log + Block(from, n), breaks, from + n)
  {
    var more := log + Block(from, n);
    forall k | 0 < k < |more| && more[k - 1].At? && more[k].At?
      ensures more[k].index == more[k - 1].index + 1 && more[k].index !in breaks
    {
      if k < |log| {
        assert more[k] == log[k] && more[k - 1] == log[k - 1];
      } else {
        assert more[k] == At(from + (k - |log|));
      }
    }
  }

  lemma GapLinks(log: seq<Entry>, breaks: set<nat>, total: nat, n: nat)
    requires Linked(log, breaks, total)
    ensures Linked(log + [Gap], breaks, total) && Follows(log + [Gap], breaks, n)
  {
    var more := log + [Gap];
    forall k | 0 < k < |more| && more[k - 1].At? && more[k].At?
      ensures more[k].index == more[k - 1].index + 1 && more[k].index !in breaks
    {
      assert more[k] == log[k] && more[k - 1] == log[k - 1];
    }
  }

  /** More rows and later breaks do not matter to what a pipe has. */
  lemma LinkedLater(log: seq<Entry>, breaks: set<nat>, total: nat, more: set<nat>, n: nat)
    requires Linked(log, breaks, total) && total <= n
    requires breaks <= more && forall k :: k in more && k !in breaks ==> k >= total
    ensures Linked(log, more, n)
  {
  }

  lemma TakenTimely(w: World, rows: seq<Row>)
    requires Timely(w) && w.running && rows != [] && Monotonic(rows, w.last)
    ensures Timely(Taken(w, rows))
  {
    var v, n := Taken(w, rows), |w.produced|;
    forall i | 0 < i < |v.produced| && i !in v.starts ensures v.produced[i - 1].ts < v.produced[i].ts {
      if i > n {
        assert rows[i - n - 1].ts < rows[i - n].ts;
      }
    }
  }

  lemma {:induction false} GotOne(pipes: seq<nat>, fates: map<nat, Fate>, p: nat, block: seq<Entry>)
    ensures Got(pipes, fates, p, block) in {block, [Gap], []}
  {
    if pipes != [] {
      GotOne(pipes[1..], fates, p, block);
    }
  }

  lemma OneServed(log: seq<Entry>, breaks: set<nat>, from: nat, n: nat, got: seq<Entry>)
    requires Linked(log, breaks, from) && n > 0 && forall k :: k in breaks ==> k <= from
    requires got in {Block(from, n), [Gap], []} && (got != [] ==> Follows(log, breaks, from))
    ensures Linked(log + got, breaks, from + n) && (got != [] ==> Follows(log + got, breaks, from + n))
  {
    LinkedLater(log, breaks, from, breaks, from + n);
    if got == [] {
      assert log + got == log;
    } else if got == [Gap] {
      GapLinks(log, breaks, from + n, from + n);
    } else {
      BlockLinks(log, breaks, from, n);
    }
  }

  lemma SpreadServed(w: World, rows: seq<Row>, fates: map<nat, Fate>, p: nat)
    requires Distinct(w.subs) && Timely(w) && Served(w, p) && w.running && rows != []
    ensures Served(Spread(Taken(w, rows), w.subs, fates, |w.produced|, |rows|), p)
  {
    var w1, from, n := Taken(w, rows), |w.produced|, |rows|;
    var block := Block(from, n);
    SpreadModule(w1, w.subs, fates, from, n);
    SpreadLog(w1, w.subs, fates, from, n, p);
    SpreadServes(w1, w.subs, fates, from, n, p);
    GotOne(w.subs, fates, p, block);
    if p !in w.subs {
      GotNothing(w.subs, fates, p, block);
    }
    OneServed(Log(w, p), Breaks(w), from, n, Got(w.subs, fates, p, block));
  }

  lemma SpreadKeeps(w: World, rows: seq<Row>, fates: map<nat, Fate>)
    requires Inv(w) && w.running && rows != [] && Monotonic(rows, w.last)
    ensures Inv(Spread(Taken(w, rows), w.subs, fates, |w.produced|, |rows|))
  {
    TakenTimely(w, rows);
    SpreadModule(Taken(w, rows), w.subs, fates, |w.produced|, |rows|);
    forall p: nat ensures Served(Spread(Taken(w, rows), w.subs, fates, |w.produced|, |rows|), p) {
      assert Served(w, p);
      SpreadServed(w, rows, fates, p);
    }
  }

  lemma BreakKeeps(w: World, closed: set<nat>)
    requires Distinct(w.subs) && Timely(w)
    requires forall p: nat :: Linked(Log(w, p), Breaks(w), |w.produced|)
    ensures Inv(BreakAll(w, w.subs, closed))
  {
    var v := BreakAll(w, w.subs, closed);
    var any: nat := 0;
    BreakLog(w, w.subs, closed, any);
    forall p: nat ensures Served(v, p) {
      BreakLog(w, w.subs, closed, p);
      GapLinks(Log(w, p), Breaks(w), |w.produced|, |w.produced|);
      assert Log(w, p) + [] == Log(w, p);
    }
  }

  lemma CutKeeps(w: World, v: World, closed: set<nat>)
    requires Inv(w) && v.subs == w.subs && v.logs == w.logs && v.produced == w.produced && Timely(v)
    requires Breaks(w) <= Breaks(v) <= Breaks(w) + {|w.produced|}
    ensures Inv(BreakAll(v, v.subs, closed))
  {
    forall p: nat ensures Linked(Log(v, p), Breaks(v), |v.produced|) {
      assert Served(w, p);
      LinkedLater(Log(w, p), Breaks(w), |w.produced|, Breaks(v), |w.produced|);
    }
    BreakKeeps(v, closed);
  }

  lemma DeliveredKeeps(w: World, rows: seq<Row>, ended: bool, fates: map<nat, Fate>, closed: set<nat>)
    requires Inv(w)
    ensures Inv(Delivered(w, rows, ended, fates, closed))
  {
    if !w.running {
    } else if !Monotonic(rows, w.last) {
      CutKeeps(w, w, closed);
      StopKeeps(BreakAll(w, w.subs, closed));
    } else {
      if rows != [] {
        SpreadKeeps(w, rows, fates);
      }
      var w1 := if rows == [] then w else Spread(Taken(w, rows), w.subs, fates, |w.produced|, |rows|);
      if ended && w1.running {
        CutKeeps(w1, w1.(cuts := w1.cuts + {|w1.produced|}), closed);
      }
    }
  }

  lemma StopKeeps(w: World)
    requires Inv(w)
    ensures Inv(w.(running := false))
  {
    forall p: nat ensures Served(w.(running := false), p) {
      assert Served(w, p);
    }
  }

  lemma RestartedKeeps(w: World, closed: set<nat>)
    requires Inv(w)
    ensures Inv(Restarted(w, closed))
  {
    CutKeeps(w, w.(last := None, running := true, starts := w.starts + {|w.produced|}), closed);
  }

  lemma SubscribedKeeps(w: World, p: nat)
    requires Inv(w) && p !in w.subs
    ensures Inv(Subscribed(w, p))
  {
    var v := Subscribed(w, p);
    forall q: nat ensures Served(v, q) {
      assert Served(w, q);
    }
  }

  lemma UnsubscribedKeeps(w: World, p: nat)
    requires Inv(w)
    ensures Inv(w.(subs := Without(w.subs, p)))
  {
    var v := w.(subs := Without(w.subs, p));
    WithoutDistinct(w.subs, p);
    forall q: nat ensures Served(v, q) {
      assert Served(w, q);
      WithoutHas(w.subs, p, q);
    }
  }

  // ---- whole runs --------------------------------------------------------

  datatype Event =
    | Deliver(rows: seq<Row>, ended: bool, fates: map<nat, Fate>, closed: set<nat>)
    | Restart(closed: set<nat>)
    | Subscribe(pipe: nat)
    | Unsubscribe(pipe: nat)

  function Step(w: World, e: Event): World {
    match e
    case Deliver(rows, ended, fates, closed) => Delivered(w, rows, ended, fates, closed)
    case Restart(closed) => Restarted(w, closed)
    case Subscribe(p) => Subscribed(w, p)
    case Unsubscribe(p) => w.(subs := Without(w.subs, p))
  }

  function Run(w: World, events: seq<Event>): World
    decreases |events|
  {
    if events == [] then w else Run(Step(w, events[0]), events[1..])
  }

  /** Every subscription brings a pipe of its own. */
  predicate OwnPipes(w: World, events: seq<Event>)
    decreases |events|
  {
    events == [] ||
    ((events[0].Subscribe? ==> events[0].pipe !in w.logs && events[0].pipe !in w.subs)
     && OwnPipes(Step(w, events[0]), events[1..]))
  }

  function Begin(): World {
    World([], map[], [], {}, {0}, None, true)
  }

  lemma StepKeeps(w: World, e: Event)
    requires Inv(w) && (e.Subscribe? ==> e.pipe !in w.subs)
    ensures Inv(Step(w, e))
  {
    match e
    case Deliver(rows, ended, fates, closed) => DeliveredKeeps(w, rows, ended, fates, closed);
    case Restart(closed) => RestartedKeeps(w, closed);
    case Subscribe(p) => SubscribedKeeps(w, p);
    case Unsubscribe(p) => UnsubscribedKeeps(w, p);
  }

  lemma {:induction false} RunKeeps(w: World, events: seq<Event>)
    requires Inv(w) && OwnPipes(w, events)
    ensures Inv(Run(w, events))
    decreases |events|
  {
    if events != [] {
      StepKeeps(w, events[0]);
      RunKeeps(Step(w, events[0]), events[1..]);
    }
  }

  lemma BeginKeeps()
    ensures Inv(Begin())
  {
    forall q: nat ensures Served(Begin(), q) {
    }
  }

  /** Whatever the pipes do, and however subscribers come and go and the module
      fails: two rows a pipe got with no break between them were produced one
      right after the other, in one life of the module and one interval of it,
      and the second is later. */
  lemma NeighboursWereNeighbours(events: seq<Event>, p: nat, k: nat)
    requires OwnPipes(Begin(), events)
    ensures var w := Run(Begin(), events);
      0 < k < |Log(w, p)| && Log(w, p)[k - 1].At? && Log(w, p)[k].At? ==>
        var i, j := Log(w, p)[k - 1].index, Log(w, p)[k].index;
        && j == i + 1 && j < |w.produced| && j !in w.cuts && j !in w.starts
        && w.produced[i].ts < w.produced[j].ts
  {
    BeginKeeps();
    RunKeeps(Begin(), events);
    assert Served(Run(Begin(), events), p);
  }

  /** Who subscribes after a subscription and after its end; nobody else is
      touched. */
  lemma SubscribersAre(w: World, p: nat, q: nat)
    requires Distinct(w.subs)
    ensures q in Step(w, Subscribe(p)).subs <==> q in w.subs || q == p
    ensures q in Step(w, Unsubscribe(p)).subs <==> q in w.subs && q != p
    ensures q != p ==> Log(Step(w, Subscribe(p)), q) == Log(w, q)
    ensures Log(Step(w, Subscribe(p)), p) == [] && Log(Step(w, Unsubscribe(p)), q) == Log(w, q)
  {
    WithoutHas(w.subs, p, q);
  }

  // ---- whole logs --------------------------------------------------------

  /** The rows a pipe got, breaks or not between them, are in the order they
      were produced, and none came twice. */
  ghost predicate Rising(log: seq<Entry>, total: nat) {
    && (forall k :: 0 <= k < |log| && log[k].At? ==> log[k].index < total)
    && (forall a, b :: 0 <= a < b < |log| && log[a].At? && log[b].At? ==> log[a].index < log[b].index)
  }

  lemma OneRises(log: seq<Entry>, from: nat, n: nat, got: seq<Entry>)
    requires Rising(log, from) && got in {Block(from, n), [Gap], []}
    ensures Rising(log + got, from + n)
  {
    var more := log + got;
    forall k | |log| <= k < |more| && more[k].At?
      ensures more[k].index == from + (k - |log|)
    {
      assert more[k] == got[k - |log|];
    }
  }

  lemma BreakRises(w: World, pipes: seq<nat>, closed: set<nat>, p: nat)
    requires Distinct(pipes) && Rising(Log(w, p), |w.produced|)
    ensures Rising(Log(BreakAll(w, pipes, closed), p), |w.produced|)
  {
    BreakLog(w, pipes, closed, p);
    OneRises(Log(w, p), |w.produced|, 0, if p in Reached(pipes, closed) then [Gap] else []);
  }

  lemma SpreadRises(w: World, rows: seq<Row>, fates: map<nat, Fate>, p: nat)
    requires Distinct(w.subs) && Rising(Log(w, p), |w.produced|) && rows != []
    ensures var v := Spread(Taken(w, rows), w.subs, fates, |w.produced|, |rows|);
      Distinct(v.subs) && Rising(Log(v, p), |v.produced|)
  {
    var from, n := |w.produced|, |rows|;
    SpreadModule(Taken(w, rows), w.subs, fates, from, n);
    SpreadLog(Taken(w, rows), w.subs, fates, from, n, p);
    GotOne(w.subs, fates, p, Block(from, n));
    OneRises(Log(w, p), from, n, Got(w.subs, fates, p, Block(from, n)));
  }

  lemma DeliveredRises(w: World, rows: seq<Row>, ended: bool, fates: map<nat, Fate>, closed: set<nat>, p: nat)
    requires Distinct(w.subs) && Rising(Log(w, p), |w.produced|)
    ensures var v := Delivered(w, rows, ended, fates, closed); Rising(Log(v, p), |v.produced|)
  {
    if !w.running {
    } else if !Monotonic(rows, w.last) {
      BreakRises(w, w.subs, closed, p);
      BreakLog(w, w.subs, closed, p);
    } else {
      var w1 := if rows == [] then w else Spread(Taken(w, rows), w.subs, fates, |w.produced|, |rows|);
      if rows != [] {
        SpreadRises(w, rows, fates, p);
      }
      var w2 := w1.(cuts := w1.cuts + {|w1.produced|});
      BreakRises(w2, w1.subs, closed, p);
      BreakLog(w2, w1.subs, closed, p);
    }
  }

  lemma StepRises(w: World, e: Event, p: nat)
    requires Distinct(w.subs) && Rising(Log(w, p), |w.produced|)
    ensures var v := Step(w, e); Rising(Log(v, p), |v.produced|)
  {
    match e
    case Deliver(rows, ended, fates, closed) => DeliveredRises(w, rows, ended, fates, closed, p);
    case Restart(closed) =>
      var v := w.(last := None, running := true, starts := w.starts + {|w.produced|});
      BreakRises(v, v.subs, closed, p);
      BreakLog(v, v.subs, closed, p);
    case Subscribe(_) =>
    case Unsubscribe(_) =>
  }

  lemma {:induction false} RunRises(w: World, events: seq<Event>, p: nat)
    requires Inv(w) && OwnPipes(w, events) && Rising(Log(w, p), |w.produced|)
    ensures var v := Run(w, events); Rising(Log(v, p), |v.produced|)
    decreases |events|
  {
    if events != [] {
      StepKeeps(w, events[0]);
      StepRises(w, events[0], p);
      RunRises(Step(w, events[0]), events[1..], p);
    }
  }

  lemma {:induction false} LaterInLife(w: World, i: nat, j: nat)
    requires Timely(w) && i < j < |w.produced| && forall k :: k in w.starts ==> !(i < k <= j)
    ensures w.produced[i].ts < w.produced[j].ts
    decreases j
  {
    assert w.produced[j - 1].ts < w.produced[j].ts;
    if i < j - 1 {
      LaterInLife(w, i, j - 1);
    }
  }

  /** Whatever breaks lie between them, the rows a pipe got are in the order
      they were produced, none twice, and within one life of the module their
      times rise strictly. */
  lemma LogsAreInOrder(events: seq<Event>, p: nat, a: nat, b: nat)
    requires OwnPipes(Begin(), events)
    ensures var w := Run(Begin(), events);
      a < b < |Log(w, p)| && Log(w, p)[a].At? && Log(w, p)[b].At? ==>
        var i, j := Log(w, p)[a].index, Log(w, p)[b].index;
        && i < j < |w.produced|
        && ((forall k :: k in w.starts ==> !(i < k <= j)) ==> w.produced[i].ts < w.produced[j].ts)
  {
    BeginKeeps();
    RunKeeps(Begin(), events);
    RunRises(Begin(), events, p);
    var w := Run(Begin(), events);
    if a < b < |Log(w, p)| && Log(w, p)[a].At? && Log(w, p)[b].At? {
      var i, j := Log(w, p)[a].index, Log(w, p)[b].index;
      if forall k :: k in w.starts ==> !(i < k <= j) {
        LaterInLife(w, i, j);
      }
    }
  }

  // ---- the worker --------------------------------------------------------

  class Worker {
    var subscribers: seq<nat>
    /** What each pipe was given. */
    var received: map<nat, seq<Entry>>
    var lastTs: Option<int>
    var running: bool
    /** Everything read from the module, and where it ended an interval or was
        started. */
    var produced: seq<Row>
    var cuts: set<nat>
    var starts: set<nat>

    ghost function State(): World
      reads this
    {
      World(subscribers, received, produced, cuts, starts, lastTs, running)
    }

    constructor ()
      ensures State() == Begin()
    {
      subscribers, received, lastTs, running := [], map[], None, true;
      produced, cuts, starts := [], {}, {0};
    }

    /** Started again after the module ended: no pipe may join what comes to
        what it has. */
    method Restart(closed: set<nat>)
      modifies this
      ensures State() == Restarted(old(State()), closed)
    {
      starts := starts + {|produced|};
      lastTs, running := None, true;
      BreakPipes(subscribers, closed);
    }

    method Put(p: nat, more: seq<Entry>)
      modifies this`received
      ensures State() == Sent(old(State()), p, more)
    {
      received := received[p := (if p in received then received[p] else []) + more];
    }

    method Subscribe(p: nat)
      modifies this`subscribers, this`received
      ensures State() == Subscribed(old(State()), p)
    {
      subscribers := subscribers + [p];
      received := received[p := []];
    }

    method Unsubscribe(p: nat)
      modifies this`subscribers
      ensures State() == old(State()).(subs := Without(old(subscribers), p))
    {
      var i := 0;
      while i < |subscribers|
        invariant i <= |subscribers| && p !in subscribers[..i] && subscribers == old(subscribers)
      {
        if subscribers[i] == p {
          WithoutAt(subscribers, p, i);
          subscribers := subscribers[..i] + subscribers[i + 1..];
          return;
        }
        assert subscribers[..i + 1] == subscribers[..i] + [subscribers[i]];
        i := i + 1;
      }
      assert subscribers[..i] == subscribers;
      WithoutNone(subscribers, p);
    }

    method BreakPipes(pipes: seq<nat>, closed: set<nat>)
      modifies this`received, this`running
      ensures State() == BreakAll(old(State()), pipes, closed)
    {
      assert pipes[0..] == pipes;
      for i := 0 to |pipes|
        invariant BreakAll(State(), pipes[i..], closed) == BreakAll(old(State()), pipes, closed)
      {
        assert pipes[i..][1..] == pipes[i + 1..];
        if pipes[i] in closed {
          running := false;
          return;
        }
        Put(pipes[i], [Gap]);
      }
    }

    /** False if the timestamps do not rise. */
    method VerifyMonotonic(rows: seq<Row>) returns (ok: bool)
      ensures ok == Monotonic(rows, lastTs)
    {
      if |rows| == 0 {
        return true;
      }
      for i := 1 to |rows|
        invariant forall k :: 0 <= k < i - 1 ==> rows[k].ts < rows[k + 1].ts
      {
        if rows[i - 1].ts >= rows[i].ts {
          return false;
        }
      }
      return lastTs.None? || lastTs.value < rows[0].ts;
    }

    /** Each subscriber in turn is written a block of n rows, over a copy of
        the list. */
    method WriteAll(from: nat, n: nat, fates: map<nat, Fate>)
      modifies this
      ensures State() == Spread(old(State()), old(subscribers), fates, from, n)
    {
      var pipes := subscribers;
      assert pipes[0..] == pipes;
      for i := 0 to |pipes|
        invariant Spread(State(), pipes[i..], fates, from, n) == Spread(old(State()), pipes, fates, from, n)
      {
        assert pipes[i..][1..] == pipes[i + 1..];
        match FateOf(fates, pipes[i])
        case Accepted => Put(pipes[i], Block(from, n));
        case Disconnected => Unsubscribe(pipes[i]);
        case TimedOut => Put(pipes[i], [Gap]);
        case Broken =>
          running := false;
          return;
      }
    }

    method HandleOutput(rows: seq<Row>, ended: bool, fates: map<nat, Fate>, closed: set<nat>)
      modifies this
      ensures State() == Delivered(old(State()), rows, ended, fates, closed)
    {
      if !running {
        return;
      }
      if |rows| > 0 {
        var ok := VerifyMonotonic(rows);
        if !ok {
          BreakPipes(subscribers, closed);
          running := false;
          return;
        }
        var from := |produced|;
        lastTs := Some(rows[|rows| - 1].ts);
        produced := produced + rows;
        WriteAll(from, |rows|, fates);
      }
      if ended && running {
        cuts := cuts + {|produced|};
        BreakPipes(subscribers, closed);
      }
    }
  }

  lemma {:induction false} WithoutAt(pipes: seq<nat>, p: nat, i: nat)
    requires i < |pipes| && pipes[i] == p && p !in pipes[..i]
    ensures Without(pipes, p) == pipes[..i] + pipes[i + 1..]
  {
    if i > 0 {
      assert pipes[..i] == [pipes[0]] + pipes[1..][..i - 1];
      WithoutAt(pipes[1..], p, i - 1);
    }
  }

  lemma {:induction false} WithoutNone(pipes: seq<nat>, p: nat)
    requires p !in pipes
    ensures Without(pipes, p) == pipes
  {
    if pipes != [] {
      WithoutNone(pipes[1..], p);
    }
  }
}
