/** The chain of decimation stages that runs beside an inserter: each stage
    keeps the rows too few to decimate, writes what it decimates to its own
    table and passes it on to a child it creates when first needed. */
module Decimators {
  import opened Rows
  import opened Segments
  import opened Decimation

  // ---- specification -----------------------------------------------------

  datatype Stage = Stage(level: nat, again: bool, buffer: seq<Row>, table: seq<Row>, child: Option<Stage>)

  function NewStage(fromLevel: nat): Stage {
    Stage(4 * fromLevel, fromLevel > 1, [], [], None)
  }

  function Depth(s: Stage): nat {
    match s.child
    case None => 0
    case Some(c) => 1 + Depth(c)
  }

  /** The stage that gets what `s` puts out. */
  function NextStage(s: Stage): Stage {
    if s.child.None? then NewStage(s.level) else s.child.value
  }

  function Feed(s: Stage, data: seq<Row>): Stage
    decreases Depth(s), |s.buffer| + |data|
  {
    var all := s.buffer + data;
    var out := Decimate(s.again, all);
    if out == [] then s.(buffer := all)
    else
      s.(buffer := Leftover(all), table := s.table + out, child := Some(Feed(NextStage(s), out)))
  }

  function Close(s: Stage): Stage {
    s.(buffer := [], child := match s.child case None => None case Some(c) => Some(Close(c)))
  }

  // ---- the linked stages -------------------------------------------------

  class Decimator {
    const level: nat
    const again: bool
    var buffer: seq<Row>
    var table: seq<Row>
    var child: Decimator?
    ghost var Repr: set<Decimator>

    ghost predicate Valid()
      reads this, Repr
      decreases Repr
    {
      && this in Repr
      && |buffer| < 4
      && (child != null ==> child in Repr && child.Repr < Repr && this !in child.Repr && child.Valid())
    }

    ghost function Model(): Stage
      requires Valid()
      reads this, Repr
      decreases Repr
    {
      Stage(level, again, buffer, table, if child == null then None else Some(child.Model()))
    }

    constructor (fromLevel: nat)
      ensures Valid() && fresh(Repr) && Model() == NewStage(fromLevel)
    {
      level := 4 * fromLevel;
      again := fromLevel > 1;
      buffer := [];
      table := [];
      child := null;
      Repr := {this};
    }

    method Process(data: seq<Row>)
      requires Valid()
      modifies Repr
      ensures Valid() && fresh(Repr - old(Repr))
      ensures Model() == Feed(old(Model()), data)
      decreases Depth(Model()), |buffer| + |data|, 1
    {
      ghost var before := Model();
      var out := ProcessRows(data);
      if |out| == 0 {
        return;
      }
      EnsureChild();
      table := table + out;
      PassOn(before, data, out);
    }

    /** The rest of `Process`, once the stage's own table is written. */
    method PassOn(ghost before: Stage, data: seq<Row>, out: seq<Row>)
      requires Valid() && child != null
      requires Model() == before.(buffer := Leftover(before.buffer + data), table := before.table + out,
                                  child := Some(NextStage(before)))
      requires before.again == again && before.level == level
      requires out != [] && out == Decimate(again, before.buffer + data)
      modifies Repr
      ensures Valid() && fresh(Repr - old(Repr))
      ensures Model() == Feed(before, data)
      decreases Depth(before), |before.buffer| + |data|, 0
    {
      ghost var c := child.Model();
      child.Process(out);
      Repr := Repr + child.Repr;
      assert child.Model() == Feed(c, out);
    }

    /** The child is created when first needed. */
    method EnsureChild()
      requires Valid()
      modifies this`child, this`Repr
      ensures Valid() && fresh(Repr - old(Repr)) && child != null
      ensures old(child) != null ==> child == old(child) && Repr == old(Repr)
      ensures old(child) == null ==> fresh(child) && child.Model() == NewStage(level)
      ensures Model() == old(Model()).(child := Some(child.Model()))
    {
      if child == null {
        child := new Decimator(level);
        Repr := Repr + child.Repr;
      }
    }

    method ProcessRows(data: seq<Row>) returns (out: seq<Row>)
      requires Valid()
      modifies this`buffer
      ensures Valid()
      ensures out == Decimate(again, old(buffer) + data)
      ensures buffer == Leftover(old(buffer) + data)
    {
      var all := buffer + data;
      var n := |all| / 4 * 4;
      if n == 0 {
        buffer := all;
        return [];
      }
      buffer := all[n..];
      out := Decimate(again, all[..n]);
      DecimateWhole(again, all);
    }

    method CloseInterval()
      requires Valid()
      modifies Repr
      ensures Valid() && Repr == old(Repr)
      ensures Model() == Close(old(Model()))
      decreases Repr
    {
      buffer := [];
      if child != null {
        child.CloseInterval();
      }
    }
  }

  /** Rows beyond a multiple of four do not matter to the result. */
  lemma {:induction false} DecimateWhole(again: bool, rows: seq<Row>)
    ensures Decimate(again, rows[..|rows| / 4 * 4]) == Decimate(again, rows)
    decreases |rows|
  {
    if |rows| >= 4 {
      var n := |rows| / 4 * 4;
      DecimateWhole(again, rows[4..]);
      assert rows[..n][4..] == rows[4..][..|rows[4..]| / 4 * 4];
      assert rows[..n][..4] == rows[..4];
    }
  }

  // ---- agreement with the batch definition -------------------------------

  function DecimateEach(again: bool, parts: seq<seq<Row>>): (r: seq<seq<Row>>)
    ensures |r| == |parts|
  {
    if parts == [] then [] else [Decimate(again, parts[0])] + DecimateEach(again, parts[1..])
  }

  /** The stage has seen the complete intervals `done` and then the rows `now`
      of the current one: its table is their batch decimation, its buffer is
      what the current interval leaves over, and the stage below has seen the
      decimated intervals. */
  ghost predicate Agrees(s: Stage, done: seq<seq<Row>>, now: seq<Row>)
    decreases s
  {
    && s.buffer == Leftover(now)
    && s.table == Concat(DecimateEach(s.again, done)) + Decimate(s.again, now)
    && match s.child
       case None => s.table == []
       case Some(c) =>
         && c.level == 4 * s.level && c.again == (s.level > 1)
         && Agrees(c, DecimateEach(s.again, done), Decimate(s.again, now))
  }

  lemma NewAgrees(fromLevel: nat, done: seq<seq<Row>>, now: seq<Row>)
    requires Concat(DecimateEach(fromLevel > 1, done)) == [] && now == []
    ensures Agrees(NewStage(fromLevel), done, now)
  {
  }

  /** A stage that has put out nothing has nothing below it. */
  lemma NothingOut(s: Stage, done: seq<seq<Row>>, now: seq<Row>, again: bool)
    requires Agrees(s, done, now) && s.child.None?
    ensures Concat(DecimateEach(again, DecimateEach(s.again, done))) == [] && Decimate(s.again, now) == []
  {
    DecimateNothing(again, DecimateEach(s.again, done));
  }

  lemma QuietAgrees(s: Stage, done: seq<seq<Row>>, now: seq<Row>, data: seq<Row>)
    requires Agrees(s, done, now) && Decimate(s.again, s.buffer + data) == []
    ensures Agrees(Feed(s, data), done, now + data)
  {
    DecimateAppend(s.again, now, data);
    LeftoverAppend(now, data);
    assert Decimate(s.again, now) + [] == Decimate(s.again, now);
    assert Leftover(s.buffer + data) == s.buffer + data;
  }

  lemma PassedAgrees(s: Stage, done: seq<seq<Row>>, now: seq<Row>, data: seq<Row>, out: seq<Row>)
    requires Agrees(s, done, now) && out == Decimate(s.again, s.buffer + data) && out != []
    requires Agrees(Feed(NextStage(s), out), DecimateEach(s.again, done), Decimate(s.again, now) + out)
    ensures Agrees(Feed(s, data), done, now + data)
  {
    FeedKeepsShape(NextStage(s), out);
    DecimateAppend(s.again, now, data);
    LeftoverAppend(now, data);
    Assoc(Concat(DecimateEach(s.again, done)), Decimate(s.again, now), out);
  }

  /** Feeding a block extends the current interval by its rows. */
  lemma {:induction false} FeedAgrees(s: Stage, done: seq<seq<Row>>, now: seq<Row>, data: seq<Row>)
    requires Agrees(s, done, now)
    ensures Agrees(Feed(s, data), done, now + data)
    decreases Depth(s), |s.buffer| + |data|
  {
    var out := Decimate(s.again, s.buffer + data);
    if out == [] {
      QuietAgrees(s, done, now, data);
    } else {
      if s.child.None? {
        NothingOut(s, done, now, s.level > 1);
        NewAgrees(s.level, DecimateEach(s.again, done), Decimate(s.again, now));
      }
      FeedAgrees(NextStage(s), DecimateEach(s.again, done), Decimate(s.again, now), out);
      PassedAgrees(s, done, now, data, out);
    }
  }

  lemma FeedKeepsShape(s: Stage, data: seq<Row>)
    ensures Feed(s, data).level == s.level && Feed(s, data).again == s.again
  {
  }

  lemma {:induction false} DecimateNothing(again: bool, parts: seq<seq<Row>>)
    requires Concat(parts) == []
    ensures Concat(DecimateEach(again, parts)) == []
  {
    if parts != [] {
      DecimateNothing(again, parts[1..]);
      assert parts[0] == [];
      assert DecimateEach(again, parts)[1..] == DecimateEach(again, parts[1..]);
    }
  }

  lemma {:induction false} DecimateEachAppend(again: bool, parts: seq<seq<Row>>, part: seq<Row>)
    ensures DecimateEach(again, parts + [part]) == DecimateEach(again, parts) + [Decimate(again, part)]
    ensures Concat(DecimateEach(again, parts + [part])) == Concat(DecimateEach(again, parts)) + Decimate(again, part)
  {
    if parts == [] {
      var one, none := [part], parts;
      assert parts + [part] == one && one[1..] == none;
    } else {
      assert (parts + [part])[1..] == parts[1..] + [part];
      DecimateEachAppend(again, parts[1..], part);
      Assoc(Decimate(again, parts[0]), Concat(DecimateEach(again, parts[1..])), Decimate(again, part));
    }
  }

  /** Closing an interval completes it, and the next one starts with nothing. */
  lemma {:induction false} CloseAgrees(s: Stage, done: seq<seq<Row>>, now: seq<Row>)
    requires Agrees(s, done, now)
    ensures Agrees(Close(s), done + [now], [])
    decreases s
  {
    DecimateEachAppend(s.again, done, now);
    match s.child {
      case None =>
      case Some(c) => CloseAgrees(c, DecimateEach(s.again, done), Decimate(s.again, now));
    }
  }

  // ---- whole runs --------------------------------------------------------

  datatype Input = Block(rows: seq<Row>) | Break

  function Run(s: Stage, inputs: seq<Input>): Stage
    decreases |inputs|
  {
    if inputs == [] then s
    else
      var s1 := match inputs[0] case Block(rows) => Feed(s, rows) case Break => Close(s);
      Run(s1, inputs[1..])
  }

  /** The intervals of a stream of blocks and breaks, the open one last. */
  function IntervalsOf(done: seq<seq<Row>>, now: seq<Row>, inputs: seq<Input>): seq<seq<Row>>
    decreases |inputs|
  {
    if inputs == [] then done + [now]
    else
      match inputs[0]
      case Block(rows) => IntervalsOf(done, now + rows, inputs[1..])
      case Break => IntervalsOf(done + [now], [], inputs[1..])
  }

  lemma {:induction false} RunAgrees(s: Stage, done: seq<seq<Row>>, now: seq<Row>, inputs: seq<Input>)
    requires Agrees(s, done, now)
    ensures var parts := IntervalsOf(done, now, inputs);
      parts != [] && Agrees(Run(s, inputs), parts[..|parts| - 1], parts[|parts| - 1])
    decreases |inputs|
  {
    if inputs == [] {
      assert (done + [now])[..|done|] == done;
    } else {
      match inputs[0] {
        case Block(rows) =>
          FeedAgrees(s, done, now, rows);
          RunAgrees(Feed(s, rows), done, now + rows, inputs[1..]);
        case Break =>
          CloseAgrees(s, done, now);
          RunAgrees(Close(s), done + [now], [], inputs[1..]);
      }
    }
  }

  /** The table k stages down the chain; a stage never created has none. */
  function TableAt(s: Stage, k: nat): seq<Row>
    decreases s
  {
    if k == 0 then s.table
    else match s.child case None => [] case Some(c) => TableAt(c, k - 1)
  }

  function LevelEach(k: nat, parts: seq<seq<Row>>): (r: seq<seq<Row>>)
    ensures |r| == |parts|
  {
    if parts == [] then [] else [Level(k, parts[0])] + LevelEach(k, parts[1..])
  }

  /** A stage that has seen the intervals of level 4^n. */
  ghost predicate SeenLevel(s: Stage, parts: seq<seq<Row>>, n: nat) {
    && parts != [] && s.again == (n > 0) && s.level > 1
    && Agrees(s, LevelEach(n, parts[..|parts| - 1]), Level(n, parts[|parts| - 1]))
  }

  lemma {:induction false} LevelEachAppend(n: nat, parts: seq<seq<Row>>, part: seq<Row>)
    ensures LevelEach(n, parts + [part]) == LevelEach(n, parts) + [Level(n, part)]
  {
    if parts == [] {
      var one, none := [part], parts;
      assert parts + [part] == one && one[1..] == none;
    } else {
      assert (parts + [part])[1..] == parts[1..] + [part];
      LevelEachAppend(n, parts[1..], part);
    }
  }

  lemma {:induction false} DecimateLevels(n: nat, parts: seq<seq<Row>>)
    ensures DecimateEach(n > 0, LevelEach(n, parts)) == LevelEach(n + 1, parts)
  {
    if parts != [] {
      DecimateLevels(n, parts[1..]);
      assert LevelEach(n, parts)[1..] == LevelEach(n, parts[1..]);
    }
  }

  lemma LevelEachLast(n: nat, parts: seq<seq<Row>>)
    requires parts != []
    ensures var m := |parts| - 1;
      && LevelEach(n, parts) == LevelEach(n, parts[..m]) + [Level(n, parts[m])]
      && DecimateEach(n > 0, LevelEach(n, parts[..m])) == LevelEach(n + 1, parts[..m])
      && Decimate(n > 0, Level(n, parts[m])) == Level(n + 1, parts[m])
  {
    var m := |parts| - 1;
    LevelEachAppend(n, parts[..m], parts[m]);
    assert parts[..m] + [parts[m]] == parts;
    DecimateLevels(n, parts[..m]);
  }

  lemma TableIsLevel(s: Stage, parts: seq<seq<Row>>, n: nat)
    requires SeenLevel(s, parts, n)
    ensures s.table == Concat(LevelEach(n + 1, parts))
  {
    var m := |parts| - 1;
    LevelEachLast(n, parts);
    LevelEachLast(n + 1, parts);
    DecimateEachAppend(s.again, LevelEach(n, parts[..m]), Level(n, parts[m]));
  }

  lemma {:induction false} TablesAreLevels(s: Stage, parts: seq<seq<Row>>, n: nat, k: nat, l: nat)
    requires SeenLevel(s, parts, n) && l == n + 1 + k
    ensures TableAt(s, k) == Concat(LevelEach(l, parts))
    decreases k
  {
    TableIsLevel(s, parts, n);
    if k > 0 {
      match s.child {
        case None =>
          LevelsOfNothing(n + 1, k, l, parts);
        case Some(c) =>
          LevelEachLast(n, parts);
          TablesAreLevels(c, parts, n + 1, k - 1, l);
      }
    }
  }

  lemma {:induction false} LevelsOfNothing(n: nat, k: nat, l: nat, parts: seq<seq<Row>>)
    requires Concat(LevelEach(n, parts)) == [] && l == n + k
    ensures Concat(LevelEach(l, parts)) == []
    decreases k
  {
    if k > 0 {
      LevelsOfNothing(n, k - 1, l - 1, parts);
      DecimateNothing(l > 1, LevelEach(l - 1, parts));
      DecimateLevels(l - 1, parts);
    }
  }

  lemma {:induction false} LevelZero(parts: seq<seq<Row>>)
    ensures LevelEach(0, parts) == parts
  {
    if parts != [] {
      LevelZero(parts[1..]);
    }
  }

  lemma RunSeesAll(s: Stage, done: seq<seq<Row>>, now: seq<Row>, inputs: seq<Input>)
    requires Agrees(s, done, now) && s.level == 4 && !s.again
    ensures SeenLevel(Run(s, inputs), IntervalsOf(done, now, inputs), 0)
  {
    var parts := IntervalsOf(done, now, inputs);
    RunAgrees(s, done, now, inputs);
    RunKeepsShape(s, inputs);
    LevelZero(parts[..|parts| - 1]);
  }

  /** The first stage of a chain. */
  ghost predicate FirstStage(s: Stage, done: seq<seq<Row>>, now: seq<Row>) {
    Agrees(s, done, now) && s.level == 4 && !s.again
  }

  lemma RunTables(s: Stage, done: seq<seq<Row>>, now: seq<Row>, inputs: seq<Input>, k: nat, l: nat)
    requires FirstStage(s, done, now) && l == k + 1
    ensures TableAt(Run(s, inputs), k) == Concat(LevelEach(l, IntervalsOf(done, now, inputs)))
  {
    RunSeesAll(s, done, now, inputs);
    TablesAreLevels(Run(s, inputs), IntervalsOf(done, now, inputs), 0, k, l);
  }

  lemma FirstAgrees(s: Stage, done: seq<seq<Row>>, now: seq<Row>)
    requires s == NewStage(1) && done == [] && now == []
    ensures FirstStage(s, done, now)
  {
    NewAgrees(1, done, now);
  }

  lemma FirstTables(s: Stage, done: seq<seq<Row>>, now: seq<Row>, inputs: seq<Input>, k: nat)
    requires s == NewStage(1) && done == [] && now == []
    ensures TableAt(Run(s, inputs), k) == Concat(LevelEach(k + 1, IntervalsOf(done, now, inputs)))
  {
    FirstAgrees(s, done, now);
    RunTables(s, done, now, inputs, k, k + 1);
  }

  /** However the rows of each interval are cut into blocks, the table at
      level 4^(k + 1) is the batch decimation of every interval, in order. */
  lemma DecimationIsBatch(inputs: seq<Input>, k: nat)
    ensures TableAt(Run(NewStage(1), inputs), k) == Concat(LevelEach(k + 1, IntervalsOf([], [], inputs)))
  {
    var s, done: seq<seq<Row>>, now: seq<Row> := NewStage(1), [], [];
    FirstTables(s, done, now, inputs, k);
  }

  lemma {:induction false} RunKeepsShape(s: Stage, inputs: seq<Input>)
    ensures Run(s, inputs).level == s.level && Run(s, inputs).again == s.again
    decreases |inputs|
  {
    if inputs != [] {
      match inputs[0] {
        case Block(rows) =>
          FeedKeepsShape(s, rows);
          RunKeepsShape(Feed(s, rows), inputs[1..]);
        case Break =>
          RunKeepsShape(Close(s), inputs[1..]);
      }
    }
  }

  /** At every stage, the rows taken in during the current interval are four
      for each row put out, and the ones still buffered. */
  lemma RowsConserved(s: Stage, done: seq<seq<Row>>, now: seq<Row>)
    requires Agrees(s, done, now)
    ensures |now| == 4 * |Decimate(s.again, now)| + |s.buffer|
  {
  }
}
