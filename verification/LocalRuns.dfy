/** Whole runs of a local pipe: any interleaving of what a writer and a reader
    do, each call being one step. */
module LocalRuns {
  import opened Segments
  import opened Framing
  import opened LocalPipes

  function Fresh(): Local {
    Local([], 0, [], [], false, 0, false, false, false, false)
  }

  // ---- rows are conserved ------------------------------------------------

  datatype Step =
    | WriteRows(rows: seq<Bytes>)
    | CloseInterval
    | Flush
    | Close
    | Fail
    | Read
    | Consume(n: nat)
    | Reread
    | EnableCache(lines: nat)

  /** The pipe, the rows accepted from the writer and the rows consumed. */
  datatype Trace = Trace(s: Local, written: seq<Bytes>, consumed: seq<Bytes>)

  function Next(t: Trace, step: Step): Trace {
    match step
    case WriteRows(rows) =>
      var (s, ok) := Write(t.s, rows);
      Trace(s, if ok then t.written + rows else t.written, t.consumed)
    case CloseInterval => t.(s := EndInterval(t.s).0)
    case Flush => t.(s := FlushCache(t.s).0)
    case Close => t.(s := Closed(t.s))
    case Fail => t.(s := t.s.(failed := true))
    case Read => t.(s := ReadFrom(t.s).0)
    case Consume(n) =>
      if n <= |t.s.buffer| then Trace(Consumed(t.s, n), t.written, t.consumed + t.s.buffer[..n]) else t
    case Reread => t.(s := t.s.(reread := true))
    case EnableCache(lines) => t.(s := WithCache(t.s, lines))
  }

  function Run(t: Trace, steps: seq<Step>): Trace
    decreases |steps|
  {
    if steps == [] then t else Run(Next(t, steps[0]), steps[1..])
  }

  function Held(s: Local): seq<Bytes> {
    s.buffer + Queued(s.queue) + s.cache
  }

  predicate Conserved(t: Trace) {
    Consistent(t.s) && t.written == t.consumed + Held(t.s)
  }

  lemma Appended(queue: seq<Block>, block: Block)
    requires NoEmptyChunk(queue) && block != Chunk([])
    ensures NoEmptyChunk(queue + [block])
    ensures Queued(queue + [block]) == Queued(queue) + (if block.Chunk? then block.rows else [])
    ensures ItemsOf(queue + [block]) == ItemsOf(queue) + (if block.Chunk? then AsData(block.rows) else [Gap])
  {
    QueuedAppend(queue, [block]);
    ItemsOfAppend(queue, [block]);
    OneBlock(block);
  }

  ghost predicate SoundQueue(s: Local) {
    s.queuedRows == |Queued(s.queue)| && NoEmptyChunk(s.queue)
  }

  /** Everything the writer had accepted and the reader has not consumed, but
      for what the read buffer holds. */
  function Unread(s: Local): seq<Item> {
    ItemsOf(s.queue) + AsData(s.cache)
  }

  lemma QueueKeeps(s: Local, rows: seq<Bytes>)
    requires SoundQueue(s) && rows != []
    ensures SoundQueue(Queue(s, rows)) && Queued(Queue(s, rows).queue) == Queued(s.queue) + rows
    ensures ItemsOf(Queue(s, rows).queue) == ItemsOf(s.queue) + AsData(rows)
  {
    Appended(s.queue, Chunk(rows));
  }

  lemma FlushKeeps(s: Local)
    requires SoundQueue(s)
    ensures SoundQueue(Flushed(s)) && Flushed(s).cache == [] && Held(Flushed(s)) == Held(s)
    ensures Unread(Flushed(s)) == Unread(s)
  {
    if s.cache != [] {
      QueueKeeps(s, s.cache);
    }
    NoRows();
    assert Held(Flushed(s)) == Held(s);
  }

  lemma {:induction false} CacheKeeps(s: Local, rows: seq<Bytes>)
    requires Consistent(s) && s.caching && s.lines > 0
    ensures Consistent(Cache(s, rows)) && Held(Cache(s, rows)) == Held(s) + rows
    ensures Unread(Cache(s, rows)) == Unread(s) + AsData(rows)
    decreases |rows|
  {
    if rows == [] {
      assert AsData(rows) == [];
    } else {
      var s1 := s.(cache := s.cache + [rows[0]]);
      FlushKeeps(s1);
      assert Held(s1) == Held(s) + [rows[0]];
      var s2 := if |s1.cache| >= s.lines then Flushed(s1) else s1;
      CacheKeeps(s2, rows[1..]);
      assert [rows[0]] + rows[1..] == rows;
      Assoc(Held(s), [rows[0]], rows[1..]);
      DataOne(rows);
      assert AsData(s1.cache) == AsData(s.cache) + AsData([rows[0]]);
      Assoc(ItemsOf(s.queue), AsData(s.cache), AsData([rows[0]]));
      Assoc(Unread(s), AsData([rows[0]]), AsData(rows[1..]));
    }
  }

  lemma DataOne(rows: seq<Bytes>)
    requires rows != []
    ensures AsData(rows) == AsData([rows[0]]) + AsData(rows[1..])
  {
  }

  lemma WriteKeeps(s: Local, rows: seq<Bytes>)
    requires Consistent(s)
    ensures var (q, ok) := Write(s, rows);
      && Consistent(q) && q.buffer == s.buffer
      && Held(q) == Held(s) + (if ok then rows else [])
      && Unread(q) == Unread(s) + (if ok then AsData(rows) else [])
  {
    if s.failed {
      FlushKeeps(s);
    } else if s.closed {
    } else if rows == [] {
      assert AsData(rows) == [];
    } else if NoRoom(s) {
      NoRows();
      assert Held(s) + [] == Held(s) && Unread(s) + [] == Unread(s);
    } else if s.caching {
      CacheKeeps(s, rows);
      CacheBuffer(s, rows);
    } else {
      QueueKeeps(s, rows);
      NoRows();
      assert Held(Queue(s, rows)) == Held(s) + rows;
    }
  }

  lemma {:induction false} CacheBuffer(s: Local, rows: seq<Bytes>)
    ensures var q := Cache(s, rows);
      && q.buffer == s.buffer && q.brk == s.brk && q.reread == s.reread && q.closed == s.closed && q.failed == s.failed
    decreases |rows|
  {
    if rows != [] {
      var s1 := s.(cache := s.cache + [rows[0]]);
      CacheBuffer(if |s1.cache| >= s.lines then Flushed(s1) else s1, rows[1..]);
    }
  }

  lemma BreakKeeps(s: Local)
    requires Consistent(s)
    ensures var (q, ok) := EndInterval(s);
      && Consistent(q) && q.buffer == s.buffer && Held(q) == Held(s)
      && Unread(q) == Unread(s) + (if ok then [Gap] else [])
  {
    if !s.failed && !s.closed {
      FlushKeeps(s);
      var f := Flushed(s);
      Appended(f.queue, Break);
      NoRows();
      assert Queued(f.queue) + [] == Queued(f.queue);
    }
  }

  lemma RefillKeeps(s: Local)
    requires Consistent(s)
    ensures Consistent(Refilled(s)) && Held(Refilled(s)) == Held(s)
  {
    RefillConsistent(s);
    TakeUpRows(s.queue);
    var t := TakeUp(s.queue);
    Assoc(s.buffer, t.rows, Queued(t.rest));
  }

  lemma CloseKeeps(s: Local)
    requires Consistent(s)
    ensures Consistent(Closed(s)) && Held(Closed(s)) == Held(s)
  {
    FlushKeeps(s);
  }

  lemma ReadKeeps(s: Local)
    requires Consistent(s)
    ensures Consistent(ReadFrom(s).0) && Held(ReadFrom(s).0) == Held(s)
  {
    if s.reread {
    } else if s.failed {
      CloseKeeps(s);
    } else {
      RefillKeeps(s);
    }
  }

  lemma WriteConserves(t: Trace, rows: seq<Bytes>)
    requires Conserved(t)
    ensures Conserved(Next(t, WriteRows(rows)))
  {
    WriteKeeps(t.s, rows);
    Assoc(t.consumed, Held(t.s), rows);
    assert Held(t.s) + [] == Held(t.s);
  }

  lemma ConsumeConserves(t: Trace, n: nat)
    requires Conserved(t) && n <= |t.s.buffer|
    ensures Conserved(Next(t, Consume(n)))
  {
    var head, tail := t.s.buffer[..n], t.s.buffer[n..];
    assert head + tail == t.s.buffer;
    assert t.consumed + (t.s.buffer + Queued(t.s.queue) + t.s.cache)
        == t.consumed + head + (tail + Queued(t.s.queue) + t.s.cache);
  }

  /** A cache is only ever turned on anew when there are no rows in it. */
  predicate CarefulStep(s: Local, step: Step) { step.EnableCache? ==> s.cache == [] }

  predicate Careful(t: Trace, steps: seq<Step>)
    decreases |steps|
  {
    steps == [] || (CarefulStep(t.s, steps[0]) && Careful(Next(t, steps[0]), steps[1..]))
  }

  lemma StepConserves(t: Trace, step: Step)
    requires Conserved(t) && CarefulStep(t.s, step)
    ensures Conserved(Next(t, step))
  {
    match step
    case WriteRows(rows) => WriteConserves(t, rows);
    case CloseInterval => BreakKeeps(t.s);
    case Flush => FlushKeeps(t.s);
    case Close => CloseKeeps(t.s);
    case Fail =>
    case Read => ReadKeeps(t.s);
    case Consume(n) =>
      if n <= |t.s.buffer| {
        ConsumeConserves(t, n);
      }
    case Reread =>
    case EnableCache(_) =>
  }

  /** The rows written that are neither consumed nor held by the pipe. */
  function Lost(t: Trace): int {
    |t.written| - |t.consumed| - |Held(t.s)|
  }

  /** Rows are lost when a cache is replaced, and by no other step. */
  lemma StepLoses(t: Trace, step: Step)
    requires Consistent(t.s)
    ensures Consistent(Next(t, step).s)
    ensures Lost(Next(t, step)) == Lost(t) + (if CarefulStep(t.s, step) then 0 else |t.s.cache|)
  {
    var sound := t.(written := t.consumed + Held(t.s));
    if CarefulStep(t.s, step) {
      StepConserves(sound, step);
    }
  }

  lemma {:induction false} RunLoses(t: Trace, steps: seq<Step>)
    requires Consistent(t.s)
    ensures Consistent(Run(t, steps).s)
    ensures if Careful(t, steps) then Lost(Run(t, steps)) == Lost(t) else Lost(Run(t, steps)) > Lost(t)
    decreases |steps|
  {
    if steps != [] {
      StepLoses(t, steps[0]);
      RunLoses(Next(t, steps[0]), steps[1..]);
    }
  }

  lemma {:induction false} RunConserves(t: Trace, steps: seq<Step>)
    requires Conserved(t) && Careful(t, steps)
    ensures Conserved(Run(t, steps))
    decreases |steps|
  {
    if steps != [] {
      StepConserves(t, steps[0]);
      RunConserves(Next(t, steps[0]), steps[1..]);
    }
  }

  /** In every reachable state, whatever the interleaving: the rows consumed,
      then those in the read buffer, in the queue and in the cache are all the
      rows written, in order, if and only if no cache was replaced with rows in
      it; and the count of queued rows is right. */
  lemma RowsAreConserved(t: Trace, steps: seq<Step>)
    requires Conserved(t)
    ensures Consistent(Run(t, steps).s)
    ensures Conserved(Run(t, steps)) <==> Careful(t, steps)
  {
    RunLoses(t, steps);
    if Careful(t, steps) {
      RunConserves(t, steps);
    }
  }

  /** So it is from a new pipe on. */
  lemma NewPipeConserves(steps: seq<Step>)
    ensures var start := Trace(Fresh(), [], []);
      var t := Run(start, steps);
      && Consistent(t.s)
      && (t.written == t.consumed + t.s.buffer + Queued(t.s.queue) + t.s.cache <==> Careful(start, steps))
  {
    var t := Trace(Fresh(), [], []);
    assert t.consumed + Held(t.s) == [];
    RowsAreConserved(t, steps);
    var end := Run(t, steps);
    Assoc(end.consumed, end.s.buffer + Queued(end.s.queue), end.s.cache);
    Assoc(end.consumed, end.s.buffer, Queued(end.s.queue));
  }

  // ---- breaks are where they were ----------------------------------------

  /** What a writer does, and a reader that takes all rows when an interval
      ended and otherwise leaves as many as it likes. */
  datatype Act =
    | Put(rows: seq<Bytes>)
    | PutBreak
    | PutCache
    | NewCache(lines: nat)
    | Shut
    | Take(keep: nat)
    | Ask

  /** `ended` once the reader is told that the pipe is empty; the pipe is then
      as it was before that read. */
  datatype Story = Story(s: Local, sent: seq<Item>, got: seq<Item>, ended: bool)

  function Takes(q: Local, keep: nat): (n: nat)
    ensures n <= |q.buffer|
  {
    if q.brk then |q.buffer| else if keep <= |q.buffer| then |q.buffer| - keep else 0
  }

  function TakeFrom(y: Story, keep: nat): Story {
    var (q, o) := ReadFrom(y.s);
    match o
    case EmptyPipe => y.(ended := true)
    case Rows(_) =>
      var n := Takes(q, keep);
      Story(Consumed(q, n), y.sent, y.got + (AsData(q.buffer[..n]) + (if q.brk then [Gap] else [])), false)
    case _ => y.(s := q)
  }

  function Does(y: Story, act: Act): Story {
    match act
    case Put(rows) =>
      var (s, ok) := Write(y.s, rows);
      y.(s := s, sent := if ok then y.sent + AsData(rows) else y.sent)
    case PutBreak =>
      var (s, ok) := EndInterval(y.s);
      y.(s := s, sent := if ok then y.sent + [Gap] else y.sent)
    case PutCache => y.(s := FlushCache(y.s).0)
    case NewCache(lines) => y.(s := WithCache(y.s, lines))
    case Shut => y.(s := Closed(y.s))
    case Take(keep) => if y.ended then y else TakeFrom(y, keep)
    case Ask =>
      var (q, o) := ReadFrom(y.s);
      if y.ended || y.s.reread then y
      else if o == EmptyPipe then y.(ended := true)
      else y.(s := if o.Rows? then q.(reread := true) else q)
  }

  function Tell(y: Story, acts: seq<Act>): Story
    decreases |acts|
  {
    if acts == [] then y else Tell(Does(y, acts[0]), acts[1..])
  }

  /** A break found by a read whose rows are still to be returned. */
  function Pending(s: Local): seq<Item> {
    if s.reread && s.brk then [Gap] else []
  }

  /** Everything accepted and not yet taken by the reader. */
  function Left(s: Local): seq<Item> {
    AsData(s.buffer) + (Pending(s) + Unread(s))
  }

  ghost predicate Settled(s: Local) {
    Consistent(s) && !s.failed && (s.closed ==> s.cache == [])
  }

  ghost predicate InOrder(y: Story) {
    && Settled(y.s)
    && y.sent == y.got + Left(y.s)
    && (y.ended ==> AtEnd(y.s))
  }

  /** The reader of a closed pipe finds nothing in front of the next break. */
  predicate AtEnd(s: Local) {
    s.closed && !s.reread && s.buffer == [] && TakeUp(s.queue).rows == []
  }

  /** Only the end of what is left grows. */
  ghost predicate Grown(s: Local, q: Local, more: seq<Item>) {
    && Settled(q) && Left(q) == Left(s) + more
    && (AtEnd(s) ==> AtEnd(q))
  }

  lemma GrownBy(s: Local, q: Local, more: seq<Item>)
    requires Settled(q) && q.buffer == s.buffer && q.brk == s.brk && q.reread == s.reread
    requires Unread(q) == Unread(s) + more && (s.closed ==> s == q)
    ensures Grown(s, q, more)
  {
    Assoc(Pending(s), Unread(s), more);
    Assoc(AsData(s.buffer), Pending(s) + Unread(s), more);
  }

  lemma PutGrows(s: Local, rows: seq<Bytes>)
    requires Settled(s)
    ensures Grown(s, Write(s, rows).0, if Write(s, rows).1 then AsData(rows) else [])
  {
    WriteKeeps(s, rows);
    CacheBuffer(s, rows);
    GrownBy(s, Write(s, rows).0, if Write(s, rows).1 then AsData(rows) else []);
  }

  lemma BreakGrows(s: Local)
    requires Settled(s)
    ensures Grown(s, EndInterval(s).0, if EndInterval(s).1 then [Gap] else [])
  {
    BreakKeeps(s);
    GrownBy(s, EndInterval(s).0, if EndInterval(s).1 then [Gap] else []);
  }

  lemma FlushGrows(s: Local)
    requires Settled(s)
    ensures Grown(s, FlushCache(s).0, []) && Grown(s, Closed(s), [])
  {
    FlushKeeps(s);
    assert Unread(s) + [] == Unread(s);
    GrownBy(s, FlushCache(s).0, []);
    if s.closed {
      GrownBy(s, s, []);
    } else {
      GrownBy(s, Flushed(s), []);
    }
  }

  lemma GrownStory(y: Story, q: Local, more: seq<Item>)
    requires InOrder(y) && Grown(y.s, q, more)
    ensures InOrder(y.(s := q, sent := y.sent + more))
  {
    Assoc(y.got, Left(y.s), more);
  }

  /** The items a read puts in front of what is still unread. */
  lemma ReadOrder(s: Local)
    requires Settled(s)
    ensures var (q, o) := ReadFrom(s);
      && o != Failed && !q.reread && Settled(q)
      && (o.Rows? ==> Left(s) == AsData(q.buffer) + ((if q.brk then [Gap] else []) + Unread(q)))
      && (o == Waiting ==> Left(s) == Left(q))
      && (o == EmptyPipe <==> AtEnd(s))
  {
    if !s.reread && !(s.queue == [] && !s.closed) {
      RefillKeeps(s);
      TakeUpSplits(s.queue);
      var t := TakeUp(s.queue);
      var gap: seq<Item> := if t.brk then [Gap] else [];
      assert AsData(s.buffer + t.rows) == AsData(s.buffer) + AsData(t.rows);
      Insertion(AsData(s.buffer), AsData(t.rows), gap, ItemsOf(t.rest), AsData(s.cache));
      assert Pending(s) + Unread(s) == Unread(s);
    }
  }

  lemma Insertion<T>(a: seq<T>, b: seq<T>, c: seq<T>, d: seq<T>, e: seq<T>)
    ensures a + ((b + c + d) + e) == (a + b) + (c + (d + e))
  {
  }

  lemma TakeOrder(q: Local, n: nat, keep: nat)
    requires n == Takes(q, keep) && !q.reread
    ensures AsData(q.buffer) + ((if q.brk then [Gap] else []) + Unread(q))
         == (AsData(q.buffer[..n]) + (if q.brk then [Gap] else [])) + Left(Consumed(q, n))
  {
    var head, tail := q.buffer[..n], q.buffer[n..];
    assert AsData(q.buffer) == AsData(head) + AsData(tail);
    if q.brk {
      NoRows();
      assert tail == [] && AsData(tail) + (Pending(q) + Unread(q)) == Unread(q);
      assert AsData(head) + [] == AsData(head);
      Assoc(AsData(head), [Gap], Unread(q));
    } else {
      assert AsData(head) + [] == AsData(head) && [] + Unread(q) == Unread(q);
      Assoc(AsData(head), AsData(tail), Unread(q));
    }
  }

  lemma TakeInOrder(y: Story, keep: nat)
    requires InOrder(y) && !y.ended
    ensures InOrder(TakeFrom(y, keep))
  {
    ReadOrder(y.s);
    var (q, o) := ReadFrom(y.s);
    if o.Rows? {
      var n := Takes(q, keep);
      TakeOrder(q, n, keep);
      Assoc(y.got, AsData(q.buffer[..n]) + (if q.brk then [Gap] else []), Left(Consumed(q, n)));
    }
  }

  lemma AskInOrder(y: Story)
    requires InOrder(y)
    ensures InOrder(Does(y, Ask))
  {
    ReadOrder(y.s);
  }

  lemma CacheGrows(s: Local, lines: nat)
    requires Settled(s) && s.cache == []
    ensures Grown(s, WithCache(s, lines), [])
  {
    var q, none: seq<Item> := WithCache(s, lines), [];
    assert Unread(s) + none == Unread(s) && Left(s) + none == Left(s) == Left(q);
  }

  predicate Tidy(s: Local, act: Act) { act.NewCache? ==> s.cache == [] }

  lemma ActInOrder(y: Story, act: Act)
    requires InOrder(y) && Tidy(y.s, act)
    ensures InOrder(Does(y, act))
  {
    assert y.sent + [] == y.sent;
    match act
    case Put(rows) =>
      PutGrows(y.s, rows);
      GrownStory(y, Write(y.s, rows).0, if Write(y.s, rows).1 then AsData(rows) else []);
    case PutBreak =>
      BreakGrows(y.s);
      GrownStory(y, EndInterval(y.s).0, if EndInterval(y.s).1 then [Gap] else []);
    case PutCache =>
      FlushGrows(y.s);
      GrownStory(y, FlushCache(y.s).0, []);
    case NewCache(lines) =>
      CacheGrows(y.s, lines);
      GrownStory(y, WithCache(y.s, lines), []);
    case Shut =>
      FlushGrows(y.s);
      GrownStory(y, Closed(y.s), []);
    case Take(keep) =>
      if !y.ended {
        TakeInOrder(y, keep);
      }
    case Ask => AskInOrder(y);
  }

  /** No cache is turned on anew with rows in it. */
  predicate AllTidy(y: Story, acts: seq<Act>)
    decreases |acts|
  {
    acts == [] || (Tidy(y.s, acts[0]) && AllTidy(Does(y, acts[0]), acts[1..]))
  }

  lemma {:induction false} TellInOrder(y: Story, acts: seq<Act>)
    requires InOrder(y) && AllTidy(y, acts)
    ensures InOrder(Tell(y, acts))
    decreases |acts|
  {
    if acts != [] {
      ActInOrder(y, acts[0]);
      TellInOrder(Does(y, acts[0]), acts[1..]);
    }
  }

  ghost predicate Bound(y: Story) {
    Settled(y.s) && (y.ended ==> AtEnd(y.s))
  }

  /** The rows and breaks accepted that are neither taken nor left. */
  function Missing(y: Story): int {
    |y.sent| - |y.got| - |Left(y.s)|
  }

  lemma ActMisses(y: Story, act: Act)
    requires Bound(y)
    ensures Bound(Does(y, act))
    ensures Missing(Does(y, act)) == Missing(y) + (if Tidy(y.s, act) then 0 else |y.s.cache|)
  {
    var sound := y.(sent := y.got + Left(y.s));
    if Tidy(y.s, act) {
      ActInOrder(sound, act);
      SameSent(y, sound, act);
    } else {
      NoRows();
    }
  }

  /** What was sent before does not matter to what an act does. */
  lemma SameSent(y: Story, z: Story, act: Act)
    requires z == y.(sent := z.sent)
    ensures Does(z, act) == Does(y, act).(sent := Does(z, act).sent)
    ensures |Does(z, act).sent| - |z.sent| == |Does(y, act).sent| - |y.sent|
  {
  }

  lemma {:induction false} TellMisses(y: Story, acts: seq<Act>)
    requires Bound(y)
    ensures Bound(Tell(y, acts))
    ensures if AllTidy(y, acts) then Missing(Tell(y, acts)) == Missing(y) else Missing(Tell(y, acts)) > Missing(y)
    decreases |acts|
  {
    if acts != [] {
      ActMisses(y, acts[0]);
      TellMisses(Does(y, acts[0]), acts[1..]);
    }
  }

  function Begin(): Story {
    Story(Fresh(), [], [], false)
  }

  lemma BeginInOrder()
    ensures InOrder(Begin())
  {
    NoRows();
    assert Left(Begin().s) == [];
  }

  /** For every interleaving: what the reader took and what is left for it are
      the rows and breaks the writer had accepted, in order, if and only if no
      cache was turned on anew with rows in it. */
  lemma ItemsAreConserved(acts: seq<Act>)
    ensures var y := Tell(Begin(), acts); y.sent == y.got + Left(y.s) <==> AllTidy(Begin(), acts)
  {
    BeginInOrder();
    TellMisses(Begin(), acts);
    if AllTidy(Begin(), acts) {
      TellInOrder(Begin(), acts);
    }
  }

  /** Then the reader has a prefix of the rows and breaks accepted. It is told
      that the pipe is empty if and only if the pipe is closed, nothing is at
      hand and no row is in front of the next break; it then has all rows if and
      only if there are none in the queue. */
  lemma ReaderFollowsWriter(acts: seq<Act>)
    requires AllTidy(Begin(), acts)
    ensures var y := Tell(Begin(), acts);
      && y.got <= y.sent
      && (ReadFrom(y.s).1 == EmptyPipe <==>
            y.s.closed && !y.s.reread && y.s.buffer == [] && (y.s.queue == [] || y.s.queue[0].Break?))
      && (y.ended ==> (RowsOf(y.got) == RowsOf(y.sent) <==> Queued(y.s.queue) == []))
      && (y.ended ==> y.s.queue == [] || y.s.queue[0].Break?)
      && (y.ended ==> y.sent == y.got + ItemsOf(y.s.queue))
  {
    BeginInOrder();
    TellInOrder(Begin(), acts);
    var y := Tell(Begin(), acts);
    ReadOrder(y.s);
    TakeUpKeeps(y.s.queue);
    if y.ended {
      NoRows();
      assert Left(y.s) == ItemsOf(y.s.queue);
      RowsOfAppend(y.got, ItemsOf(y.s.queue));
      QueuedIsRows(y.s.queue);
    }
  }

  // ---- what is accepted and what a read returns --------------------------

  function AskedFor(act: Act): seq<Item> {
    match act
    case Put(rows) => AsData(rows)
    case PutBreak => [Gap]
    case _ => []
  }

  /** The rows and breaks a writer asks for. */
  function Asked(acts: seq<Act>): seq<Item> {
    if acts == [] then [] else AskedFor(acts[0]) + Asked(acts[1..])
  }

  /** The writer does not write to a closed pipe, nor rows to a cache of no
      lines. */
  predicate Writable(s: Local, act: Act) {
    match act
    case Put(rows) => rows == [] || (!s.closed && !NoRoom(s))
    case PutBreak => !s.closed
    case _ => true
  }

  predicate AllWritable(y: Story, acts: seq<Act>)
    decreases |acts|
  {
    acts == [] || (Writable(y.s, acts[0]) && AllWritable(Does(y, acts[0]), acts[1..]))
  }

  lemma ActSends(y: Story, act: Act)
    requires Bound(y)
    ensures if Writable(y.s, act) then Does(y, act).sent == y.sent + AskedFor(act)
            else |Does(y, act).sent| < |y.sent + AskedFor(act)|
  {
    NoRows();
    assert y.sent + [] == y.sent;
  }

  lemma {:induction false} TellSends(y: Story, acts: seq<Act>)
    requires Bound(y)
    ensures |Tell(y, acts).sent| <= |y.sent| + |Asked(acts)|
    ensures if AllWritable(y, acts) then Tell(y, acts).sent == y.sent + Asked(acts)
            else |Tell(y, acts).sent| < |y.sent| + |Asked(acts)|
    decreases |acts|
  {
    if acts == [] {
      assert y.sent + [] == y.sent;
    } else {
      ActSends(y, acts[0]);
      ActMisses(y, acts[0]);
      TellSends(Does(y, acts[0]), acts[1..]);
      Assoc(y.sent, AskedFor(acts[0]), Asked(acts[1..]));
    }
  }

  /** Everything the writer asks for is accepted, in order, if and only if it
      writes nothing to a closed pipe and no rows to a cache of no lines. */
  lemma AcceptsAllIff(acts: seq<Act>)
    ensures Tell(Begin(), acts).sent == Asked(acts) <==> AllWritable(Begin(), acts)
  {
    BeginInOrder();
    TellSends(Begin(), acts);
    var none: seq<Item> := [];
    assert none + Asked(acts) == Asked(acts);
  }

  /** A read waits exactly while an open pipe has nothing queued. Otherwise it
      returns the rows it had and all that are queued in front of the first
      break, and takes that break off the queue. */
  lemma ReadIsRight(s: Local)
    requires Consistent(s) && !s.reread && !s.failed
    ensures var (q, o) := ReadFrom(s);
      && (o == Waiting <==> s.queue == [] && !s.closed)
      && (o.Rows? ==> o.rows == q.buffer)
      && (o != Waiting ==>
            && s.buffer <= q.buffer
            && AsData(s.buffer) + ItemsOf(s.queue)
               == AsData(q.buffer) + (if q.brk then [Gap] else []) + ItemsOf(q.queue)
            && (q.brk <==> Break in s.queue) && (!q.brk ==> q.queue == [])
            && q.cache == s.cache && q.closed == s.closed)
  {
    TakeUpSplits(s.queue);
    TakeUpStops(s.queue);
    var t := TakeUp(s.queue);
    var gap: seq<Item> := if t.brk then [Gap] else [];
    assert AsData(s.buffer + t.rows) == AsData(s.buffer) + AsData(t.rows);
    Regroup(AsData(s.buffer), AsData(t.rows), gap, ItemsOf(t.rest));
  }

  /** What was read before is read again once, unchanged. A failed pipe refuses
      reads, writes and breaks, and the first two close it; a closed pipe takes
      nothing more. */
  lemma RefusedIff(s: Local, rows: seq<Bytes>)
    ensures s.reread ==> ReadFrom(s) == (s.(reread := false), Rows(s.buffer))
    ensures ReadFrom(s).1 == Failed <==> s.failed && !s.reread
    ensures Write(s, rows).1 <==> !s.failed && !s.closed && (rows == [] || !NoRoom(s))
    ensures EndInterval(s).1 <==> !s.failed && !s.closed
    ensures FlushCache(s).1 <==> !s.closed
    ensures s.failed ==> Write(s, rows).0.closed && (!s.reread ==> ReadFrom(s).0.closed)
  {
  }

  /** A flush puts the cached rows into the queue, in the order written, so that
      a read after it has them all if no break is in between. */
  lemma FlushDelivers(s: Local)
    requires Settled(s) && !s.closed && !s.reread && s.cache != [] && Break !in s.queue
    ensures var f := FlushCache(s).0;
      && f.cache == [] && ItemsOf(f.queue) == ItemsOf(s.queue) + AsData(s.cache)
      && ReadFrom(f).1 == Rows(s.buffer + (Queued(s.queue) + s.cache))
  {
    var f := Flushed(s);
    Appended(s.queue, Chunk(s.cache));
    TakeUpStops(f.queue);
    TakeUpRows(f.queue);
    var none: seq<Block> := TakeUp(f.queue).rest;
    assert Queued(none) == [] && TakeUp(f.queue).rows + [] == TakeUp(f.queue).rows;
  }

  /** Without a cache a write is in the queue at once; with one, fewer rows than
      it has lines wait for more, or for a break, a flush or the close, after
      which none wait. */
  lemma LittleWaits(s: Local, rows: seq<Bytes>)
    requires Consistent(s) && !s.failed
    ensures Write(s, rows).0.cache == [] || |Write(s, rows).0.cache| < Write(s, rows).0.lines
    ensures !s.caching ==> Write(s, rows).0.cache == []
    ensures !s.closed ==> EndInterval(s).0.cache == [] && FlushCache(s).0.cache == [] && Closed(s).cache == []
  {
    WriteKeeps(s, rows);
  }

  lemma TellOne(y: Story, acts: seq<Act>, act: Act, more: seq<Act>)
    requires acts == [act] + more
    ensures Tell(y, acts) == Tell(Does(y, act), more)
  {
    assert acts[1..] == more;
  }

  lemma OneBlockUp(rows: seq<Bytes>)
    ensures TakeUp([Chunk(rows)]) == TakenUp(rows, [], false)
  {
    var queue, none := [Chunk(rows)], [Chunk(rows)][1..];
    assert TakeUp(none) == TakenUp([], [], false);
    assert rows + [] == rows && queue[1..] == none;
  }

  /** A reader that is up to date when an interval ends and only comes back
      after the writer wrote more and closed the pipe is told that the pipe is
      empty, with those rows unread. */
  lemma RowsCanBeLeft(a: Bytes, b: Bytes)
    ensures var y := Tell(Begin(), [Put([a]), Take(0), PutBreak, Put([b]), Shut, Take(0)]);
      y.ended && y.got == [Data(a)] && y.sent == [Data(a), Gap, Data(b)]
  {
    var second := [PutBreak, Put([b]), Shut, Take(0)];
    var acts := [Put([a]), Take(0), PutBreak, Put([b]), Shut, Take(0)];
    UpToDate(a, acts, second);
    var y := Story(Fresh(), [Data(a)], [Data(a)], false);
    LeftUnread(y, b, second);
  }

  lemma UpToDate(a: Bytes, acts: seq<Act>, more: seq<Act>)
    requires acts == [Put([a]), Take(0)] + more
    ensures Tell(Begin(), acts) == Tell(Story(Fresh(), [Data(a)], [Data(a)], false), more)
  {
    TellOne(Begin(), acts, Put([a]), [Take(0)] + more);
    var y1 := Story(Fresh().(queue := [Chunk([a])], queuedRows := 1), [Data(a)], [], false);
    assert AsData([a]) == [Data(a)];
    assert Does(Begin(), Put([a])) == y1;
    TellOne(y1, [Take(0)] + more, Take(0), more);
    OneBlockUp([a]);
    var none: seq<Bytes> := [];
    assert none + [a] == [a];
    assert ReadFrom(y1.s) == (Fresh().(buffer := [a]), Rows([a]));
    assert [a][..1] == [a] && [a][1..] == [];
    assert Does(y1, Take(0)) == Story(Fresh(), [Data(a)], [Data(a)], false);
  }

  lemma LeftUnread(y: Story, b: Bytes, acts: seq<Act>)
    requires y.s == Fresh() && !y.ended && acts == [PutBreak, Put([b]), Shut, Take(0)]
    ensures Tell(y, acts).ended && Tell(y, acts).got == y.got && Tell(y, acts).sent == y.sent + [Gap, Data(b)]
  {
    TellOne(y, acts, PutBreak, [Put([b]), Shut, Take(0)]);
    var y1 := Does(y, PutBreak);
    TellOne(y1, [Put([b]), Shut, Take(0)], Put([b]), [Shut, Take(0)]);
    var y2 := Does(y1, Put([b]));
    assert y2.s.queue == [Break, Chunk([b])];
    assert AsData([b]) == [Data(b)];
    TellOne(y2, [Shut, Take(0)], Shut, [Take(0)]);
    var y3 := Does(y2, Shut);
    var none: seq<Act> := [];
    TellOne(y3, [Take(0)], Take(0), none);
    assert TakeUp(y3.s.queue).rows == [];
  }
}
