/** A pipe between modules of one process: a queue of blocks and breaks, the
    rows read and not yet consumed, and a write cache. */
module LocalPipes {
  import opened Segments
  import opened Framing

  // ---- specification -----------------------------------------------------

  datatype Block = Chunk(rows: seq<Bytes>) | Break

  /** `caching` says whether the cache is turned on, `lines` is its size. */
  datatype Local = Local(queue: seq<Block>, queuedRows: int, buffer: seq<Bytes>, cache: seq<Bytes>, caching: bool,
                         lines: nat, brk: bool, reread: bool, closed: bool, failed: bool)

  datatype Outcome = Rows(rows: seq<Bytes>) | Waiting | EmptyPipe | Failed

  function ItemsOf(queue: seq<Block>): seq<Item> {
    if queue == [] then []
    else (if queue[0].Chunk? then AsData(queue[0].rows) else [Gap]) + ItemsOf(queue[1..])
  }

  /** The rows in the queue. */
  function Queued(queue: seq<Block>): seq<Bytes> {
    if queue == [] then []
    else (if queue[0].Chunk? then queue[0].rows else []) + Queued(queue[1..])
  }

  predicate NoEmptyChunk(queue: seq<Block>) {
    forall i :: 0 <= i < |queue| ==> queue[i] != Chunk([])
  }

  predicate Consistent(s: Local) {
    && s.queuedRows == |Queued(s.queue)|
    && NoEmptyChunk(s.queue)
    && (s.cache == [] || (s.caching && |s.cache| < s.lines))
  }

  /** Rows taken off the queue up to the first break, which is taken too. */
  datatype TakenUp = TakenUp(rows: seq<Bytes>, rest: seq<Block>, brk: bool)

  function TakeUp(queue: seq<Block>): TakenUp {
    if queue == [] then TakenUp([], [], false)
    else if queue[0].Break? then TakenUp([], queue[1..], true)
    else var t := TakeUp(queue[1..]); t.(rows := queue[0].rows + t.rows)
  }

  function Refilled(s: Local): Local {
    var t := TakeUp(s.queue);
    s.(queue := t.rest, queuedRows := s.queuedRows - |t.rows|, buffer := s.buffer + t.rows, brk := t.brk)
  }

  /** One call of read. It waits while there is nothing in the queue of an
      open pipe. */
  function ReadFrom(s: Local): (Local, Outcome) {
    if s.reread then (s.(reread := false), Rows(s.buffer))
    else if s.failed then (Closed(s), Failed)
    else if s.queue == [] && !s.closed then (s.(brk := false), Waiting)
    else
      var r := Refilled(s);
      (r, if r.buffer == [] && s.closed then EmptyPipe else Rows(r.buffer))
  }

  function Consumed(s: Local, n: nat): Local
    requires n <= |s.buffer|
  {
    s.(buffer := s.buffer[n..])
  }

  function Queue(s: Local, rows: seq<Bytes>): Local {
    s.(queue := s.queue + [Chunk(rows)], queuedRows := s.queuedRows + |rows|)
  }

  function Flushed(s: Local): Local {
    if s.cache == [] then s else Queue(s, s.cache).(cache := [])
  }

  function Cache(s: Local, rows: seq<Bytes>): Local
    decreases |rows|
  {
    if rows == [] then s
    else
      var s1 := s.(cache := s.cache + [rows[0]]);
      Cache(if |s1.cache| >= s.lines then Flushed(s1) else s1, rows[1..])
  }

  function Closed(s: Local): Local {
    if s.closed then s else Flushed(s).(closed := true)
  }

  /** Turning the cache on drops the rows of an earlier one. */
  function WithCache(s: Local, lines: nat): Local {
    s.(cache := [], caching := true, lines := lines)
  }

  predicate NoRoom(s: Local) { s.caching && s.lines == 0 }

  /** False stands for an error: that of the pipe, or that of the index into a
      cache of no lines. */
  function Write(s: Local, rows: seq<Bytes>): (Local, bool) {
    if s.failed then (Closed(s), false)
    else if s.closed then (s, false)
    else if rows == [] then (s, true)
    else if NoRoom(s) then (s, false)
    else (if s.caching then Cache(s, rows) else Queue(s, rows), true)
  }

  function EndInterval(s: Local): (Local, bool) {
    if s.failed || s.closed then (s, false)
    else
      var s1 := Flushed(s);
      (s1.(queue := s1.queue + [Break]), true)
  }

  function FlushCache(s: Local): (Local, bool) {
    if s.closed then (s, false) else (Flushed(s), true)
  }

  // ---- the queue ---------------------------------------------------------

  lemma {:induction false} ItemsOfAppend(a: seq<Block>, b: seq<Block>)
    ensures ItemsOf(a + b) == ItemsOf(a) + ItemsOf(b)
  {
    if a == [] {
      assert a + b == b;
    } else {
      assert (a + b)[1..] == a[1..] + b;
      ItemsOfAppend(a[1..], b);
    }
  }

  lemma {:induction false} QueuedAppend(a: seq<Block>, b: seq<Block>)
    ensures Queued(a + b) == Queued(a) + Queued(b)
  {
    if a == [] {
      assert a + b == b;
    } else {
      assert (a + b)[1..] == a[1..] + b;
      QueuedAppend(a[1..], b);
    }
  }

  lemma {:induction false} QueuedIsRows(queue: seq<Block>)
    ensures RowsOf(ItemsOf(queue)) == Queued(queue)
  {
    if queue != [] {
      QueuedIsRows(queue[1..]);
      RowsOfAppend(if queue[0].Chunk? then AsData(queue[0].rows) else [Gap], ItemsOf(queue[1..]));
      if queue[0].Chunk? {
        RowsOfData(queue[0].rows);
      } else {
        RowsOfGap();
      }
    }
  }

  lemma OneBlock(block: Block)
    ensures ItemsOf([block]) == if block.Chunk? then AsData(block.rows) else [Gap]
    ensures Queued([block]) == if block.Chunk? then block.rows else []
  {
    var none := [block][1..];
    assert ItemsOf(none) == [] && Queued(none) == [];
  }

  /** A read takes exactly what is in front of the first break. */
  lemma {:induction false} TakeUpSplits(queue: seq<Block>)
    ensures var t := TakeUp(queue);
      ItemsOf(queue) == AsData(t.rows) + (if t.brk then [Gap] else []) + ItemsOf(t.rest)
  {
    if queue == [] {
    } else if queue[0].Chunk? {
      TakeUpSplits(queue[1..]);
      var t, first := TakeUp(queue[1..]), queue[0].rows;
      assert AsData(first + t.rows) == AsData(first) + AsData(t.rows);
      Regroup(AsData(first), AsData(t.rows), if t.brk then [Gap] else [], ItemsOf(t.rest));
    } else {
      NoRows();
    }
  }

  lemma Regroup<T>(a: seq<T>, b: seq<T>, c: seq<T>, d: seq<T>)
    ensures a + (b + c + d) == a + b + c + d
  {
  }

  lemma NoRows()
    ensures AsData([]) == []
  {
  }

  lemma {:induction false} TakeUpRows(queue: seq<Block>)
    ensures var t := TakeUp(queue);
      Queued(queue) == t.rows + Queued(t.rest) && |Queued(queue)| == |t.rows| + |Queued(t.rest)|
  {
    if queue == [] {
    } else if queue[0].Chunk? {
      TakeUpRows(queue[1..]);
      var t := TakeUp(queue[1..]);
      Assoc(queue[0].rows, t.rows, Queued(t.rest));
    } else {
    }
  }

  lemma {:induction false} TakeUpStops(queue: seq<Block>)
    ensures var t := TakeUp(queue);
      && (t.brk <==> Break in queue) && (!t.brk ==> t.rest == [])
      && |t.rest| <= |queue| && t.rest == queue[|queue| - |t.rest|..]
  {
    if queue != [] && queue[0].Chunk? {
      TakeUpStops(queue[1..]);
    }
  }

  lemma TakeUpKeeps(queue: seq<Block>)
    requires NoEmptyChunk(queue)
    ensures NoEmptyChunk(TakeUp(queue).rest)
    ensures TakeUp(queue).rows == [] <==> queue == [] || queue[0].Break?
  {
    TakeUpStops(queue);
  }

  lemma RefillConsistent(s: Local)
    requires Consistent(s)
    ensures Consistent(Refilled(s))
  {
    TakeUpRows(s.queue);
    TakeUpKeeps(s.queue);
  }

  // ---- the pipe ----------------------------------------------------------

  class LocalPipe {
    var queue: seq<Block>
    var queuedRows: int
    var readBuffer: seq<Bytes>
    var intervalBreak: bool
    var rereadNext: bool
    var caching: bool
    var cache: array<Bytes>
    var cacheIndex: nat
    var closed: bool
    var failed: bool

    ghost predicate Valid()
      reads this, cache
    {
      && (cacheIndex == 0 || (caching && cacheIndex < cache.Length))
      && Consistent(Model())
    }

    ghost function Model(): (s: Local)
      requires cacheIndex == 0 || (caching && cacheIndex < cache.Length)
      reads this, cache
    {
      Local(queue, queuedRows, readBuffer, cache[..cacheIndex], caching, if caching then cache.Length else 0,
            intervalBreak, rereadNext, closed, failed)
    }

    constructor ()
      ensures Valid() && fresh(cache) && !caching
      ensures Model() == Local([], 0, [], [], false, 0, false, false, false, false)
    {
      queue, queuedRows, readBuffer, cacheIndex := [], 0, [], 0;
      intervalBreak, rereadNext, caching, closed, failed := false, false, false, false, false;
      cache := new Bytes[0];
    }

    /** Everything in the queue up to the first break, after what was not
        consumed. */
    method TakeQueued()
      requires Valid()
      modifies this`queue, this`queuedRows, this`readBuffer, this`intervalBreak
      ensures Valid() && Model() == Refilled(old(Model()))
    {
      ghost var before := Model();
      RefillConsistent(before);
      intervalBreak := false;
      var buffer := new Bytes[queuedRows + |readBuffer|](_ => []);
      Fill(buffer, 0, readBuffer);
      var end := PopInto(buffer, |readBuffer|);
      readBuffer := buffer[..end];
      assert Model() == Refilled(before);
    }

    method PopInto(buffer: array<Bytes>, from: nat) returns (end: nat)
      requires buffer.Length == from + queuedRows && queuedRows == |Queued(queue)| && !intervalBreak
      modifies this`queue, this`queuedRows, this`intervalBreak, buffer
      ensures var t := TakeUp(old(queue));
        && end <= buffer.Length && buffer[..end] == old(buffer[..from]) + t.rows
        && queue == t.rest && intervalBreak == t.brk && queuedRows == old(queuedRows) - |t.rows|
    {
      end := from;
      var start := from;
      ghost var t := TakeUp(queue);
      while queue != []
        invariant end == start && buffer.Length == start + queuedRows && queuedRows == |Queued(queue)| && !intervalBreak
        invariant var u := TakeUp(queue);
          && buffer[..start] + u.rows == old(buffer[..from]) + t.rows && u.rest == t.rest && u.brk == t.brk
          && old(queuedRows) - |t.rows| == queuedRows - |u.rows|
        decreases |queue|
      {
        var block := queue[0];
        queue := queue[1..];
        if block.Break? {
          intervalBreak := true;
          break;
        }
        end := start + |block.rows|;
        Fill(buffer, start, block.rows);
        start := end;
        queuedRows := queuedRows - |block.rows|;
      }
    }

    static method Fill(a: array<Bytes>, start: nat, rows: seq<Bytes>)
      requires start + |rows| <= a.Length
      modifies a
      ensures a[..start + |rows|] == old(a[..start]) + rows
    {
      for i := 0 to |rows|
        invariant a[..start + i] == old(a[..start]) + rows[..i]
      {
        a[start + i] := rows[i];
        assert a[..start + i + 1] == a[..start + i] + [rows[i]];
      }
      assert rows[..|rows|] == rows;
    }

    method Read() returns (outcome: Outcome)
      requires Valid()
      modifies this, cache
      ensures Valid() && (Model(), outcome) == ReadFrom(old(Model()))
    {
      if rereadNext {
        rereadNext := false;
        return Rows(readBuffer);
      }
      if failed {
        Close();
        return Failed;
      }
      intervalBreak := false;
      if queue == [] && !closed {
        return Waiting;
      }
      TakeQueued();
      return if readBuffer == [] && closed then EmptyPipe else Rows(readBuffer);
    }

    /** Whether the pipe is at its end; if not, the next read returns what this
        one found. */
    method IsEmpty() returns (empty: bool, outcome: Outcome)
      requires Valid()
      modifies this, cache
      ensures Valid() && empty == (outcome == EmptyPipe)
      ensures old(rereadNext) ==> !empty && Model() == old(Model())
      ensures !old(rereadNext) ==>
        var (s, o) := ReadFrom(old(Model()));
        outcome == o && Model() == if o.Rows? then s.(reread := true) else s
    {
      if rereadNext {
        return false, Rows(readBuffer);
      }
      outcome := Read();
      if outcome.Rows? {
        rereadNext := true;
      }
      return outcome == EmptyPipe, outcome;
    }

    method Consume(n: int) returns (ok: bool)
      requires Valid()
      modifies this`readBuffer
      ensures Valid() && ok == (0 <= n <= |old(readBuffer)|)
      ensures Model() == if ok then Consumed(old(Model()), n) else old(Model())
    {
      if n == 0 {
        return true;
      }
      if n < 0 || n > |readBuffer| {
        return false;
      }
      readBuffer := readBuffer[n..];
      return true;
    }

    method WriteBlock(rows: seq<Bytes>)
      requires rows != []
      modifies this`queue, this`queuedRows
      ensures queue == old(queue) + [Chunk(rows)] && queuedRows == old(queuedRows) + |rows|
      ensures old(NoEmptyChunk(queue)) ==> NoEmptyChunk(queue)
      ensures old(queuedRows == |Queued(queue)|) ==> queuedRows == |Queued(queue)|
    {
      QueuedAppend(queue, [Chunk(rows)]);
      OneBlock(Chunk(rows));
      queue := queue + [Chunk(rows)];
      queuedRows := queuedRows + |rows|;
    }

    /** The rows in the cache become one block of the queue. */
    method SendCache()
      requires caching && cacheIndex <= cache.Length && cache.Length > 0
      requires NoEmptyChunk(queue) && queuedRows == |Queued(queue)|
      modifies this`queue, this`queuedRows, this`cache, this`cacheIndex
      ensures Valid() && (fresh(cache) || cache == old(cache)) && cache.Length == old(cache.Length)
      ensures Model() == Flushed(old(Local(queue, queuedRows, readBuffer, cache[..cacheIndex], caching, cache.Length,
                                           intervalBreak, rereadNext, closed, failed)))
    {
      if cacheIndex > 0 {
        WriteBlock(cache[..cacheIndex]);
        cacheIndex := 0;
        cache := new Bytes[cache.Length](_ => []);
      }
    }

    method Flush() returns (ok: bool)
      requires Valid()
      modifies this`queue, this`queuedRows, this`cache, this`cacheIndex
      ensures Valid() && (fresh(cache) || cache == old(cache))
      ensures (Model(), ok) == FlushCache(old(Model()))
    {
      if closed {
        return false;
      }
      if cacheIndex > 0 {
        SendCache();
      }
      return true;
    }

    method CacheRow(row: Bytes)
      requires Valid() && caching && cache.Length > 0
      modifies this`queue, this`queuedRows, this`cache, this`cacheIndex, cache
      ensures Valid() && (fresh(cache) || cache == old(cache)) && cache.Length == old(cache.Length)
      ensures Model() == Cache(old(Model()), [row])
    {
      ghost var rows := cache[..cacheIndex];
      cache[cacheIndex] := row;
      cacheIndex := cacheIndex + 1;
      assert cache[..cacheIndex] == rows + [row];
      if cacheIndex >= cache.Length {
        SendCache();
      }
    }

    method WriteRows(rows: seq<Bytes>) returns (ok: bool)
      requires Valid()
      modifies this, cache
      ensures Valid() && (fresh(cache) || cache == old(cache))
      ensures (Model(), ok) == Write(old(Model()), rows)
    {
      if failed {
        Close();
        return false;
      }
      if closed {
        return false;
      }
      if |rows| == 0 {
        return true;
      }
      if !caching {
        WriteBlock(rows);
        return true;
      }
      if cache.Length == 0 {
        return false;
      }
      ghost var whole := Cache(Model(), rows);
      assert rows[0..] == rows;
      for i := 0 to |rows|
        invariant Valid() && caching && cache.Length > 0 && (fresh(cache) || cache == old(cache))
        invariant Cache(Model(), rows[i..]) == whole
      {
        assert rows[i..][1..] == rows[i + 1..];
        CacheOne(Model(), rows[i..]);
        CacheRow(rows[i]);
      }
      return true;
    }

    method AddBreak()
      requires Valid()
      modifies this`queue
      ensures Valid() && Model() == old(Model()).(queue := old(queue) + [Break])
    {
      QueuedAppend(queue, [Break]);
      OneBlock(Break);
      queue := queue + [Break];
    }

    method CloseInterval() returns (ok: bool)
      requires Valid()
      modifies this`queue, this`queuedRows, this`cache, this`cacheIndex
      ensures Valid() && (fresh(cache) || cache == old(cache))
      ensures (Model(), ok) == EndInterval(old(Model()))
    {
      if failed || closed {
        return false;
      }
      if caching {
        var _ := Flush();
      }
      AddBreak();
      return true;
    }

    method Close()
      requires Valid()
      modifies this`queue, this`queuedRows, this`cache, this`cacheIndex, this`closed
      ensures Valid() && (fresh(cache) || cache == old(cache))
      ensures Model() == Closed(old(Model()))
    {
      if closed {
        return;
      }
      if caching {
        var _ := Flush();
      }
      closed := true;
    }

    /** Turn the cache on. Rows still in an earlier cache are dropped. */
    method EnableCache(lines: nat)
      requires Valid()
      modifies this`caching, this`cache, this`cacheIndex
      ensures Valid() && fresh(cache) && Model() == WithCache(old(Model()), lines)
    {
      caching, cacheIndex := true, 0;
      cache := new Bytes[lines](_ => []);
    }
  }

  lemma CacheOne(s: Local, rows: seq<Bytes>)
    requires rows != []
    ensures Cache(s, rows) == Cache(Cache(s, [rows[0]]), rows[1..])
  {
    var one := [rows[0]];
    var none := one[1..];
    var s1 := s.(cache := s.cache + [rows[0]]);
    var s2 := if |s1.cache| >= s.lines then Flushed(s1) else s1;
    assert Cache(s, one) == Cache(s2, none) == s2;
  }
}
