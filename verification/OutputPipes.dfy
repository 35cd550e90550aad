/** The writing end of a pipe: rows go to the wire at once or through a cache,
    and a break is written after everything before it. */
module OutputPipes {
  import opened Segments
  import opened Framing

  // ---- specification -----------------------------------------------------

  /** What the wire carries, the rows in the cache, whether it is turned on and
      its size, and whether there is a writer yet. */
  datatype Writer = Writer(sent: seq<Item>, cached: seq<Bytes>, caching: bool, lines: nat, attached: bool)

  datatype Command = WriteRows(rows: seq<Bytes>) | EndInterval | FlushRows | CacheRows(lines: nat)

  function Put(w: Writer, rows: seq<Bytes>): Writer {
    w.(sent := w.sent + AsData(rows), attached := true)
  }

  function Flushed(w: Writer): Writer {
    if w.cached == [] then w else Put(w, w.cached).(cached := [])
  }

  function Cached(w: Writer, rows: seq<Bytes>): Writer
    decreases |rows|
  {
    if rows == [] then w
    else
      var w1 := w.(cached := w.cached + [rows[0]]);
      Cached(if |w1.cached| >= w.lines then Flushed(w1) else w1, rows[1..])
  }

  /** A break before there is a writer is dropped, and so are the rows in a
      cache that is replaced. A row does not fit into a cache of no lines. */
  function Next(w: Writer, command: Command): Writer {
    match command
    case WriteRows(rows) =>
      if rows == [] || NoRoom(w) then w else if w.caching then Cached(w, rows) else Put(w, rows)
    case EndInterval => if !w.attached then w else var f := Flushed(w); f.(sent := f.sent + [Gap])
    case FlushRows => Flushed(w)
    case CacheRows(lines) => w.(cached := [], caching := true, lines := lines)
  }

  predicate NoRoom(w: Writer) { w.caching && w.lines == 0 }

  function Run(w: Writer, script: seq<Command>): Writer
    decreases |script|
  {
    if script == [] then w else Run(Next(w, script[0]), script[1..])
  }

  /** Everything accepted, on the wire or in the cache. */
  function Accepted(w: Writer): seq<Item> {
    w.sent + AsData(w.cached)
  }

  // ---- the pipe ----------------------------------------------------------

  class OutputPipe {
    const rb: nat
    var closed: bool
    var attached: bool
    var wire: Bytes
    var caching: bool
    var cache: array<Bytes>
    var cacheIndex: nat
    /** What the wire carries. */
    ghost var written: seq<Item>

    ghost predicate Valid()
      reads this, cache
    {
      && rb > 0
      && wire == Encode(rb, written)
      && (cacheIndex == 0 || (caching && cacheIndex < cache.Length))
    }

    ghost function Model(): Writer
      requires Valid()
      reads this, cache
    {
      Writer(written, cache[..cacheIndex], caching, if caching then cache.Length else 0, attached)
    }

    constructor (rb: nat, attached: bool)
      requires rb > 0
      ensures Valid() && this.rb == rb && !closed && fresh(cache) && Model() == Writer([], [], false, 0, attached)
    {
      this.rb := rb;
      this.attached := attached;
      closed, caching, cacheIndex, wire := false, false, 0, [];
      cache := new Bytes[0];
      written := [];
    }

    /** Turn the cache on. Rows still in an earlier cache are dropped. */
    method EnableCache(lines: nat)
      requires Valid()
      modifies this`caching, this`cache, this`cacheIndex
      ensures Valid() && fresh(cache) && Model() == Next(old(Model()), CacheRows(lines))
    {
      caching, cacheIndex := true, 0;
      cache := new Bytes[lines](_ => []);
    }

    method WriteOut(rows: seq<Bytes>)
      requires rb > 0 && wire == Encode(rb, written)
      modifies this`attached, this`wire, this`written
      ensures attached && wire == Encode(rb, written) && written == old(written) + AsData(rows)
    {
      attached := true;
      wire := wire + Concat(rows);
      EncodeAppend(rb, written, AsData(rows));
      EncodeData(rb, rows);
      written := written + AsData(rows);
    }

    /** The rows in the cache go to the wire. */
    method Flush()
      requires rb > 0 && wire == Encode(rb, written) && caching && 0 < cacheIndex <= cache.Length
      modifies this`attached, this`wire, this`written, this`cache, this`cacheIndex
      ensures Valid() && fresh(cache) && cache.Length == old(cache.Length)
      ensures Model() == Flushed(old(Writer(written, cache[..cacheIndex], caching, cache.Length, attached)))
    {
      WriteOut(cache[..cacheIndex]);
      cacheIndex := 0;
      cache := new Bytes[cache.Length](_ => []);
    }

    /** False stands for the error a closed pipe raises. */
    method FlushCache() returns (ok: bool)
      requires Valid()
      modifies this`attached, this`wire, this`written, this`cache, this`cacheIndex
      ensures Valid() && ok == !closed && (fresh(cache) || cache == old(cache))
      ensures Model() == if ok then Flushed(old(Model())) else old(Model())
    {
      if closed {
        return false;
      }
      if cacheIndex > 0 {
        Flush();
      }
      return true;
    }

    method CacheRow(row: Bytes)
      requires Valid() && caching && cache.Length > 0
      modifies this`attached, this`wire, this`written, this`cache, this`cacheIndex, cache
      ensures Valid() && (fresh(cache) || cache == old(cache)) && cache.Length == old(cache.Length)
      ensures Model() == Cached(old(Model()), [row])
    {
      ghost var rows := cache[..cacheIndex];
      cache[cacheIndex] := row;
      cacheIndex := cacheIndex + 1;
      assert cache[..cacheIndex] == rows + [row];
      if cacheIndex >= cache.Length {
        Flush();
      }
    }

    /** False stands for the error of a closed pipe, or that of the index into
        a cache of no lines. */
    method Write(rows: seq<Bytes>) returns (ok: bool)
      requires Valid()
      modifies this`attached, this`wire, this`written, this`cache, this`cacheIndex, cache
      ensures Valid() && (fresh(cache) || cache == old(cache))
      ensures ok == (!closed && (rows == [] || !NoRoom(old(Model()))))
      ensures Model() == if closed then old(Model()) else Next(old(Model()), WriteRows(rows))
    {
      if closed {
        return false;
      }
      if |rows| == 0 {
        return true;
      }
      if !caching {
        WriteOut(rows);
        return true;
      }
      if cache.Length == 0 {
        return false;
      }
      ghost var whole := Cached(Model(), rows);
      assert rows[0..] == rows;
      for i := 0 to |rows|
        invariant Valid() && caching && cache.Length > 0 && (fresh(cache) || cache == old(cache))
        invariant Cached(Model(), rows[i..]) == whole
      {
        assert rows[i..][1..] == rows[i + 1..];
        CachedOne(Model(), rows[i..]);
        CacheRow(rows[i]);
      }
      return true;
    }

    /** End the interval. Before anything was sent there is nothing to end. */
    method CloseInterval() returns (ok: bool)
      requires Valid()
      modifies this`attached, this`wire, this`written, this`cache, this`cacheIndex
      ensures Valid() && ok == !closed && (fresh(cache) || cache == old(cache))
      ensures Model() == if ok then Next(old(Model()), EndInterval) else old(Model())
    {
      if closed {
        return false;
      }
      if !attached {
        return true;
      }
      if caching {
        ok := FlushCache();
      }
      EncodeAppend(rb, written, [Gap]);
      EncodeOne(rb, Gap);
      wire := wire + Token(rb);
      written := written + [Gap];
      return true;
    }

    /** Everything accepted is on the wire once the pipe is closed. */
    method Close()
      requires Valid()
      modifies this`attached, this`wire, this`written, this`cache, this`cacheIndex, this`closed
      ensures Valid() && closed
      ensures !old(closed) ==> Model() == Flushed(old(Model())) && wire == Encode(rb, Accepted(old(Model())))
      ensures old(closed) ==> Model() == old(Model())
    {
      if closed {
        return;
      }
      FlushSends(Model());
      if caching {
        var _ := FlushCache();
      }
      closed := true;
    }
  }

  lemma CachedOne(w: Writer, rows: seq<Bytes>)
    requires rows != []
    ensures Cached(w, rows) == Cached(Cached(w, [rows[0]]), rows[1..])
  {
    var one := [rows[0]];
    var none := one[1..];
    var w1 := w.(cached := w.cached + [rows[0]]);
    var w2 := if |w1.cached| >= w.lines then Flushed(w1) else w1;
    assert Cached(w, one) == Cached(w2, none) == w2;
  }

  lemma FlushSends(w: Writer)
    ensures Flushed(w).sent == Accepted(w) && Accepted(Flushed(w)) == Accepted(w) && Flushed(w).cached == []
  {
    var none: seq<Bytes> := [];
    assert AsData(none) == [];
  }

  // ---- whole runs --------------------------------------------------------

  method Do(pipe: OutputPipe, command: Command)
    requires pipe.Valid() && !pipe.closed
    modifies pipe, pipe.cache
    ensures pipe.Valid() && !pipe.closed && (pipe.cache == old(pipe.cache) || fresh(pipe.cache))
    ensures pipe.Model() == Next(old(pipe.Model()), command)
  {
    match command
    case WriteRows(rows) => var _ := pipe.Write(rows);
    case EndInterval => var _ := pipe.CloseInterval();
    case FlushRows => var _ := pipe.FlushCache();
    case CacheRows(lines) => pipe.EnableCache(lines);
  }

  /** Whatever mix of writes, breaks, flushes and caches: after the pipe is
      closed the wire carries everything it accepted, in order. */
  method Send(pipe: OutputPipe, script: seq<Command>)
    requires pipe.Valid() && !pipe.closed
    modifies pipe, pipe.cache
    ensures pipe.Valid() && pipe.closed
    ensures pipe.wire == Encode(pipe.rb, Accepted(Run(old(pipe.Model()), script)))
  {
    ghost var end := Run(pipe.Model(), script);
    assert script[0..] == script;
    for i := 0 to |script|
      invariant pipe.Valid() && !pipe.closed && (pipe.cache == old(pipe.cache) || fresh(pipe.cache))
      invariant Run(pipe.Model(), script[i..]) == end
    {
      assert script[i..][1..] == script[i + 1..];
      Do(pipe, script[i]);
    }
    pipe.Close();
  }

  // ---- what was asked for ------------------------------------------------

  function AskedFor(command: Command): seq<Item> {
    match command
    case WriteRows(rows) => AsData(rows)
    case EndInterval => [Gap]
    case _ => []
  }

  /** The rows and breaks a run of commands asks for. */
  function Asked(script: seq<Command>): seq<Item> {
    if script == [] then [] else AskedFor(script[0]) + Asked(script[1..])
  }

  /** No interval is ended before there is a writer, no cache is replaced with
      rows in it, and no row is written to a cache of no lines. */
  predicate Careful(w: Writer, script: seq<Command>)
    decreases |script|
  {
    script == [] || (CarefulStep(w, script[0]) && Careful(Next(w, script[0]), script[1..]))
  }

  predicate CarefulStep(w: Writer, command: Command) {
    match command
    case WriteRows(rows) => rows == [] || !NoRoom(w)
    case EndInterval => w.attached
    case FlushRows => true
    case CacheRows(_) => w.cached == []
  }

  predicate Sound(w: Writer) {
    w.cached == [] || (w.caching && |w.cached| < w.lines)
  }

  lemma {:induction false} CachedAccepts(w: Writer, rows: seq<Bytes>)
    requires Sound(w) && w.caching && w.lines > 0
    ensures Accepted(Cached(w, rows)) == Accepted(w) + AsData(rows) && Sound(Cached(w, rows))
    decreases |rows|
  {
    if rows == [] {
      assert AsData(rows) == [];
    } else {
      var w1 := w.(cached := w.cached + [rows[0]]);
      FlushSends(w1);
      CachedAccepts(if |w1.cached| >= w.lines then Flushed(w1) else w1, rows[1..]);
      assert AsData(w1.cached) == AsData(w.cached) + [Data(rows[0])];
      assert AsData(rows) == [Data(rows[0])] + AsData(rows[1..]);
    }
  }

  lemma NextAccepts(w: Writer, command: Command)
    requires Sound(w)
    ensures Sound(Next(w, command))
    ensures CarefulStep(w, command) ==> Accepted(Next(w, command)) == Accepted(w) + AskedFor(command)
    ensures !CarefulStep(w, command) ==> |Accepted(Next(w, command))| < |Accepted(w) + AskedFor(command)|
  {
    FlushSends(w);
    var none: seq<Item>, noRows: seq<Bytes> := [], [];
    assert Accepted(w) + none == Accepted(w) && AsData(noRows) == [];
    match command
    case WriteRows(rows) =>
      if w.caching && w.lines > 0 {
        CachedAccepts(w, rows);
      }
    case EndInterval =>
    case FlushRows =>
    case CacheRows(_) =>
  }

  lemma {:induction false} RunShrinks(w: Writer, script: seq<Command>)
    requires Sound(w)
    ensures |Accepted(Run(w, script))| <= |Accepted(w)| + |Asked(script)|
    ensures Careful(w, script) ==> Accepted(Run(w, script)) == Accepted(w) + Asked(script)
    ensures !Careful(w, script) ==> |Accepted(Run(w, script))| < |Accepted(w)| + |Asked(script)|
    decreases |script|
  {
    if script == [] {
      assert Accepted(w) + Asked(script) == Accepted(w);
    } else {
      NextAccepts(w, script[0]);
      RunShrinks(Next(w, script[0]), script[1..]);
      Assoc(Accepted(w), AskedFor(script[0]), Asked(script[1..]));
    }
  }

  /** What a run accepts is all that was asked for, in order, if and only if no
      interval was ended before there was a writer, no cache replaced with rows
      in it, and no row written to a cache of no lines. */
  lemma AcceptsAllIff(w: Writer, script: seq<Command>)
    requires Sound(w)
    ensures Accepted(Run(w, script)) == Accepted(w) + Asked(script) <==> Careful(w, script)
  {
    RunShrinks(w, script);
  }

  /** The breaks and rows that are dropped: a break as the first command, and a
      row in a cache that is replaced before it is full. */
  lemma CommandsAreDropped(row: Bytes, lines: nat)
    requires lines > 1
    ensures Accepted(Run(Writer([], [], false, 0, false), [EndInterval])) == [] && Asked([EndInterval]) == [Gap]
    ensures var script := [CacheRows(lines), WriteRows([row]), CacheRows(lines)];
      Accepted(Run(Writer([], [], false, 0, true), script)) == [] && Asked(script) == [Data(row)]
  {
    var w0, rows := Writer([], [], true, lines, true), [row];
    var one, none: seq<Command> := [CacheRows(lines)], [];
    var two := [WriteRows(rows)] + one;
    var script := [CacheRows(lines), WriteRows(rows), CacheRows(lines)];
    assert one[1..] == none && two[1..] == one && script[1..] == two && rows[1..] == [];
    assert Cached(w0, rows) == w0.(cached := rows) by {
      assert w0.cached + [row] == rows;
    }
    assert Asked(one) == [] && AskedFor(two[0]) == [Data(row)] && Asked(two) == [Data(row)];
    assert Run(w0, two) == Run(w0.(cached := rows), one) == w0;
  }

  // ---- what is sent at once ----------------------------------------------

  /** Rows without a cache are on the wire at once, and so is everything after a
      flush or a break; in a cache fewer rows than it has lines wait. */
  lemma LittleWaits(w: Writer, command: Command)
    requires Sound(w)
    ensures var v := Next(w, command);
      && (command.WriteRows? && !w.caching ==> v.sent == w.sent + AsData(command.rows))
      && (command.FlushRows? ==> v.sent == Accepted(w) && v.cached == [])
      && (command.EndInterval? && w.attached ==> v.sent == Accepted(w) + [Gap] && v.cached == [])
      && (v.cached == [] || |v.cached| < v.lines)
  {
    NextAccepts(w, command);
    FlushSends(w);
    var none: seq<Bytes>, nothing: seq<Item> := [], [];
    assert AsData(none) == nothing && w.sent + nothing == w.sent;
  }
}
