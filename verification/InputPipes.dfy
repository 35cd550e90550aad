/** The reading end of a pipe: bytes come in chunks of any size and are turned
    back into rows, one interval at a time. */
module InputPipes {
  import opened Arithmetic
  import opened Framing

  // ---- specification -----------------------------------------------------

  /** `stream` is what the reader has still to deliver, `byteBuffer` a partial
      row, `unprocessed` rows kept for later, `rows` the rows offered to the
      caller and not yet consumed. */
  datatype Pipe = Pipe(stream: Bytes, byteBuffer: Bytes, unprocessed: Bytes, rows: seq<Bytes>, brk: bool, reread: bool)

  datatype Outcome = Rows | EmptyPipe | BadLength

  function Least(a: nat, b: nat): nat { if a <= b then a else b }

  /** How many bytes the next read of the reader returns: `sizes` says how many
      have arrived, none standing for a timeout; after it all have. */
  function Arrived(sizes: seq<nat>, available: nat, limit: nat): nat {
    var most := Least(available, limit);
    if sizes == [] then most else Least(sizes[0], most)
  }

  datatype Gathered = Gathered(raw: Bytes, stream: Bytes, eof: bool)

  /** Read until there is at least a row or the reader is at its end. */
  function Gather(rb: nat, limit: nat, stream: Bytes, raw: Bytes, sizes: seq<nat>): Gathered
    requires limit > 0
    decreases |stream| + |sizes|
  {
    if stream == [] then Gathered(raw, stream, true)
    else
      var n := Arrived(sizes, |stream|, limit);
      var more, left := raw + stream[..n], stream[n..];
      if |more| < rb then Gather(rb, limit, left, more, if sizes == [] then [] else sizes[1..])
      else Gathered(more, left, false)
  }

  /** The whole rows of the bytes at hand, and the partial row after them. */
  function Join(rb: nat, byteBuffer: Bytes, raw: Bytes): (Bytes, Bytes)
    requires rb > 0
  {
    var extra := (|raw| + |byteBuffer|) % rb;
    if extra == 0 then (byteBuffer + raw, [])
    else if extra <= |raw| then (byteBuffer + raw[..|raw| - extra], raw[|raw| - extra..])
    else (byteBuffer, raw)
  }

  /** Bytes to look at now, and bytes to keep. */
  function TakeUp(unprocessed: Bytes, np: Bytes, maxBytes: nat): (Bytes, Bytes) {
    if unprocessed == [] then (np, [])
    else
      var all := unprocessed + np;
      if |all| <= maxBytes then (all, []) else (all[..maxBytes], all[maxBytes..])
  }

  /** The rows before the first token go to the caller, what follows it is
      kept. */
  function Offer(rb: nat, p: Pipe, np: Bytes, kept: Bytes): Pipe
    requires rb > 0 && Aligned(rb, np)
  {
    var rows := ToRows(rb, np);
    var k := TokenIndex(rb, rows);
    ToRowsWhole(rb, np);
    if k < |rows| then
      RowEnds(rb, np, k);
      p.(rows := p.rows + ToRows(rb, np[..k * rb]), unprocessed := np[(k + 1) * rb..] + kept, brk := true)
    else p.(rows := p.rows + rows, unprocessed := kept, brk := false)
  }

  function ReadFrom(rb: nat, size: nat, p: Pipe, sizes: seq<nat>): (Pipe, Outcome)
    requires rb > 0 && (p.reread || |p.rows| + |p.unprocessed| % rb <= size)
  {
    if p.reread then (p.(reread := false), Rows)
    else
      var maxRows := size - (|p.rows| + |p.unprocessed| % rb);
      if maxRows == 0 then (p, Rows)
      else
        MulOrder(1, maxRows, rb);
        var g := Gather(rb, maxRows * rb, p.stream, [], sizes);
        if g.eof && p.unprocessed == [] && p.rows == [] then (p.(stream := g.stream), EmptyPipe)
        else Ingest(rb, p.(stream := g.stream), g.raw, maxRows * rb)
  }

  /** What a read makes of the bytes it got. */
  function Ingest(rb: nat, p: Pipe, raw: Bytes, maxBytes: nat): (Pipe, Outcome)
    requires rb > 0
  {
    var (np, partial) := Join(rb, p.byteBuffer, raw);
    var (now, kept) := TakeUp(p.unprocessed, np, maxBytes);
    var p1 := p.(byteBuffer := partial);
    if |now| % rb != 0 then (p1, BadLength) else (Offer(rb, p1, now, kept), Rows)
  }

  function Consumed(p: Pipe, n: nat): Pipe
    requires n <= |p.rows|
  {
    p.(rows := p.rows[n..])
  }

  /** A read with room, once it has its bytes. */
  lemma ReadUnfolds(rb: nat, size: nat, p: Pipe, sizes: seq<nat>, g: Gathered)
    requires rb > 0 && !p.reread && |p.rows| + |p.unprocessed| % rb < size
    requires var limit := (size - (|p.rows| + |p.unprocessed| % rb)) * rb;
      limit > 0 && g == Gather(rb, limit, p.stream, [], sizes)
    ensures ReadFrom(rb, size, p, sizes)
         == if g.eof && p.unprocessed == [] && p.rows == [] then (p.(stream := g.stream), EmptyPipe)
            else Ingest(rb, p.(stream := g.stream), g.raw, (size - (|p.rows| + |p.unprocessed| % rb)) * rb)
  {
  }

  // ---- the pipe ----------------------------------------------------------

  class InputPipe {
    const rb: nat
    const size: nat
    var stream: Bytes
    var byteBuffer: Bytes
    var unprocessed: Bytes
    var buffer: array<Bytes>
    var lastIndex: nat
    var intervalBreak: bool
    var rereadNext: bool

    /** The buffer holds twice its nominal size. */
    ghost predicate Valid()
      reads this
    {
      rb > 0 && size > 0 && |byteBuffer| < rb && buffer.Length == 2 * size && lastIndex <= size + 1 <= buffer.Length
    }

    ghost function Model(): Pipe
      requires Valid()
      reads this, buffer
    {
      Pipe(stream, byteBuffer, unprocessed, buffer[..lastIndex], intervalBreak, rereadNext)
    }

    constructor (rb: nat, size: nat, stream: Bytes)
      requires rb > 0 && size > 0
      ensures Valid() && this.rb == rb && this.size == size && fresh(buffer)
      ensures Model() == Pipe(stream, [], [], [], false, false)
    {
      this.rb, this.size, this.stream := rb, size, stream;
      byteBuffer, unprocessed, lastIndex := [], [], 0;
      intervalBreak, rereadNext := false, false;
      buffer := new Bytes[2 * size](_ => []);
    }

    method RereadLast()
      requires Valid()
      modifies this`rereadNext
      ensures Valid() && Model() == old(Model()).(reread := true)
    {
      rereadNext := true;
    }

    method GatherBytes(limit: nat, sizes: seq<nat>) returns (raw: Bytes, eof: bool)
      requires Valid() && limit > 0
      modifies this`stream
      ensures Gathered(raw, stream, eof) == Gather(rb, limit, old(stream), [], sizes)
      ensures |raw| < rb + limit
    {
      GatherBound(rb, limit, stream, [], sizes);
      raw, eof := [], false;
      var left := sizes;
      while true
        invariant Gather(rb, limit, stream, raw, left) == Gather(rb, limit, old(stream), [], sizes)
        decreases |stream| + |left|
      {
        if |stream| == 0 {
          return raw, true;
        }
        var n := Arrived(left, |stream|, limit);
        raw := raw + stream[..n];
        stream := stream[n..];
        left := if left == [] then [] else left[1..];
        if |raw| >= rb {
          return raw, false;
        }
      }
    }

    /** Everything offered so far and not yet consumed, with what has arrived
        up to the next break. A caller must not leave more rows than the
        nominal size of the buffer. */
    method Read(sizes: seq<nat>) returns (outcome: Outcome, rows: seq<Bytes>)
      requires Valid() && (rereadNext || lastIndex + |unprocessed| % rb <= size)
      modifies this`stream, this`byteBuffer, this`unprocessed, this`lastIndex, this`intervalBreak, this`rereadNext,
               buffer
      ensures Valid()
      ensures (Model(), outcome) == ReadFrom(rb, size, old(Model()), sizes)
      ensures outcome == Rows ==> rows == buffer[..lastIndex]
    {
      if rereadNext {
        rereadNext := false;
        return Rows, buffer[..lastIndex];
      }
      var maxRows := size - (lastIndex + |unprocessed| % rb);
      if maxRows == 0 {
        return Rows, buffer[..lastIndex];
      }
      MulOrder(1, maxRows, rb);
      ghost var before := Model();
      var raw, eof := GatherBytes(maxRows * rb, sizes);
      ReadUnfolds(rb, size, before, sizes, Gathered(raw, stream, eof));
      if eof && |unprocessed| == 0 && lastIndex == 0 {
        return EmptyPipe, [];
      }
      outcome := IngestBytes(raw, maxRows);
      rows := buffer[..lastIndex];
    }

    /** Whether the pipe is at its end; if not, the next read returns what this
        one found. */
    method IsEmpty(sizes: seq<nat>) returns (empty: bool, failed: bool)
      requires Valid() && (rereadNext || lastIndex + |unprocessed| % rb <= size)
      modifies this`stream, this`byteBuffer, this`unprocessed, this`lastIndex, this`intervalBreak, this`rereadNext,
               buffer
      ensures Valid()
      ensures old(rereadNext) ==> !empty && !failed && Model() == old(Model())
      ensures !old(rereadNext) ==>
        var (p, outcome) := ReadFrom(rb, size, old(Model()), sizes);
        && empty == (outcome == EmptyPipe) && failed == (outcome == BadLength)
        && Model() == if outcome == Rows then p.(reread := true) else p
    {
      if rereadNext {
        return false, false;
      }
      var outcome, rows := Read(sizes);
      if outcome == Rows {
        RereadLast();
      }
      return outcome == EmptyPipe, outcome == BadLength;
    }

    method IngestBytes(raw: Bytes, maxRows: nat) returns (outcome: Outcome)
      requires Valid() && |raw| < rb + maxRows * rb && lastIndex + maxRows <= size
      modifies this`byteBuffer, this`unprocessed, this`lastIndex, this`intervalBreak, buffer
      ensures Valid()
      ensures (Model(), outcome) == Ingest(rb, old(Model()), raw, maxRows * rb)
    {
      var (np, partial) := Join(rb, byteBuffer, raw);
      JoinBound(rb, byteBuffer, raw);
      byteBuffer := partial;
      var (now, kept) := TakeUp(unprocessed, np, maxRows * rb);
      if |now| % rb != 0 {
        return BadLength;
      }
      OfferBound(rb, now, maxRows);
      OfferRows(now, kept, maxRows);
      return Rows;
    }

    /** The part of `Read` that looks for a break and fills the buffer. */
    method OfferRows(np: Bytes, kept: Bytes, maxRows: nat)
      requires Valid() && Aligned(rb, np) && |ToRows(rb, np)| <= maxRows + 1 && lastIndex + maxRows <= size
      modifies this`unprocessed, this`lastIndex, this`intervalBreak, buffer
      ensures Valid() && Model() == Offer(rb, old(Model()), np, kept)
    {
      intervalBreak := false;
      unprocessed := kept;
      var loc := FindIntervalToken(rb, np);
      ToRowsWhole(rb, np);
      var data := np;
      if loc.Some? {
        unprocessed := np[loc.value.1..] + kept;
        data := np[..loc.value.0];
        intervalBreak := true;
        FewerRows(rb, np, TokenIndex(rb, ToRows(rb, np)));
      }
      Append(ToRows(rb, data));
    }

    method Append(rows: seq<Bytes>)
      requires Valid() && lastIndex + |rows| <= size + 1
      modifies this`lastIndex, buffer
      ensures Valid() && buffer[..lastIndex] == old(buffer[..lastIndex]) + rows
    {
      var start := lastIndex;
      for i := 0 to |rows|
        invariant buffer[..start + i] == old(buffer[..lastIndex]) + rows[..i]
      {
        buffer[start + i] := rows[i];
        assert buffer[..start + i + 1] == buffer[..start + i] + [rows[i]];
        assert rows[..i + 1] == rows[..i] + [rows[i]];
      }
      assert rows[..|rows|] == rows;
      lastIndex := start + |rows|;
    }

    /** Drop rows from the front: the buffer is rolled back by their number. */
    method Consume(n: int) returns (ok: bool)
      requires Valid()
      modifies this`buffer, this`lastIndex
      ensures Valid() && (fresh(buffer) || buffer == old(buffer))
      ensures ok == (0 <= n <= old(lastIndex))
      ensures Model() == if ok then Consumed(old(Model()), n) else old(Model())
    {
      if n == 0 {
        return true;
      }
      if n < 0 || n > lastIndex {
        return false;
      }
      buffer := Roll(buffer, n);
      lastIndex := lastIndex - n;
      return true;
    }

    /** The array with its first n elements moved to the end. */
    static method Roll(source: array<Bytes>, n: nat) returns (rolled: array<Bytes>)
      requires n <= source.Length
      ensures fresh(rolled) && rolled.Length == source.Length
      ensures rolled[..] == source[n..] + source[..n]
    {
      var rest := source[n..] + source[..n];
      rolled := new Bytes[source.Length](i requires 0 <= i < |rest| => rest[i]);
    }
  }

  lemma {:induction false} GatherBound(rb: nat, limit: nat, stream: Bytes, raw: Bytes, sizes: seq<nat>)
    requires limit > 0 && rb > 0 && |raw| < rb
    ensures |Gather(rb, limit, stream, raw, sizes).raw| < rb + limit
    decreases |stream| + |sizes|
  {
    if stream != [] {
      var n := Arrived(sizes, |stream|, limit);
      var more := raw + stream[..n];
      if |more| < rb {
        GatherBound(rb, limit, stream[n..], more, if sizes == [] then [] else sizes[1..]);
      }
    }
  }

  lemma JoinBound(rb: nat, byteBuffer: Bytes, raw: Bytes)
    requires rb > 0 && |byteBuffer| < rb
    ensures var (np, partial) := Join(rb, byteBuffer, raw);
      |partial| < rb && |np| <= |byteBuffer| + |raw|
  {
  }

  lemma OfferBound(rb: nat, np: Bytes, maxRows: nat)
    requires rb > 0 && Aligned(rb, np) && |np| < maxRows * rb + 2 * rb
    ensures |ToRows(rb, np)| <= maxRows + 1
  {
    ToRowsWhole(rb, np);
    var n := |ToRows(rb, np)|;
    if n >= maxRows + 2 {
      MulOrder(maxRows + 2, n, rb);
    }
    assert (maxRows + 2) * rb == maxRows * rb + 2 * rb;
  }

  lemma FewerRows(rb: nat, np: Bytes, k: nat)
    requires rb > 0 && Aligned(rb, np) && k < |ToRows(rb, np)|
    ensures 0 <= k * rb <= |np| && Aligned(rb, np[..k * rb]) && |ToRows(rb, np[..k * rb])| == k
  {
    RowEnds(rb, np, k);
    ModUnique(k * rb, rb, k, 0);
    ToRowsWhole(rb, np[..k * rb]);
    SameFactor(|ToRows(rb, np[..k * rb])|, k, rb);
  }

  lemma SameFactor(a: nat, b: nat, d: nat)
    requires d > 0 && a * d == b * d
    ensures a == b
  {
    assert (a - b) * d == 0;
    MulGrows(a - b, d);
  }
}
