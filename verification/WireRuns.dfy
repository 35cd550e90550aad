/** What a reader recovers from the wire, however the bytes arrive. */
module WireRuns {
  import opened Arithmetic
  import opened Segments
  import opened Framing
  import opened InputPipes

  /** All bytes that have not been consumed, in order. */
  function Content(p: Pipe): Bytes {
    Concat(p.rows) + p.unprocessed + p.byteBuffer + p.stream
  }

  ghost predicate NoTokens(rb: nat, rows: seq<Bytes>) {
    forall i :: 0 <= i < |rows| ==> |rows[i]| == rb && rows[i] != Token(rb)
  }

  ghost predicate Sound(rb: nat, p: Pipe) {
    && rb > 0
    && |p.unprocessed| % rb == 0
    && |p.byteBuffer| < rb
    && (|p.byteBuffer| + |p.stream|) % rb == 0
    && NoTokens(rb, p.rows)
  }

  // ---- one read ----------------------------------------------------------

  lemma {:induction false} GatherSplits(rb: nat, limit: nat, stream: Bytes, raw: Bytes, sizes: seq<nat>)
    requires limit > 0 && |raw| < rb
    ensures var g := Gather(rb, limit, stream, raw, sizes);
      && raw + stream == g.raw + g.stream
      && (g.eof <==> |raw| + |stream| < rb)
      && (if g.eof then g.stream == [] else |g.raw| >= rb)
    decreases |stream| + |sizes|
  {
    if stream != [] {
      var n := Arrived(sizes, |stream|, limit);
      var more := raw + stream[..n];
      assert raw + stream == more + stream[n..];
      if |more| < rb {
        GatherSplits(rb, limit, stream[n..], more, if sizes == [] then [] else sizes[1..]);
      }
    }
  }

  lemma JoinSplits(rb: nat, byteBuffer: Bytes, raw: Bytes, stream: Bytes)
    requires rb > 0 && |byteBuffer| < rb && (|raw| >= rb || stream == [])
    requires (|byteBuffer| + (|raw| + |stream|)) % rb == 0
    ensures var (np, partial) := Join(rb, byteBuffer, raw);
      && np + partial == byteBuffer + raw
      && Aligned(rb, np) && |partial| < rb && (|partial| + |stream|) % rb == 0
      && (|raw| >= rb ==> np != [])
  {
    var total := |raw| + |byteBuffer|;
    var extra := total % rb;
    var (np, partial) := Join(rb, byteBuffer, raw);
    assert extra <= |raw| by {
      if stream == [] {
        assert extra == 0;
      }
    }
    ModUnique(total - extra, rb, total / rb, 0);
    ModAdd(total - extra, extra + |stream|, rb);
    assert |np| == total - extra && |partial| == extra;
  }

  lemma TakeUpSplits(rb: nat, unprocessed: Bytes, np: Bytes, maxRows: nat)
    requires rb > 0 && Aligned(rb, unprocessed) && Aligned(rb, np) && maxRows > 0
    ensures maxRows * rb > 0
    ensures var (now, kept) := TakeUp(unprocessed, np, maxRows * rb);
      && now + kept == unprocessed + np && Aligned(rb, now) && Aligned(rb, kept)
      && (unprocessed + np != [] ==> now != [])
  {
    MulGrows(maxRows, rb);
    ModAdd(|unprocessed|, |np|, rb);
    ModUnique(maxRows * rb, rb, maxRows, 0);
    var all := unprocessed + np;
    if unprocessed != [] && |all| > maxRows * rb {
      ModAdd(maxRows * rb, |all| - maxRows * rb, rb);
    }
  }

  lemma ConcatRows(a: seq<Bytes>, b: seq<Bytes>)
    ensures Concat(a + b) == Concat(a) + Concat(b)
  {
    ConcatAppend(a, b);
  }

  /** The rows offered are those before the first token; the token itself is
      taken off the wire. */
  lemma OfferSplits(rb: nat, p: Pipe, np: Bytes, kept: Bytes)
    requires rb > 0 && Aligned(rb, np) && Aligned(rb, kept) && NoTokens(rb, p.rows)
    ensures var q := Offer(rb, p, np, kept);
      && Concat(q.rows) + (if q.brk then Token(rb) else []) + q.unprocessed == Concat(p.rows) + np + kept
      && Aligned(rb, q.unprocessed) && NoTokens(rb, q.rows) && p.rows <= q.rows
      && q.byteBuffer == p.byteBuffer && q.stream == p.stream && q.reread == p.reread
      && (np != [] ==> q.brk || |q.rows| > |p.rows|)
  {
    var rows := ToRows(rb, np);
    var k := TokenIndex(rb, rows);
    ToRowsWhole(rb, np);
    if k < |rows| {
      OfferBreak(rb, p, np, kept, k);
    } else {
      ConcatRows(p.rows, rows);
      assert Concat(p.rows) + np + [] == Concat(p.rows) + np;
      forall i | 0 <= i < |rows| ensures |rows[i]| == rb && rows[i] != Token(rb) {
      }
      if np != [] {
        SmallAligned(rb, np);
      }
    }
  }

  /** The bytes before, at and after the first token. */
  lemma TokenSplits(rb: nat, np: Bytes, k: nat) returns (head: Bytes, rest: Bytes)
    requires rb > 0 && Aligned(rb, np) && k < |ToRows(rb, np)| && k == TokenIndex(rb, ToRows(rb, np))
    ensures 0 <= k * rb <= (k + 1) * rb <= |np| && head == np[..k * rb] && rest == np[(k + 1) * rb..]
    ensures np == head + Token(rb) + rest && Aligned(rb, head) && Aligned(rb, rest)
  {
    RowEnds(rb, np, k);
    FewerRows(rb, np, k);
    head, rest := np[..k * rb], np[(k + 1) * rb..];
    assert np[k * rb..(k + 1) * rb] == Token(rb);
    ModUnique((k + 1) * rb, rb, k + 1, 0);
    ModAdd((k + 1) * rb, |rest|, rb);
  }

  lemma RowsBeforeToken(rb: nat, np: Bytes, k: nat)
    requires rb > 0 && Aligned(rb, np) && k < |ToRows(rb, np)| && k == TokenIndex(rb, ToRows(rb, np))
    ensures 0 <= k * rb <= |np| && NoTokens(rb, ToRows(rb, np[..k * rb]))
  {
    var rows := ToRows(rb, np);
    RowEnds(rb, np, k);
    FewerRows(rb, np, k);
    ToRowsWhole(rb, np);
    var head, tail := np[..k * rb], np[k * rb..];
    assert head + tail == np;
    ToRowsAppend(rb, head, tail);
    var first := ToRows(rb, head);
    forall i | 0 <= i < |first| ensures |first[i]| == rb && first[i] != Token(rb) {
      assert first[i] == rows[i];
    }
  }

  lemma {:induction false} OfferBreak(rb: nat, p: Pipe, np: Bytes, kept: Bytes, k: nat)
    requires rb > 0 && Aligned(rb, np) && Aligned(rb, kept) && NoTokens(rb, p.rows)
    requires k == TokenIndex(rb, ToRows(rb, np)) && k < |ToRows(rb, np)|
    ensures var q := Offer(rb, p, np, kept);
      && q.brk && Concat(q.rows) + Token(rb) + q.unprocessed == Concat(p.rows) + np + kept
      && Aligned(rb, q.unprocessed) && NoTokens(rb, q.rows) && p.rows <= q.rows
  {
    var head, rest := TokenSplits(rb, np, k);
    RowsBeforeToken(rb, np, k);
    ToRowsWhole(rb, head);
    ModAdd(|rest|, |kept|, rb);
    ConcatRows(p.rows, ToRows(rb, head));
    BreakBytes(Concat(p.rows), head, Token(rb), rest, kept);
  }

  lemma BreakBytes(x: Bytes, head: Bytes, token: Bytes, rest: Bytes, kept: Bytes)
    ensures x + head + token + (rest + kept) == x + (head + token + rest) + kept
  {
  }

  /** All bytes not consumed after a read that may have reported a break: the
      break stands for the token just after the rows offered. */
  function Remaining(rb: nat, q: Pipe): Bytes {
    Concat(q.rows) + (if q.brk then Token(rb) else []) + q.unprocessed + q.byteBuffer + q.stream
  }

  lemma Rearrange(x: Bytes, u: Bytes, bb: Bytes, raw: Bytes, st: Bytes, np: Bytes, partial: Bytes, now: Bytes,
                  kept: Bytes, offered: Bytes)
    requires now + kept == u + np && np + partial == bb + raw && offered == x + now + kept
    ensures offered + partial + st == x + u + bb + raw + st
  {
    calc {
      offered + partial;
      x + (now + kept) + partial;
      x + (u + np) + partial;
      x + u + (np + partial);
      x + u + (bb + raw);
      x + u + bb + raw;
    }
  }

  lemma IngestConserves(rb: nat, p: Pipe, raw: Bytes, maxRows: nat)
    requires rb > 0 && Aligned(rb, p.unprocessed) && |p.byteBuffer| < rb && NoTokens(rb, p.rows) && maxRows > 0
    requires |raw| >= rb || p.stream == []
    requires (|p.byteBuffer| + (|raw| + |p.stream|)) % rb == 0
    ensures var (q, o) := Ingest(rb, p, raw, maxRows * rb);
      && o == Rows && Sound(rb, q) && q.reread == p.reread && p.rows <= q.rows
      && Remaining(rb, q) == Concat(p.rows) + p.unprocessed + p.byteBuffer + raw + p.stream
      && (|raw| >= rb || p.unprocessed != [] ==> q.brk || |q.rows| > |p.rows|)
  {
    JoinSplits(rb, p.byteBuffer, raw, p.stream);
    var (np, partial) := Join(rb, p.byteBuffer, raw);
    TakeUpSplits(rb, p.unprocessed, np, maxRows);
    var (now, kept) := TakeUp(p.unprocessed, np, maxRows * rb);
    var p1 := p.(byteBuffer := partial);
    OfferSplits(rb, p1, now, kept);
    var q := Offer(rb, p1, now, kept);
    Rearrange(Concat(p.rows), p.unprocessed, p.byteBuffer, raw, p.stream, np, partial, now, kept,
              Concat(q.rows) + (if q.brk then Token(rb) else []) + q.unprocessed);
  }

  ghost predicate Ready(rb: nat, size: nat, p: Pipe) {
    Sound(rb, p) && !p.reread && |p.rows| <= size && (p.rows != [] ==> !p.brk) && size > 0
  }

  ghost predicate Kept(rb: nat, p: Pipe, q: Pipe) {
    && Sound(rb, q) && !q.reread && p.rows <= q.rows
    && Remaining(rb, q) == Content(p)
    && (p.rows == [] ==> q.brk || q.rows != [])
  }

  lemma FullConserves(rb: nat, p: Pipe)
    requires Sound(rb, p) && !p.reread && !p.brk && p.rows != []
    ensures Kept(rb, p, p)
  {
    assert Concat(p.rows) + [] == Concat(p.rows);
  }

  lemma GatheredConserves(rb: nat, p: Pipe, maxRows: nat, g: Gathered)
    requires Sound(rb, p) && !p.reread && maxRows > 0
    requires p.stream == g.raw + g.stream && (if g.eof then g.stream == [] else |g.raw| >= rb)
    requires !(g.eof && p.unprocessed == [] && p.rows == [])
    ensures var (q, o) := Ingest(rb, p.(stream := g.stream), g.raw, maxRows * rb);
      o == Rows && Kept(rb, p, q)
  {
    IngestConserves(rb, p.(stream := g.stream), g.raw, maxRows);
    assert Concat(p.rows) + p.unprocessed + p.byteBuffer + (g.raw + g.stream)
        == Concat(p.rows) + p.unprocessed + p.byteBuffer + g.raw + g.stream;
  }

  /** A read neither loses nor adds a byte, unless it ends the pipe, and it
      ends the pipe exactly when nothing is at hand and less than a row is
      still to come. */
  lemma ReadConserves(rb: nat, size: nat, p: Pipe, sizes: seq<nat>)
    requires Ready(rb, size, p)
    ensures var (q, o) := ReadFrom(rb, size, p, sizes);
      && o != BadLength
      && (o == EmptyPipe <==> p.rows == [] && p.unprocessed == [] && |p.stream| < rb)
      && (o == Rows ==> Kept(rb, p, q))
  {
    var maxRows := size - |p.rows|;
    if maxRows == 0 {
      FullConserves(rb, p);
    } else {
      MulOrder(1, maxRows, rb);
      var g := Gather(rb, maxRows * rb, p.stream, [], sizes);
      GatherSplits(rb, maxRows * rb, p.stream, [], sizes);
      assert [] + p.stream == p.stream;
      if !(g.eof && p.unprocessed == [] && p.rows == []) {
        GatheredConserves(rb, p, maxRows, g);
      }
    }
  }

  lemma RowCount(rb: nat, np: Bytes, most: nat)
    requires rb > 0 && Aligned(rb, np) && |np| < (most + 1) * rb
    ensures |ToRows(rb, np)| <= most
  {
    ToRowsWhole(rb, np);
    if |ToRows(rb, np)| > most {
      MulOrder(most + 1, |ToRows(rb, np)|, rb);
    }
  }

  lemma OfferFits(rb: nat, p: Pipe, np: Bytes, kept: Bytes, most: nat)
    requires rb > 0 && Aligned(rb, np) && |np| < (most + 1) * rb
    ensures |Offer(rb, p, np, kept).rows| <= |p.rows| + most
  {
    RowCount(rb, np, most);
    var k := TokenIndex(rb, ToRows(rb, np));
    if k < |ToRows(rb, np)| {
      FewerRows(rb, np, k);
    }
  }

  lemma IngestFits(rb: nat, p: Pipe, raw: Bytes, maxRows: nat, spare: nat)
    requires rb > 0 && |p.byteBuffer| < rb && |raw| <= (maxRows + spare) * rb
    ensures |Ingest(rb, p, raw, maxRows * rb).0.rows| <= |p.rows| + maxRows + spare
  {
    var (np, partial) := Join(rb, p.byteBuffer, raw);
    var (now, kept) := TakeUp(p.unprocessed, np, maxRows * rb);
    assert (maxRows + spare + 1) * rb == (maxRows + spare) * rb + rb;
    MulOrder(maxRows, maxRows + spare, rb);
    if |now| % rb == 0 {
      OfferFits(rb, p.(byteBuffer := partial), now, kept, maxRows + spare);
    }
  }

  /** The buffer holds its nominal number of rows after a read, or one more if
      the row it waited for came in pieces. */
  lemma RowsFit(rb: nat, size: nat, p: Pipe, sizes: seq<nat>)
    requires Ready(rb, size, p)
    ensures |ReadFrom(rb, size, p, sizes).0.rows| <= size + 1
    ensures Plenty(rb, size, p, sizes) ==> |ReadFrom(rb, size, p, sizes).0.rows| <= size
  {
    var maxRows := size - |p.rows|;
    if maxRows > 0 {
      MulOrder(1, maxRows, rb);
      var g := Gather(rb, maxRows * rb, p.stream, [], sizes);
      GatherBound(rb, maxRows * rb, p.stream, [], sizes);
      if !(g.eof && p.unprocessed == [] && p.rows == []) {
        assert (maxRows + 1) * rb == maxRows * rb + rb;
        IngestFits(rb, p.(stream := g.stream), g.raw, maxRows, 1);
        if |g.raw| <= maxRows * rb {
          IngestFits(rb, p.(stream := g.stream), g.raw, maxRows, 0);
        }
      }
    }
  }

  /** The first chunk of a read is at least a row, unless there is no more. */
  predicate Plenty(rb: nat, size: nat, p: Pipe, sizes: seq<nat>) {
    p.stream == [] || |p.rows| >= size || Arrived(sizes, |p.stream|, (size - |p.rows|) * rb) >= rb
  }

  /** Asking whether the pipe is empty costs nothing: if it is not, the next
      read gives what a read instead would have given, whatever has arrived in
      the meantime. */
  lemma AskingIsFree(rb: nat, size: nat, p: Pipe, sizes: seq<nat>, later: seq<nat>)
    requires Ready(rb, size, p)
    ensures var (q, o) := ReadFrom(rb, size, p, sizes);
      o == Rows ==> ReadFrom(rb, size, q.(reread := true), later) == (q, Rows)
  {
    ReadConserves(rb, size, p, sizes);
  }

  // ---- whole runs --------------------------------------------------------

  /** One turn of a reader: what has arrived when, and how many of the rows
      offered it would leave in the pipe. */
  datatype Turn = Turn(sizes: seq<nat>, keep: nat)

  /** The rows and breaks taken, the pipe after them, and whether the pipe
      said that it is empty. */
  datatype Received = Received(log: seq<Item>, left: Pipe, ended: bool)

  /** The rows a turn takes: all of them when an interval ended, and so many
      that the buffer is not overfull. */
  function TakenRows(size: nat, q: Pipe, keep: nat): (n: nat)
    ensures n <= |q.rows|
  {
    if q.brk then |q.rows| else |q.rows| - Least(Least(keep, size), |q.rows|)
  }

  function Taken(q: Pipe, n: nat): seq<Item>
    requires n <= |q.rows|
  {
    AsData(q.rows[..n]) + (if q.brk then [Gap] else [])
  }

  lemma TakenBytes(rb: nat, q: Pipe, n: nat)
    requires n <= |q.rows| && (q.brk ==> n == |q.rows|)
    ensures Encode(rb, Taken(q, n)) + Content(Consumed(q, n)) == Remaining(rb, q)
  {
    var head, rest := q.rows[..n], q.rows[n..];
    assert head + rest == q.rows;
    ConcatRows(head, rest);
    EncodeData(rb, head);
    EncodeAppend(rb, AsData(head), if q.brk then [Gap] else []);
    if q.brk {
      EncodeOne(rb, Gap);
      assert rest == [];
    } else {
      assert AsData(head) + [] == AsData(head);
    }
  }

  lemma TakenClean(rb: nat, q: Pipe, n: nat)
    requires n <= |q.rows| && NoTokens(rb, q.rows)
    ensures Clean(rb, Taken(q, n)) && NoTokens(rb, q.rows[n..])
  {
    var items := Taken(q, n);
    forall i | 0 <= i < |items| ensures CleanItem(rb, items[i]) {
      assert i < n ==> items[i] == Data(q.rows[i]);
    }
  }

  /** Taking rows after a read moves bytes from the pipe to the log. */
  lemma TurnKeeps(rb: nat, size: nat, p: Pipe, q: Pipe, keep: nat)
    requires Kept(rb, p, q) && size > 0
    ensures var n := TakenRows(size, q, keep);
      && Ready(rb, size, Consumed(q, n))
      && Encode(rb, Taken(q, n)) + Content(Consumed(q, n)) == Content(p)
      && Clean(rb, Taken(q, n))
      && (keep == 0 ==> Consumed(q, n).rows == [] && Taken(q, n) != [])
  {
    var n := TakenRows(size, q, keep);
    TakenBytes(rb, q, n);
    TakenClean(rb, q, n);
  }

  /** A reader that takes turns until the pipe is empty or it runs out of
      turns. */
  ghost function Drain(rb: nat, size: nat, p: Pipe, log: seq<Item>, turns: seq<Turn>): Received
    requires Ready(rb, size, p)
    decreases |turns|
  {
    if turns == [] then Received(log, p, false)
    else
      ReadConserves(rb, size, p, turns[0].sizes);
      var (q, o) := ReadFrom(rb, size, p, turns[0].sizes);
      if o == EmptyPipe then Received(log, p, true)
      else
        TurnKeeps(rb, size, p, q, turns[0].keep);
        var n := TakenRows(size, q, turns[0].keep);
        Drain(rb, size, Consumed(q, n), log + Taken(q, n), turns[1..])
  }

  ghost predicate Ended(rb: nat, r: Received) {
    r.ended ==> r.left.rows == [] && r.left.unprocessed == [] && |r.left.stream| < rb
  }

  lemma CleanAppend(rb: nat, a: seq<Item>, b: seq<Item>)
    requires Clean(rb, a) && Clean(rb, b)
    ensures Clean(rb, a + b)
  {
    forall i | 0 <= i < |a + b| ensures CleanItem(rb, (a + b)[i]) {
    }
  }

  lemma MoveBytes(rb: nat, log: seq<Item>, taken: seq<Item>, left: Bytes, content: Bytes)
    requires Encode(rb, taken) + left == content
    ensures Encode(rb, log + taken) + left == Encode(rb, log) + content
  {
    EncodeAppend(rb, log, taken);
  }

  /** Along a whole run, what was taken and what is left are what was sent. */
  lemma {:induction false} DrainConserves(rb: nat, size: nat, p: Pipe, log: seq<Item>, turns: seq<Turn>)
    requires Ready(rb, size, p) && Clean(rb, log)
    ensures var r := Drain(rb, size, p, log, turns);
      && Encode(rb, r.log) + Content(r.left) == Encode(rb, log) + Content(p)
      && Clean(rb, r.log) && Ready(rb, size, r.left) && Ended(rb, r)
    decreases |turns|
  {
    if turns != [] {
      ReadConserves(rb, size, p, turns[0].sizes);
      var (q, o) := ReadFrom(rb, size, p, turns[0].sizes);
      if o != EmptyPipe {
        TurnKeeps(rb, size, p, q, turns[0].keep);
        var n := TakenRows(size, q, turns[0].keep);
        CleanAppend(rb, log, Taken(q, n));
        MoveBytes(rb, log, Taken(q, n), Content(Consumed(q, n)), Content(p));
        DrainConserves(rb, size, Consumed(q, n), log + Taken(q, n), turns[1..]);
      }
    }
  }

  function Opened(rb: nat, items: seq<Item>): Pipe {
    Pipe(Encode(rb, items), [], [], [], false, false)
  }

  lemma OpenedReady(rb: nat, size: nat, items: seq<Item>)
    requires rb > 0 && size > 0 && Clean(rb, items)
    ensures Ready(rb, size, Opened(rb, items)) && Content(Opened(rb, items)) == Encode(rb, items)
  {
    EncodeAligned(rb, items);
  }

  /** Nothing but part of a row is left: the bytes lost are those of exactly
      the last item, or none. */
  lemma {:induction false} LastItemLost(rb: nat, got: seq<Item>, left: Pipe, sent: seq<Item>)
    requires Sound(rb, left) && Clean(rb, got) && Clean(rb, sent)
    requires left.rows == [] && left.unprocessed == [] && |left.stream| < rb
    requires Encode(rb, got) + Content(left) == Encode(rb, sent)
    ensures got <= sent && |sent| == |got| + (if left.stream == [] then 0 else 1)
  {
    var lost := left.byteBuffer + left.stream;
    assert Content(left) == lost;
    PrefixReceived(rb, got, lost, sent);
    if left.stream == [] {
      ModUnique(|lost|, rb, 0, |lost|);
    } else {
      if |lost| < rb {
        ModUnique(|lost|, rb, 0, |lost|);
      } else if |lost| > rb {
        ModUnique(|lost|, rb, 1, |lost| - rb);
      }
      OneMore(rb, got, lost, sent);
    }
  }

  lemma OneMore(rb: nat, got: seq<Item>, lost: Bytes, sent: seq<Item>)
    requires rb > 0 && Clean(rb, got) && Clean(rb, sent) && got <= sent
    requires Encode(rb, got) + lost == Encode(rb, sent) && |lost| == rb
    ensures |sent| == |got| + 1
  {
    EncodeAligned(rb, got);
    DecodeEncode(rb, got);
    DecodeEncode(rb, sent);
    DecodeAppend(rb, Encode(rb, got), lost);
    var rest := lost[rb..];
    assert rest == [] && |Decode(rb, rest)| == 0;
    assert |Decode(rb, lost)| == 1;
  }

  /** However the bytes are cut into chunks, and whatever the reader leaves in
      the pipe within an interval: it receives the rows and breaks sent, in
      order, and once the pipe is empty it has all of them if and only if the
      last read did not begin with part of a row still to come. Otherwise it
      lacks exactly the last one. */
  lemma WireRoundTrip(rb: nat, size: nat, items: seq<Item>, turns: seq<Turn>)
    requires rb > 0 && size > 0 && Clean(rb, items)
    ensures Ready(rb, size, Opened(rb, items))
    ensures var r := Drain(rb, size, Opened(rb, items), [], turns);
      && r.log <= items
      && (r.ended ==> (r.log == items <==> r.left.stream == []))
      && (r.ended && r.log != items ==> r.log == items[..|items| - 1])
  {
    OpenedReady(rb, size, items);
    var p := Opened(rb, items);
    var none: seq<Item> := [];
    DrainConserves(rb, size, p, none, turns);
    var r := Drain(rb, size, p, none, turns);
    assert Encode(rb, none) + Content(p) == Encode(rb, items);
    PrefixReceived(rb, r.log, Content(r.left), items);
    if r.ended {
      LastItemLost(rb, r.log, r.left, items);
    }
  }

  // ---- nothing is lost ---------------------------------------------------

  /** Each read of a run finds at least a row, unless there is nothing more. */
  ghost predicate FullReads(rb: nat, size: nat, p: Pipe, turns: seq<Turn>)
    requires Ready(rb, size, p)
    decreases |turns|
  {
    turns == [] ||
    (ReadConserves(rb, size, p, turns[0].sizes);
     var (q, o) := ReadFrom(rb, size, p, turns[0].sizes);
     && Plenty(rb, size, p, turns[0].sizes)
     && (o == EmptyPipe ||
         (TurnKeeps(rb, size, p, q, turns[0].keep);
          FullReads(rb, size, Consumed(q, TakenRows(size, q, turns[0].keep)), turns[1..]))))
  }

  lemma {:induction false} FullReadsLast(rb: nat, size: nat, p: Pipe, log: seq<Item>, turns: seq<Turn>)
    requires Ready(rb, size, p) && FullReads(rb, size, p, turns)
    ensures var r := Drain(rb, size, p, log, turns);
      r.ended ==> r.left.stream == []
    decreases |turns|
  {
    if turns != [] {
      ReadConserves(rb, size, p, turns[0].sizes);
      var (q, o) := ReadFrom(rb, size, p, turns[0].sizes);
      if o != EmptyPipe {
        TurnKeeps(rb, size, p, q, turns[0].keep);
        var n := TakenRows(size, q, turns[0].keep);
        FullReadsLast(rb, size, Consumed(q, n), log + Taken(q, n), turns[1..]);
      }
    }
  }

  /** If each read of the stream brings at least a row, a reader that reaches
      the end has everything. */
  lemma FullReadsSuffice(rb: nat, size: nat, items: seq<Item>, turns: seq<Turn>)
    requires rb > 0 && size > 0 && Clean(rb, items)
    requires Ready(rb, size, Opened(rb, items)) && FullReads(rb, size, Opened(rb, items), turns)
    ensures var r := Drain(rb, size, Opened(rb, items), [], turns);
      r.ended ==> r.log == items
  {
    WireRoundTrip(rb, size, items, turns);
    FullReadsLast(rb, size, Opened(rb, items), [], turns);
  }

  /** Chunks that are whole numbers of rows; none may be a timeout. */
  ghost predicate RowChunks(rb: nat, sizes: seq<nat>)
    requires rb > 0
  {
    forall i :: 0 <= i < |sizes| ==> sizes[i] % rb == 0
  }

  lemma {:induction false} GatherRows(rb: nat, limit: nat, stream: Bytes, raw: Bytes, sizes: seq<nat>)
    requires limit > 0 && rb > 0 && limit % rb == 0 && RowChunks(rb, sizes) && Aligned(rb, stream) && Aligned(rb, raw)
    ensures var g := Gather(rb, limit, stream, raw, sizes);
      Aligned(rb, g.raw) && Aligned(rb, g.stream)
    decreases |stream| + |sizes|
  {
    if stream != [] {
      var n := Arrived(sizes, |stream|, limit);
      assert n % rb == 0;
      ModAdd(|raw|, n, rb);
      ModAdd(n, |stream| - n, rb);
      var more := raw + stream[..n];
      if |more| < rb {
        GatherRows(rb, limit, stream[n..], more, if sizes == [] then [] else sizes[1..]);
      }
    }
  }

  lemma ReadKeepsRows(rb: nat, size: nat, p: Pipe, sizes: seq<nat>)
    requires Ready(rb, size, p) && RowChunks(rb, sizes) && Aligned(rb, p.stream)
    ensures Aligned(rb, ReadFrom(rb, size, p, sizes).0.stream)
  {
    var maxRows := size - |p.rows|;
    if maxRows > 0 {
      MulOrder(1, maxRows, rb);
      ModUnique(maxRows * rb, rb, maxRows, 0);
      ModUnique(0, rb, 0, 0);
      var g := Gather(rb, maxRows * rb, p.stream, [], sizes);
      GatherRows(rb, maxRows * rb, p.stream, [], sizes);
      IngestLeavesStream(rb, p.(stream := g.stream), g.raw, maxRows * rb);
    }
  }

  lemma IngestLeavesStream(rb: nat, p: Pipe, raw: Bytes, maxBytes: nat)
    requires rb > 0
    ensures Ingest(rb, p, raw, maxBytes).0.stream == p.stream
  {
  }

  lemma {:induction false} RowChunksLast(rb: nat, size: nat, p: Pipe, log: seq<Item>, turns: seq<Turn>)
    requires Ready(rb, size, p) && Aligned(rb, p.stream)
    requires forall i :: 0 <= i < |turns| ==> RowChunks(rb, turns[i].sizes)
    ensures var r := Drain(rb, size, p, log, turns);
      r.ended ==> r.left.stream == []
    decreases |turns|
  {
    if turns != [] {
      ReadConserves(rb, size, p, turns[0].sizes);
      ReadKeepsRows(rb, size, p, turns[0].sizes);
      var (q, o) := ReadFrom(rb, size, p, turns[0].sizes);
      if o != EmptyPipe {
        TurnKeeps(rb, size, p, q, turns[0].keep);
        var n := TakenRows(size, q, turns[0].keep);
        RowChunksLast(rb, size, Consumed(q, n), log + Taken(q, n), turns[1..]);
      } else if p.stream != [] {
        SmallAligned(rb, p.stream);
      }
    }
  }

  /** If the chunks are whole numbers of rows, timeouts included, a reader that
      reaches the end has everything. */
  lemma RowChunksSuffice(rb: nat, size: nat, items: seq<Item>, turns: seq<Turn>)
    requires rb > 0 && size > 0 && Clean(rb, items)
    requires forall i :: 0 <= i < |turns| ==> RowChunks(rb, turns[i].sizes)
    ensures Ready(rb, size, Opened(rb, items))
    ensures var r := Drain(rb, size, Opened(rb, items), [], turns);
      r.ended ==> r.log == items
  {
    WireRoundTrip(rb, size, items, turns);
    EncodeAligned(rb, items);
    RowChunksLast(rb, size, Opened(rb, items), [], turns);
  }

  // ---- the end is reached ------------------------------------------------

  lemma {:induction false} DrainGrows(rb: nat, size: nat, p: Pipe, log: seq<Item>, turns: seq<Turn>)
    requires Ready(rb, size, p) && p.rows == []
    requires forall i :: 0 <= i < |turns| ==> turns[i].keep == 0
    ensures var r := Drain(rb, size, p, log, turns);
      r.ended || |r.log| >= |log| + |turns|
    decreases |turns|
  {
    if turns != [] {
      ReadConserves(rb, size, p, turns[0].sizes);
      var (q, o) := ReadFrom(rb, size, p, turns[0].sizes);
      if o != EmptyPipe {
        TurnKeeps(rb, size, p, q, turns[0].keep);
        var n := TakenRows(size, q, turns[0].keep);
        DrainGrows(rb, size, Consumed(q, n), log + Taken(q, n), turns[1..]);
      }
    }
  }

  /** A reader that takes every row it is offered reaches the end in one turn
      more than there are rows and breaks. */
  lemma DrainEnds(rb: nat, size: nat, items: seq<Item>, turns: seq<Turn>)
    requires rb > 0 && size > 0 && Clean(rb, items) && |turns| > |items|
    requires forall i :: 0 <= i < |turns| ==> turns[i].keep == 0
    ensures Ready(rb, size, Opened(rb, items)) && Drain(rb, size, Opened(rb, items), [], turns).ended
  {
    WireRoundTrip(rb, size, items, turns);
    DrainGrows(rb, size, Opened(rb, items), [], turns);
  }

  // ---- and what can be lost ----------------------------------------------

  lemma OneRow(rb: nat, x: Bytes)
    requires |x| == rb > 0 && x != Token(rb)
    ensures Aligned(rb, x) && ToRows(rb, x) == [x] && TokenIndex(rb, ToRows(rb, x)) == 1
  {
    ModUnique(rb, rb, 1, 0);
    var rest := x[rb..];
    assert ToRows(rb, rest) == [];
    assert x[..rb] == x;
    assert TokenIndex(rb, ToRows(rb, rest)) == 0;
  }

  /** A read that gets a row and part of the next. */
  lemma SplitRow(rb: nat, size: nat, x: Bytes, part: Bytes, rest: Bytes, sizes: seq<nat>)
    requires |x| == rb > 0 && x != Token(rb) && size > 1 && 0 < |part| < rb && |part| + |rest| == rb
    requires |sizes| == 1 && sizes[0] == rb + |part|
    ensures ReadFrom(rb, size, Pipe(x + part + rest, [], [], [], false, false), sizes)
         == (Pipe(rest, part, [], [x], false, false), Rows)
  {
    var stream, none := x + part + rest, x[..0];
    MulOrder(2, size, rb);
    var raw := x + part;
    assert stream[..rb + |part|] == raw && stream[rb + |part|..] == rest;
    assert none + raw == raw;
    assert Gather(rb, size * rb, stream, none, sizes) == Gathered(raw, rest, false);
    ModUnique(rb + |part|, rb, 1, |part|);
    assert none + raw[..rb] == x && raw[rb..] == part;
    assert Join(rb, none, raw) == (x, part);
    OneRow(rb, x);
    var before := [x][..0];
    assert before + [x] == [x];
  }

  lemma TwoItems(rb: nat, x: Bytes, y: Bytes)
    ensures Encode(rb, [Data(x), Data(y)]) == x + y
  {
    var two, one := [x, y], [y];
    assert two[1..] == one;
    var none := one[1..];
    assert Concat(none) == [] && Concat(one) == y + [] && Concat(two) == x + Concat(one);
    EncodeData(rb, two);
    assert AsData(two) == [Data(x), Data(y)];
  }

  /** For every width above one byte: two rows are sent, the first chunk is cut
      inside the second row, and the reader that takes all it is offered is
      told that the pipe is empty with only the first. */
  lemma LastRowCanBeLost(rb: nat, size: nat, x: Bytes, y: Bytes, cut: nat)
    requires |x| == |y| == rb && x != Token(rb) && y != Token(rb) && size > 1 && 0 < cut < rb
    ensures var items, turns := [Data(x), Data(y)], [Turn([rb + cut], 0), Turn([], 0)];
      && Clean(rb, items) && Ready(rb, size, Opened(rb, items))
      && Drain(rb, size, Opened(rb, items), [], turns).ended
      && Drain(rb, size, Opened(rb, items), [], turns).log == [Data(x)]
  {
    var items, turns := [Data(x), Data(y)], [Turn([rb + cut], 0), Turn([], 0)];
    OpenedReady(rb, size, items);
    TwoItems(rb, x, y);
    var part, rest := y[..cut], y[cut..];
    assert x + y == x + part + rest;
    SplitRow(rb, size, x, part, rest, [rb + cut]);
    var q := Pipe(rest, part, [], [x], false, false);
    SecondTurn(rb, size, Opened(rb, items), q, x, turns);
  }

  lemma SecondTurn(rb: nat, size: nat, p: Pipe, q: Pipe, x: Bytes, turns: seq<Turn>)
    requires Ready(rb, size, p) && |turns| == 2 && turns[0].keep == 0 && turns[1].sizes == []
    requires ReadFrom(rb, size, p, turns[0].sizes) == (q, Rows)
    requires q.rows == [x] && !q.brk && q.unprocessed == [] && |q.stream| < rb
    ensures Drain(rb, size, p, [], turns).ended && Drain(rb, size, p, [], turns).log == [Data(x)]
  {
    ReadConserves(rb, size, p, turns[0].sizes);
    TurnKeeps(rb, size, p, q, turns[0].keep);
    var c := Consumed(q, 1);
    ReadConserves(rb, size, c, turns[1].sizes);
    var log: seq<Item>, rest := [Data(x)], turns[1..];
    assert Taken(q, 1) == [Data(x)];
    assert Drain(rb, size, c, log, rest) == Received(log, c, true);
    var none: seq<Item> := [];
    assert none + Taken(q, 1) == log;
    assert Drain(rb, size, p, none, turns) == Drain(rb, size, c, log, rest);
  }

  // ---- a read takes all there is room for --------------------------------

  lemma {:induction false} NoTokenIndex(rb: nat, rows: seq<Bytes>)
    requires NoTokens(rb, rows)
    ensures TokenIndex(rb, rows) == |rows|
  {
    if rows != [] {
      NoTokenIndex(rb, rows[1..]);
    }
  }

  /** If nothing is left over from earlier reads, whole rows without a token have
      arrived, and all of them at once, a read offers as many as there is room
      for and leaves the rest to be read. */
  lemma ReadFills(rb: nat, size: nat, p: Pipe, n: nat)
    requires Ready(rb, size, p) && p.unprocessed == [] && p.byteBuffer == [] && |p.rows| < size
    requires 0 < n <= size - |p.rows| && n * rb <= |p.stream|
    requires n == size - |p.rows| || n * rb == |p.stream|
    requires Aligned(rb, p.stream[..n * rb]) && NoTokens(rb, ToRows(rb, p.stream[..n * rb]))
    ensures ReadFrom(rb, size, p, [])
         == (p.(stream := p.stream[n * rb..], rows := p.rows + ToRows(rb, p.stream[..n * rb]), brk := false), Rows)
  {
    var m := n * rb;
    var limit, raw, p1 := (size - |p.rows|) * rb, p.stream[..m], p.(stream := p.stream[m..]);
    MulOrder(n, size - |p.rows|, rb);
    MulOrder(1, n, rb);
    GatherAtOnce(rb, limit, p.stream, m);
    ReadUnfolds(rb, size, p, [], Gathered(raw, p.stream[m..], false));
    IngestWhole(rb, p1, raw, limit);
  }

  lemma GatherAtOnce(rb: nat, limit: nat, stream: Bytes, m: nat)
    requires limit > 0 && rb <= m <= |stream| && m == Least(|stream|, limit) && rb > 0
    ensures Gather(rb, limit, stream, [], []) == Gathered(stream[..m], stream[m..], false)
  {
    assert Arrived([], |stream|, limit) == m && [] + stream[..m] == stream[..m];
  }

  lemma IngestWhole(rb: nat, p: Pipe, raw: Bytes, limit: nat)
    requires rb > 0 && p.unprocessed == [] && p.byteBuffer == []
    requires Aligned(rb, raw) && NoTokens(rb, ToRows(rb, raw))
    ensures Ingest(rb, p, raw, limit) == (p.(rows := p.rows + ToRows(rb, raw), brk := false), Rows)
  {
    NoTokenIndex(rb, ToRows(rb, raw));
    assert [] + raw == raw;
  }
}
