/** Reading everything a pipe carries, up to a number of rows. */
module ReadAlls {
  import opened Framing
  import opened InputPipes
  import opened WireRuns

  datatype AllRows = AllRows(rows: seq<Bytes>) | NoData | TooMany

  /** What there is to return for rows and breaks. */
  function FirstRows(items: seq<Item>, maxRows: nat, strict: bool): (r: AllRows)
    ensures r == NoData <==> items == []
    ensures r == TooMany <==> strict && |RowsOf(items)| > maxRows
    ensures r.AllRows? ==> r.rows <= RowsOf(items) && |r.rows| == Least(maxRows, |RowsOf(items)|)
  {
    var rows := RowsOf(items);
    if items == [] then NoData
    else if |rows| <= maxRows then AllRows(rows)
    else if strict then TooMany
    else AllRows(rows[..maxRows])
  }

  lemma RowsOfTaken(log: seq<Item>, q: Pipe)
    ensures RowsOf(log + Taken(q, |q.rows|)) == RowsOf(log) + q.rows
  {
    var data, gap := AsData(q.rows), if q.brk then [Gap] else [];
    assert q.rows[..|q.rows|] == q.rows;
    RowsOfAppend(log, data + gap);
    RowsOfAppend(data, gap);
    RowsOfData(q.rows);
    var none := [Gap][1..];
    assert RowsOf(none) == [] && RowsOf([Gap]) == [] + RowsOf(none);
    assert gap == [] ==> RowsOf(gap) == [];
  }

  /** Once there are too many rows, what follows does not matter. */
  lemma EnoughRows(log: seq<Item>, items: seq<Item>, maxRows: nat, strict: bool)
    requires log <= items && |RowsOf(log)| > maxRows
    ensures FirstRows(items, maxRows, strict) == FirstRows(log, maxRows, strict)
  {
    RowsOfAppend(log, items[|log|..]);
    assert log + items[|log|..] == items;
  }

  lemma EncodeGrows(rb: nat, items: seq<Item>)
    requires rb > 0 && Clean(rb, items) && items != []
    ensures |Encode(rb, items)| > 0
  {
    assert CleanItem(rb, items[0]);
  }

  ghost predicate AllRowChunks(rb: nat, chunks: seq<seq<nat>>)
    requires rb > 0
  {
    forall i :: 0 <= i < |chunks| ==> RowChunks(rb, chunks[i])
  }

  /** What was taken from a pipe and what is left are what was sent. */
  ghost predicate Tracks(rb: nat, size: nat, p: Pipe, log: seq<Item>, items: seq<Item>) {
    Ready(rb, size, p) && Clean(rb, log) && Encode(rb, log) + Content(p) == Encode(rb, items)
  }

  lemma TakeAll(rb: nat, size: nat, p: Pipe, q: Pipe, log: seq<Item>, items: seq<Item>)
    requires Tracks(rb, size, p, log, items) && Clean(rb, items) && Kept(rb, p, q)
    ensures var c, more := Consumed(q, |q.rows|), log + Taken(q, |q.rows|);
      && Tracks(rb, size, c, more, items) && more <= items && more != []
      && RowsOf(more) == RowsOf(log) + q.rows && |Content(c)| < |Content(p)|
  {
    TurnKeeps(rb, size, p, q, 0);
    var c, taken := Consumed(q, |q.rows|), Taken(q, |q.rows|);
    EncodeGrows(rb, taken);
    MoveBytes(rb, log, taken, Content(c), Content(p));
    CleanAppend(rb, log, taken);
    RowsOfTaken(log, q);
    PrefixReceived(rb, log + taken, Content(c), items);
  }

  /** What is known when the pipe says that it is empty. */
  ghost predicate AtEnd(rb: nat, p: Pipe, log: seq<Item>, items: seq<Item>)
    requires rb > 0
  {
    && (log == items || (items != [] && log == items[..|items| - 1]))
    && (Aligned(rb, p.stream) ==> log == items)
  }

  lemma TracksEnd(rb: nat, size: nat, p: Pipe, log: seq<Item>, items: seq<Item>)
    requires Tracks(rb, size, p, log, items) && Clean(rb, items)
    requires p.rows == [] && p.unprocessed == [] && |p.stream| < rb
    ensures AtEnd(rb, p, log, items)
  {
    LastItemLost(rb, log, p, items);
    if p.stream != [] && Aligned(rb, p.stream) {
      SmallAligned(rb, p.stream);
    }
  }

  /** Read once and take everything offered. */
  method Take(pipe: InputPipe, sizes: seq<nat>, ghost log: seq<Item>, ghost items: seq<Item>)
    returns (ended: bool, rows: seq<Bytes>, ghost more: seq<Item>)
    requires pipe.Valid() && Tracks(pipe.rb, pipe.size, pipe.Model(), log, items) && Clean(pipe.rb, items)
    modifies pipe, pipe.buffer
    ensures pipe.Valid() && (pipe.buffer == old(pipe.buffer) || fresh(pipe.buffer))
    ensures ended ==> more == log && pipe.rb > 0 && AtEnd(pipe.rb, old(pipe.Model()), log, items)
    ensures !ended ==> Tracks(pipe.rb, pipe.size, pipe.Model(), more, items) && more <= items && more != []
    ensures !ended ==> RowsOf(more) == RowsOf(log) + rows && |Content(pipe.Model())| < |Content(old(pipe.Model()))|
    ensures !ended && RowChunks(pipe.rb, sizes) && Aligned(pipe.rb, old(pipe.stream)) ==> Aligned(pipe.rb, pipe.stream)
  {
    ghost var p := pipe.Model();
    ReadConserves(pipe.rb, pipe.size, p, sizes);
    if RowChunks(pipe.rb, sizes) && Aligned(pipe.rb, p.stream) {
      ReadKeepsRows(pipe.rb, pipe.size, p, sizes);
    }
    var outcome, offered := pipe.Read(sizes);
    more := log;
    if outcome != Rows {
      TracksEnd(pipe.rb, pipe.size, p, log, items);
      return true, [], log;
    }
    ghost var q := pipe.Model();
    TakeAll(pipe.rb, pipe.size, p, q, log, items);
    var _ := pipe.Consume(|offered|);
    return false, offered, log + Taken(q, |offered|);
  }

  /** All rows, or the first of them, or an error; breaks are not reported.
      Nothing is missing if the chunks are whole numbers of rows, and never
      more than the last item. */
  method ReadAll(pipe: InputPipe, chunks: seq<seq<nat>>, maxRows: nat, strict: bool, ghost items: seq<Item>)
    returns (result: AllRows)
    requires pipe.Valid() && Ready(pipe.rb, pipe.size, pipe.Model()) && Clean(pipe.rb, items)
    requires Content(pipe.Model()) == Encode(pipe.rb, items)
    modifies pipe, pipe.buffer
    ensures result == FirstRows(items, maxRows, strict)
         || (items != [] && result == FirstRows(items[..|items| - 1], maxRows, strict))
    ensures AllRowChunks(pipe.rb, chunks) && Aligned(pipe.rb, old(pipe.stream))
        ==> result == FirstRows(items, maxRows, strict)
  {
    var data: seq<Bytes>, some, left := [], false, chunks;
    ghost var log: seq<Item>, whole := [], AllRowChunks(pipe.rb, chunks) && Aligned(pipe.rb, pipe.stream);
    assert Encode(pipe.rb, log) + Content(pipe.Model()) == Content(pipe.Model());
    while true
      invariant pipe.Valid() && (pipe.buffer == old(pipe.buffer) || fresh(pipe.buffer))
      invariant Tracks(pipe.rb, pipe.size, pipe.Model(), log, items)
      invariant data == RowsOf(log) && some == (log != []) && (some ==> |data| <= maxRows)
      invariant whole ==> AllRowChunks(pipe.rb, left) && Aligned(pipe.rb, pipe.stream)
      decreases |Content(pipe.Model())|
    {
      var sizes := if left == [] then [] else left[0];
      left := if left == [] then [] else left[1..];
      var ended, rows;
      ghost var more;
      ended, rows, more := Take(pipe, sizes, log, items);
      if ended {
        return if some then AllRows(data) else NoData;
      }
      log := more;
      if |data| + |rows| > maxRows {
        EnoughRows(log, items, maxRows, strict);
        if strict {
          return TooMany;
        }
        return AllRows(data + rows[..maxRows - |data|]);
      }
      data, some := data + rows, true;
    }
  }
}
