/** Reading a range of a table in blocks, interval by interval, with an
    all-zero row (the interval token) after each interval but the last. */
module Extraction {
  import opened Rows
  import opened Segments

  function IntervalToken(width: nat): Row {
    Row(0, seq(width, _ => 0.0))
  }

  /** What one extraction reads: the rows of `table` up to each of `recs`, the
      boundaries of the range and its end. */
  datatype Job = Job(table: seq<Row>, recs: seq<int>, blockSize: nat, token: Row)

  function JobFor(table: seq<Row>, bounds: seq<int>, start: int, end: int, blockSize: nat, token: Row): Job {
    Job(table, Within(bounds, start, end) + [end], blockSize, token)
  }

  predicate Last(j: Job, i: nat) { i + 1 >= |j.recs| }

  function Take(rows: seq<Row>, n: nat): seq<Row> {
    if |rows| <= n then rows else rows[..n]
  }

  /** One query: at most a block of rows, with the token if the interval's rows
      ran out and it is not the last. */
  function Fetch(j: Job, i: nat, start: int): seq<Row>
    requires i < |j.recs|
  {
    var rows := Take(Select(j.table, start, j.recs[i]), j.blockSize);
    if |rows| < j.blockSize && !Last(j, i) then rows + [j.token] else rows
  }

  // The blocks handed to the callback, and whether the reading came to an end.
  datatype Output = Output(blocks: seq<seq<Row>>, finished: bool)

  function Prepend(blocks: seq<seq<Row>>, rest: Output): Output {
    Output(blocks + rest.blocks, rest.finished)
  }

  /** At most `fuel` queries of the extraction, from interval i on; `inside`
      tells whether the interval has been queried before. */
  function Extract(j: Job, i: nat, start: int, inside: bool, fuel: nat): Output
    decreases fuel, |j.recs| - i
  {
    if i >= |j.recs| then Output([], true)
    else if !inside && start == j.recs[i] then Extract(j, i + 1, j.recs[i], false, fuel)
    else if fuel == 0 then Output([], false)
    else AfterFetch(j, i, Fetch(j, i, start), fuel - 1)
  }

  function AfterFetch(j: Job, i: nat, data: seq<Row>, fuel: nat): Output
    requires i < |j.recs|
    decreases fuel, |j.recs| - i + 1
  {
    if |data| == 0 then Extract(j, i + 1, j.recs[i], false, fuel)
    else if |data| < j.blockSize then Prepend([data], Extract(j, i + 1, j.recs[i], false, fuel))
    else Prepend([data], Extract(j, i, data[|data| - 1].ts + 1, true, fuel))
  }

  /** The extraction, stopped after `fuel` queries: the program itself has no
      such limit, and does not end on an input where no limit is enough. */
  method ExtractData(table: seq<Row>, bounds: seq<int>, first: int, last: int, blockSize: nat, token: Row, fuel: nat)
    returns (blocks: seq<seq<Row>>, finished: bool)
    ensures Output(blocks, finished)
        == Extract(JobFor(table, bounds, first, last, blockSize, token), 0, first, false, fuel)
  {
    var j := JobFor(table, bounds, first, last, blockSize, token);
    blocks, finished := [], true;
    var start, left, i := first, fuel, 0;
    while i < |j.recs| && finished
      invariant 0 <= i <= |j.recs| && 0 <= left <= fuel
      invariant (if finished then Prepend(blocks, Extract(j, i, start, false, left)) else Output(blocks, false))
             == Extract(j, 0, first, false, fuel)
      decreases |j.recs| - i
    {
      var end := j.recs[i];
      if start != end {
        var more, rest, ok := ExtractInterval(j, i, start, left);
        ghost var after := if ok then Extract(j, i + 1, end, false, rest) else Output([], false);
        PrependTwice(blocks, more, after);
        blocks, left, finished := blocks + more, rest, ok;
      }
      start := end;
      i := i + 1;
    }
    if finished {
      assert Prepend(blocks, Output([], true)) == Output(blocks, true);
    }
  }

  /** The inner loop: the queries of one interval. */
  method ExtractInterval(j: Job, i: nat, from: int, fuel: nat)
    returns (blocks: seq<seq<Row>>, left: nat, finished: bool)
    requires i < |j.recs| && from != j.recs[i]
    ensures left <= fuel
    ensures Extract(j, i, from, false, fuel)
         == Prepend(blocks, if finished then Extract(j, i + 1, j.recs[i], false, left) else Output([], false))
  {
    blocks, left := [], fuel;
    var start, end := from, j.recs[i];
    ghost var inside := false;
    while left > 0
      invariant 0 <= left <= fuel && (inside || start != end)
      invariant Extract(j, i, from, false, fuel) == Prepend(blocks, Extract(j, i, start, inside, left))
    {
      var rows := Take(Select(j.table, start, end), j.blockSize);
      if |rows| < j.blockSize {
        if i < |j.recs| - 1 {
          rows := rows + [j.token];
        }
      }
      BlockRead(j, i, start, inside, left, rows);
      left := left - 1;
      if |rows| == 0 {
        return blocks, left, true;
      }
      PrependTwice(blocks, [rows], AfterBlock(j, i, rows, left));
      blocks := blocks + [rows];
      if |rows| < j.blockSize {
        return blocks, left, true;
      }
      start := rows[|rows| - 1].ts + 1;
      inside := true;
    }
    return blocks, left, false;
  }

  /** What follows a block that was handed on. */
  function AfterBlock(j: Job, i: nat, data: seq<Row>, fuel: nat): Output
    requires i < |j.recs| && data != []
  {
    if |data| < j.blockSize then Extract(j, i + 1, j.recs[i], false, fuel)
    else Extract(j, i, data[|data| - 1].ts + 1, true, fuel)
  }

  /** One query, and what follows its block. */
  lemma BlockRead(j: Job, i: nat, start: int, inside: bool, fuel: nat, data: seq<Row>)
    requires i < |j.recs| && fuel > 0 && (inside || start != j.recs[i]) && data == Fetch(j, i, start)
    ensures Extract(j, i, start, inside, fuel)
         == if data == [] then Extract(j, i + 1, j.recs[i], false, fuel - 1)
            else Prepend([data], AfterBlock(j, i, data, fuel - 1))
  {
  }

  lemma PrependTwice(blocks: seq<seq<Row>>, more: seq<seq<Row>>, rest: Output)
    ensures Prepend(blocks, Prepend(more, rest)) == Prepend(blocks + more, rest)
  {
  }
}
