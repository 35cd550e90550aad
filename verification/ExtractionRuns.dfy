/** When an extraction comes to an end, and with what. */
module ExtractionRuns {
  import opened Arithmetic
  import opened Rows
  import opened Extraction

  /** A remainder of this size is filled up to a whole block by the token, so
      the reading goes on from the token's timestamp. */
  predicate FillsBlock(j: Job, i: nat, rows: seq<Row>) {
    !Last(j, i) && j.blockSize > 0 && |rows| % j.blockSize == j.blockSize - 1
  }

  /** ... and rows from timestamp 1 on are read again. */
  predicate Rereads(j: Job, i: nat, rows: seq<Row>) {
    FillsBlock(j, i, rows) && i < |j.recs| && Select(j.table, 1, j.recs[i]) != []
  }

  /** The blocks of one interval when nothing is read again. */
  function PieceBlocks(j: Job, i: nat, rows: seq<Row>): seq<seq<Row>>
    requires j.blockSize > 0
    decreases |rows|
  {
    if |rows| >= j.blockSize then [rows[..j.blockSize]] + PieceBlocks(j, i, rows[j.blockSize..])
    else if Last(j, i) then (if rows == [] then [] else [rows])
    else if FillsBlock(j, i, rows) then [rows + [j.token]] + [[j.token]]
    else [rows + [j.token]]
  }

  /** The queries that takes. */
  function PieceQueries(j: Job, i: nat, rows: seq<Row>): (n: nat)
    requires j.blockSize > 0
    ensures n > 0
    decreases |rows|
  {
    if |rows| >= j.blockSize then 1 + PieceQueries(j, i, rows[j.blockSize..])
    else if FillsBlock(j, i, rows) then 2
    else 1
  }

  ghost predicate Ready(j: Job) {
    Increasing(j.table) && j.blockSize >= 2 && j.token.ts == 0
  }

  lemma FillsAfterBlock(j: Job, i: nat, rows: seq<Row>)
    requires j.blockSize > 0 && |rows| >= j.blockSize
    ensures FillsBlock(j, i, rows) <==> FillsBlock(j, i, rows[j.blockSize..])
  {
    assert |rows[j.blockSize..]| == |rows| - j.blockSize;
    ModSub(|rows|, j.blockSize);
  }

  /** A full block is followed by another query. */
  lemma GoesOn(j: Job, i: nat, start: int, inside: bool, fuel: nat, data: seq<Row>)
    requires i < |j.recs| && fuel > 0 && (inside || start != j.recs[i])
    requires data == Fetch(j, i, start) && 0 < j.blockSize <= |data|
    ensures Extract(j, i, start, inside, fuel)
        == Prepend([data], Extract(j, i, data[|data| - 1].ts + 1, true, fuel - 1))
  {
  }

  lemma FullBlock(j: Job, i: nat, start: int, inside: bool, fuel: nat, rows: seq<Row>)
    requires i < |j.recs| && fuel > 0 && (inside || start != j.recs[i])
    requires rows == Select(j.table, start, j.recs[i]) && 0 < j.blockSize <= |rows|
    ensures Extract(j, i, start, inside, fuel)
        == Prepend([rows[..j.blockSize]], Extract(j, i, rows[j.blockSize - 1].ts + 1, true, fuel - 1))
  {
    var data := rows[..j.blockSize];
    FullFetch(j, i, start);
    GoesOn(j, i, start, inside, fuel, data);
    assert data[|data| - 1] == rows[j.blockSize - 1];
  }

  lemma FullFetch(j: Job, i: nat, start: int)
    requires i < |j.recs| && |Select(j.table, start, j.recs[i])| >= j.blockSize
    ensures Fetch(j, i, start) == Select(j.table, start, j.recs[i])[..j.blockSize]
  {
  }

  lemma LastBlock(j: Job, i: nat, start: int, inside: bool, fuel: nat)
    requires Ready(j) && i < |j.recs| && fuel > 0 && (inside || start != j.recs[i])
    requires var rows := Select(j.table, start, j.recs[i]); |rows| < j.blockSize && !FillsBlock(j, i, rows)
    ensures var rows := Select(j.table, start, j.recs[i]);
      Extract(j, i, start, inside, fuel)
          == Prepend(PieceBlocks(j, i, rows), Extract(j, i + 1, j.recs[i], false, fuel - 1))
  {
    var rows := Select(j.table, start, j.recs[i]);
    assert |rows| % j.blockSize == |rows|;
    var rest := Extract(j, i + 1, j.recs[i], false, fuel - 1);
    assert Prepend([], rest) == rest;
  }

  /** The token fills the block, the reading starts again at 1 and finds
      nothing before the boundary. */
  lemma FilledBlock(j: Job, i: nat, start: int, inside: bool, fuel: nat)
    requires Ready(j) && i < |j.recs| && fuel > 1 && (inside || start != j.recs[i])
    requires var rows := Select(j.table, start, j.recs[i]); |rows| < j.blockSize && FillsBlock(j, i, rows)
    requires Select(j.table, 1, j.recs[i]) == []
    ensures var rows := Select(j.table, start, j.recs[i]);
      Extract(j, i, start, inside, fuel)
          == Prepend(PieceBlocks(j, i, rows), Extract(j, i + 1, j.recs[i], false, fuel - 2))
  {
    var rows := Select(j.table, start, j.recs[i]);
    assert |rows| % j.blockSize == |rows|;
    var rest := Extract(j, i + 1, j.recs[i], false, fuel - 2);
    assert Fetch(j, i, start) == rows + [j.token];
    assert Fetch(j, i, 1) == [j.token];
    assert Extract(j, i, 1, true, fuel - 1) == Prepend([[j.token]], rest);
    assert Extract(j, i, start, inside, fuel) == Prepend([rows + [j.token]], Extract(j, i, 1, true, fuel - 1));
    PrependTwice([rows + [j.token]], [[j.token]], rest);
  }

  lemma PieceUnfolds(j: Job, i: nat, rows: seq<Row>, more: seq<Row>)
    requires j.blockSize > 0 && |rows| >= j.blockSize && more == rows[j.blockSize..]
    ensures PieceBlocks(j, i, rows) == [rows[..j.blockSize]] + PieceBlocks(j, i, more)
    ensures PieceQueries(j, i, rows) == 1 + PieceQueries(j, i, more)
  {
  }

  /** What is read once interval i is done. */
  function Rest(j: Job, i: nat, fuel: nat): Output
    requires i < |j.recs|
  {
    Extract(j, i + 1, j.recs[i], false, fuel)
  }

  lemma JoinRuns(whole: Output, part: Output, block: seq<Row>, blocks: seq<seq<Row>>, rest: Output)
    requires whole == Prepend([block], part) && part == Prepend(blocks, rest)
    ensures whole == Prepend([block] + blocks, rest)
  {
  }

  lemma ShortPieceRuns(j: Job, i: nat, start: int, inside: bool, fuel: nat, rows: seq<Row>)
    requires Ready(j) && i < |j.recs| && (inside || start != j.recs[i])
    requires rows == Select(j.table, start, j.recs[i]) && |rows| < j.blockSize
    requires FillsBlock(j, i, rows) ==> Select(j.table, 1, j.recs[i]) == []
    requires fuel >= PieceQueries(j, i, rows)
    ensures Extract(j, i, start, inside, fuel)
        == Prepend(PieceBlocks(j, i, rows), Rest(j, i, fuel - PieceQueries(j, i, rows)))
  {
    if FillsBlock(j, i, rows) {
      FilledBlock(j, i, start, inside, fuel);
    } else {
      LastBlock(j, i, start, inside, fuel);
    }
  }

  /** An interval that is not read again gives its blocks and leaves the rest
      of the queries to the intervals after it. */
  lemma {:induction false} PieceRuns(j: Job, i: nat, start: int, inside: bool, fuel: nat, rows: seq<Row>, fills: bool)
    requires Ready(j) && i < |j.recs| && (inside || start != j.recs[i])
    requires rows == Select(j.table, start, j.recs[i])
    requires fills == FillsBlock(j, i, rows) && (fills ==> Select(j.table, 1, j.recs[i]) == [])
    requires fuel >= PieceQueries(j, i, rows)
    ensures Extract(j, i, start, inside, fuel)
        == Prepend(PieceBlocks(j, i, rows), Rest(j, i, fuel - PieceQueries(j, i, rows)))
    decreases |rows|
  {
    if |rows| >= j.blockSize {
      var more, next := FullStep(j, i, start, inside, fuel, rows);
      PieceRuns(j, i, next, true, fuel - 1, more, fills);
      FullPieceJoins(j, i, start, inside, fuel, rows, more, Rest(j, i, fuel - 1 - PieceQueries(j, i, more)));
    } else {
      ShortPieceRuns(j, i, start, inside, fuel, rows);
    }
  }

  lemma FullStep(j: Job, i: nat, start: int, inside: bool, fuel: nat, rows: seq<Row>)
    returns (more: seq<Row>, next: int)
    requires Ready(j) && i < |j.recs| && (inside || start != j.recs[i]) && fuel > 0
    requires rows == Select(j.table, start, j.recs[i]) && |rows| >= j.blockSize
    ensures more == rows[j.blockSize..] && next == rows[j.blockSize - 1].ts + 1
    ensures more == Select(j.table, next, j.recs[i]) && |more| < |rows|
    ensures Extract(j, i, start, inside, fuel) == Prepend([rows[..j.blockSize]], Extract(j, i, next, true, fuel - 1))
    ensures FillsBlock(j, i, more) == FillsBlock(j, i, rows)
    ensures PieceQueries(j, i, rows) == 1 + PieceQueries(j, i, more)
  {
    more, next := rows[j.blockSize..], rows[j.blockSize - 1].ts + 1;
    FullBlock(j, i, start, inside, fuel, rows);
    SelectAfter(j.table, start, j.recs[i], j.blockSize - 1);
    FillsAfterBlock(j, i, rows);
  }

  lemma FullPieceJoins(j: Job, i: nat, start: int, inside: bool, fuel: nat, rows: seq<Row>, more: seq<Row>,
                       rest: Output)
    requires i < |j.recs| && fuel > 0 && |rows| >= j.blockSize > 0 && more == rows[j.blockSize..]
    requires var part := Extract(j, i, rows[j.blockSize - 1].ts + 1, true, fuel - 1);
      && Extract(j, i, start, inside, fuel) == Prepend([rows[..j.blockSize]], part)
      && part == Prepend(PieceBlocks(j, i, more), rest)
    ensures Extract(j, i, start, inside, fuel) == Prepend(PieceBlocks(j, i, rows), rest)
  {
    PieceUnfolds(j, i, rows, more);
    JoinRuns(Extract(j, i, start, inside, fuel), Extract(j, i, rows[j.blockSize - 1].ts + 1, true, fuel - 1),
             rows[..j.blockSize], PieceBlocks(j, i, more), rest);
  }

  // ---- all intervals -----------------------------------------------------

  /** Where interval i starts. */
  function PieceStart(j: Job, first: int, i: nat): int
    requires i <= |j.recs|
  {
    if i == 0 then first else j.recs[i - 1]
  }

  function Piece(j: Job, first: int, i: nat): seq<Row>
    requires i < |j.recs|
  {
    Select(j.table, PieceStart(j, first, i), j.recs[i])
  }

  /** The blocks of the intervals from i on; an interval without extent is
      skipped without a query. */
  function AllBlocks(j: Job, first: int, i: nat): seq<seq<Row>>
    requires i <= |j.recs| && j.blockSize > 0
    decreases |j.recs| - i
  {
    if i == |j.recs| then [] else Own(j, first, i) + AllBlocks(j, first, i + 1)
  }

  function AllQueries(j: Job, first: int, i: nat): nat
    requires i <= |j.recs| && j.blockSize > 0
    decreases |j.recs| - i
  {
    if i == |j.recs| then 0 else OwnQueries(j, first, i) + AllQueries(j, first, i + 1)
  }

  /** Interval i is read again from timestamp 1. */
  predicate Trouble(j: Job, first: int, i: nat)
    requires i < |j.recs|
  {
    PieceStart(j, first, i) != j.recs[i] && Rereads(j, i, Piece(j, first, i))
  }

  /** The blocks of interval i itself. */
  function Own(j: Job, first: int, i: nat): seq<seq<Row>>
    requires i < |j.recs| && j.blockSize > 0
  {
    if PieceStart(j, first, i) == j.recs[i] then [] else PieceBlocks(j, i, Piece(j, first, i))
  }

  function OwnQueries(j: Job, first: int, i: nat): nat
    requires i < |j.recs| && j.blockSize > 0
  {
    if PieceStart(j, first, i) == j.recs[i] then 0 else PieceQueries(j, i, Piece(j, first, i))
  }

  /** The extraction from the start of interval i. */
  function RunFrom(j: Job, first: int, i: nat, fuel: nat): Output
    requires i <= |j.recs|
  {
    Extract(j, i, PieceStart(j, first, i), false, fuel)
  }

  lemma OwnRuns(j: Job, first: int, i: nat, fuel: nat)
    requires Ready(j) && i < |j.recs| && !Trouble(j, first, i) && fuel >= OwnQueries(j, first, i)
    ensures RunFrom(j, first, i, fuel)
        == Prepend(Own(j, first, i), RunFrom(j, first, i + 1, fuel - OwnQueries(j, first, i)))
  {
    var start := PieceStart(j, first, i);
    if start == j.recs[i] {
      var rest := RunFrom(j, first, i + 1, fuel);
      assert Prepend([], rest) == rest;
    } else {
      PieceRuns(j, i, start, false, fuel, Piece(j, first, i), FillsBlock(j, i, Piece(j, first, i)));
    }
  }

  /** Without trouble the extraction ends, with the blocks of every interval. */
  lemma {:induction false} AllRuns(j: Job, first: int, i: nat, fuel: nat)
    requires Ready(j) && i <= |j.recs| && fuel >= AllQueries(j, first, i)
    requires forall k :: i <= k < |j.recs| ==> !Trouble(j, first, k)
    ensures RunFrom(j, first, i, fuel) == Output(AllBlocks(j, first, i), true)
    decreases |j.recs| - i
  {
    if i < |j.recs| {
      OwnRuns(j, first, i, fuel);
      AllRuns(j, first, i + 1, fuel - OwnQueries(j, first, i));
    }
  }
}
