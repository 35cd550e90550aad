/** The extracted blocks, split at the interval tokens, are the intervals of
    the range; and exactly when that holds. */
module ExtractionProperties {
  import opened Rows
  import opened Segments
  import opened Decimators
  import opened Lives
  import opened Extraction
  import opened ExtractionRuns

  // ---- reading the blocks ------------------------------------------------

  /** A block is rows, rows ending in the token, or the token alone. */
  function InputsFor(block: seq<Row>, token: Row): seq<Input> {
    if block == [] then []
    else if |block| == 1 && block[0] == token then [Break]
    else if block[|block| - 1] == token then [Block(block[..|block| - 1])] + [Break]
    else [Block(block)]
  }

  function ToInputs(blocks: seq<seq<Row>>, token: Row): seq<Input> {
    if blocks == [] then [] else InputsFor(blocks[0], token) + ToInputs(blocks[1..], token)
  }

  lemma {:induction false} ToInputsAppend(a: seq<seq<Row>>, b: seq<seq<Row>>, token: Row)
    ensures ToInputs(a + b, token) == ToInputs(a, token) + ToInputs(b, token)
  {
    if a == [] {
      assert a + b == b;
    } else {
      assert (a + b)[1..] == a[1..] + b;
      ToInputsAppend(a[1..], b, token);
      Assoc(InputsFor(a[0], token), ToInputs(a[1..], token), ToInputs(b, token));
    }
  }

  lemma IntervalsBlock(done: seq<seq<Row>>, now: seq<Row>, rows: seq<Row>, rest: seq<Input>)
    ensures IntervalsOf(done, now, [Block(rows)] + rest) == IntervalsOf(done, now + rows, rest)
  {
    assert ([Block(rows)] + rest)[1..] == rest;
  }

  lemma IntervalsBreak(done: seq<seq<Row>>, now: seq<Row>, rest: seq<Input>)
    ensures IntervalsOf(done, now, [Break] + rest) == IntervalsOf(done + [now], [], rest)
  {
    assert ([Break] + rest)[1..] == rest;
  }

  ghost predicate NoToken(rows: seq<Row>, token: Row) {
    forall i :: 0 <= i < |rows| ==> rows[i] != token
  }

  /** Rows followed by the token complete an interval. */
  lemma EndBlock(done: seq<seq<Row>>, now: seq<Row>, rows: seq<Row>, token: Row, rest: seq<Input>)
    requires NoToken(rows, token)
    ensures IntervalsOf(done, now, InputsFor(rows + [token], token) + rest)
        == IntervalsOf(done + [now + rows], [], rest)
  {
    var block := rows + [token];
    if rows == [] {
      assert now + rows == now;
      IntervalsBreak(done, now, rest);
    } else {
      assert block[..|block| - 1] == rows;
      Assoc([Block(rows)], [Break], rest);
      IntervalsBlock(done, now, rows, [Break] + rest);
      IntervalsBreak(done, now + rows, rest);
    }
  }

  lemma DataBlock(done: seq<seq<Row>>, now: seq<Row>, rows: seq<Row>, token: Row, rest: seq<Input>)
    requires NoToken(rows, token)
    ensures IntervalsOf(done, now, InputsFor(rows, token) + rest) == IntervalsOf(done, now + rows, rest)
  {
    if rows == [] {
      assert InputsFor(rows, token) + rest == rest;
      assert now + rows == now;
    } else {
      IntervalsBlock(done, now, rows, rest);
    }
  }

  /** What the blocks of one interval amount to: its rows, complete if another
      interval follows, and an empty interval if the token filled a block. */
  function Completed(j: Job, i: nat, done: seq<seq<Row>>, rows: seq<Row>): seq<seq<Row>> {
    if Last(j, i) then done
    else if FillsBlock(j, i, rows) then done + [rows] + [[]]
    else done + [rows]
  }

  lemma {:induction false} PieceMeans(j: Job, i: nat, rows: seq<Row>, seen: seq<Row>, all: seq<Row>,
                                      done: seq<seq<Row>>, rest: seq<Input>)
    requires j.blockSize > 0 && NoToken(rows, j.token)
    requires all == seen + rows && FillsBlock(j, i, all) == FillsBlock(j, i, rows)
    ensures IntervalsOf(done, seen, ToInputs(PieceBlocks(j, i, rows), j.token) + rest)
         == IntervalsOf(Completed(j, i, done, all), if Last(j, i) then all else [], rest)
    decreases |rows|
  {
    if |rows| >= j.blockSize {
      var block, more := rows[..j.blockSize], rows[j.blockSize..];
      FillsAfterBlock(j, i, rows);
      PieceUnfolds(j, i, rows, more);
      var tail := ToInputs(PieceBlocks(j, i, more), j.token);
      BlockFirst(block, PieceBlocks(j, i, more), j.token, rest);
      DataBlock(done, seen, block, j.token, tail + rest);
      assert all == (seen + block) + more;
      PieceMeans(j, i, more, seen + block, all, done, rest);
    } else {
      LastMeans(j, i, rows, seen, all, done, rest);
    }
  }

  lemma BlockFirst(block: seq<Row>, blocks: seq<seq<Row>>, token: Row, rest: seq<Input>)
    ensures ToInputs([block] + blocks, token) + rest == InputsFor(block, token) + (ToInputs(blocks, token) + rest)
  {
    assert ([block] + blocks)[1..] == blocks;
    Assoc(InputsFor(block, token), ToInputs(blocks, token), rest);
  }

  lemma LastMeans(j: Job, i: nat, rows: seq<Row>, seen: seq<Row>, all: seq<Row>, done: seq<seq<Row>>, rest: seq<Input>)
    requires |rows| < j.blockSize && NoToken(rows, j.token)
    requires all == seen + rows && FillsBlock(j, i, all) == FillsBlock(j, i, rows)
    ensures IntervalsOf(done, seen, ToInputs(PieceBlocks(j, i, rows), j.token) + rest)
         == IntervalsOf(Completed(j, i, done, all), if Last(j, i) then all else [], rest)
  {
    var token := j.token;
    var none: seq<seq<Row>> := [];
    assert ToInputs(none, token) + rest == rest;
    if Last(j, i) {
      if rows == [] {
        assert seen + rows == seen;
      } else {
        BlockFirst(rows, none, token, rest);
        DataBlock(done, seen, rows, token, rest);
        assert [rows] + none == [rows];
      }
    } else if FillsBlock(j, i, rows) {
      var one := [[token]];
      BlockFirst(rows + [token], one, token, rest);
      BlockFirst([token], none, token, rest);
      assert [[token]] + none == one;
      EndBlock(done, seen, rows, token, InputsFor([token], token) + rest);
      var empty: seq<Row> := [];
      assert empty + [token] == [token] && empty + empty == empty;
      EndBlock(done + [all], empty, empty, token, rest);
    } else {
      BlockFirst(rows + [token], none, token, rest);
      assert [rows + [token]] + none == [rows + [token]];
      EndBlock(done, seen, rows, token, rest);
    }
  }

  // ---- all intervals -----------------------------------------------------

  function PiecesFrom(j: Job, first: int, i: nat): seq<seq<Row>>
    requires i <= |j.recs|
    decreases |j.recs| - i
  {
    if i == |j.recs| then [] else [Piece(j, first, i)] + PiecesFrom(j, first, i + 1)
  }

  ghost predicate Tokenless(j: Job) {
    forall r :: r in j.table ==> r != j.token
  }

  lemma PieceTokenless(j: Job, first: int, i: nat)
    requires Tokenless(j) && i < |j.recs|
    ensures NoToken(Piece(j, first, i), j.token)
  {
    var p := Piece(j, first, i);
    forall k | 0 <= k < |p| ensures p[k] != j.token {
      assert p[k] in j.table;
    }
  }

  lemma FilledOpen(more: seq<seq<Row>>, now: seq<Row>)
    requires now == []
    ensures Filled(more + [now]) == Filled(more)
  {
    FilledAppend(more, [now]);
    FilledOne(now);
    assert Filled(more) + [] == Filled(more);
  }

  lemma OwnMeans(j: Job, first: int, i: nat, done: seq<seq<Row>>, rest: seq<Input>)
    requires Ready(j) && Tokenless(j) && i < |j.recs|
    ensures var more, now := OwnEnd(j, first, i, done).0, OwnEnd(j, first, i, done).1;
      && IntervalsOf(done, [], ToInputs(Own(j, first, i), j.token) + rest) == IntervalsOf(more, now, rest)
      && Filled(more + [now]) == Filled(done) + Filled([Piece(j, first, i)])
      && (!Last(j, i) ==> now == [])
  {
    var p := Piece(j, first, i);
    var none: seq<Row> := [];
    PieceTokenless(j, first, i);
    assert none + p == p;
    if PieceStart(j, first, i) == j.recs[i] {
      assert ToInputs([], j.token) + rest == rest;
    } else {
      PieceMeans(j, i, p, none, p, done, rest);
    }
    FilledAppend(done, [p]);
    FilledOpen(done, none);
    FilledOpen(done + [p], none);
    FilledOpen(done + [p] + [none], none);
    FilledOne(p);
  }

  /** The complete intervals and the open one after interval i. */
  function OwnEnd(j: Job, first: int, i: nat, done: seq<seq<Row>>): (seq<seq<Row>>, seq<Row>)
    requires i < |j.recs|
  {
    if PieceStart(j, first, i) == j.recs[i] then (done, [])
    else (Completed(j, i, done, Piece(j, first, i)), if Last(j, i) then Piece(j, first, i) else [])
  }

  lemma OwnFirst(j: Job, first: int, i: nat, done: seq<seq<Row>>)
    requires Ready(j) && Tokenless(j) && i < |j.recs|
    ensures var (more, now) := OwnEnd(j, first, i, done);
      IntervalsOf(done, [], ToInputs(AllBlocks(j, first, i), j.token))
      == IntervalsOf(more, now, ToInputs(AllBlocks(j, first, i + 1), j.token))
  {
    ToInputsAppend(Own(j, first, i), AllBlocks(j, first, i + 1), j.token);
    OwnMeans(j, first, i, done, ToInputs(AllBlocks(j, first, i + 1), j.token));
  }

  lemma OwnFilled(j: Job, first: int, i: nat, done: seq<seq<Row>>)
    requires Ready(j) && Tokenless(j) && i < |j.recs|
    ensures var (more, now) := OwnEnd(j, first, i, done);
      Filled(more + [now]) == Filled(done) + Filled([Piece(j, first, i)])
    ensures !Last(j, i) ==> OwnEnd(j, first, i, done).1 == []
  {
    OwnMeans(j, first, i, done, []);
  }

  lemma PiecesFilled(j: Job, first: int, i: nat, before: seq<seq<Row>>)
    requires i < |j.recs|
    ensures before + Filled(PiecesFrom(j, first, i))
        == before + Filled([Piece(j, first, i)]) + Filled(PiecesFrom(j, first, i + 1))
  {
    var p, later := Piece(j, first, i), PiecesFrom(j, first, i + 1);
    assert PiecesFrom(j, first, i) == [p] + later;
    FilledAppend([p], later);
    Assoc(before, Filled([p]), Filled(later));
  }

  lemma {:induction false} AllMean(j: Job, first: int, i: nat, done: seq<seq<Row>>)
    requires Ready(j) && Tokenless(j) && i < |j.recs|
    ensures Filled(IntervalsOf(done, [], ToInputs(AllBlocks(j, first, i), j.token)))
        == Filled(done) + Filled(PiecesFrom(j, first, i))
    decreases |j.recs| - i
  {
    var (more, now) := OwnEnd(j, first, i, done);
    OwnFirst(j, first, i, done);
    OwnFilled(j, first, i, done);
    PiecesFilled(j, first, i, Filled(done));
    if i + 1 == |j.recs| {
      NoneAfter(j, first, more, now);
    } else {
      AllMean(j, first, i + 1, more);
      FilledOpen(more, now);
    }
  }

  lemma NoneAfter(j: Job, first: int, more: seq<seq<Row>>, now: seq<Row>)
    requires j.blockSize > 0
    ensures IntervalsOf(more, now, ToInputs(AllBlocks(j, first, |j.recs|), j.token)) == more + [now]
    ensures Filled(PiecesFrom(j, first, |j.recs|)) == []
  {
  }

  lemma PiecesUpTo(table: seq<Row>, cuts: seq<int>, n: nat)
    requires 0 < n < |cuts|
    ensures Pieces(table, cuts[..n + 1])
        == Pieces(table, cuts[..n]) + Filled([Select(table, cuts[n - 1], cuts[n])])
  {
    assert cuts[..n + 1][..n] == cuts[..n];
    FilledOne(Select(table, cuts[n - 1], cuts[n]));
  }

  /** The pieces of the job are the pieces between the cuts of the range. */
  lemma {:induction false} PiecesAgree(j: Job, first: int, n: nat)
    requires n <= |j.recs|
    ensures Pieces(j.table, ([first] + j.recs)[..n + 1]) + Filled(PiecesFrom(j, first, n))
        == Filled(PiecesFrom(j, first, 0))
  {
    var cuts := [first] + j.recs;
    if n == 0 {
      assert Pieces(j.table, cuts[..1]) == [];
    } else {
      PiecesAgree(j, first, n - 1);
      PiecesUpTo(j.table, cuts, n);
      assert Piece(j, first, n - 1) == Select(j.table, cuts[n - 1], cuts[n]);
      PiecesFilled(j, first, n - 1, Pieces(j.table, cuts[..n]));
    }
  }

  lemma PiecesOfJob(table: seq<Row>, bounds: seq<int>, start: int, end: int, blockSize: nat, token: Row)
    requires Increasing(table) && NonDecreasing(bounds)
    ensures var j := JobFor(table, bounds, start, end, blockSize, token);
      Filled(PiecesFrom(j, start, 0)) == Split(Select(table, start, end), bounds)
  {
    var j := JobFor(table, bounds, start, end, blockSize, token);
    var cuts, n := [start] + j.recs, |j.recs|;
    PiecesAgree(j, start, n);
    assert cuts == Cuts(bounds, start, end) && cuts[..n + 1] == cuts;
    PiecesAreSegments(table, bounds, start, end);
  }

  /** Without trouble, splitting the extracted rows at the tokens gives exactly
      the segments of the range. */
  lemma {:induction false} BlocksAreSegments(table: seq<Row>, bounds: seq<int>, start: int, end: int, blockSize: nat,
                                             token: Row)
    requires Increasing(table) && NonDecreasing(bounds) && blockSize >= 2
    requires token.ts == 0 && forall r :: r in table ==> r != token
    ensures var j := JobFor(table, bounds, start, end, blockSize, token);
      Filled(IntervalsOf([], [], ToInputs(AllBlocks(j, start, 0), token))) == Split(Select(table, start, end), bounds)
  {
    var j := JobFor(table, bounds, start, end, blockSize, token);
    var none: seq<seq<Row>> := [];
    AllMean(j, start, 0, none);
    PiecesOfJob(table, bounds, start, end, blockSize, token);
  }
}
