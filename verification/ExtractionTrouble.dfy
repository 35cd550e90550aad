/** An interval whose remainder is filled up by the token is read again from
    timestamp 1: then rows are repeated, or the reading never ends. */
module ExtractionTrouble {
  import opened Rows
  import opened Segments
  import opened Decimators
  import opened Lives
  import opened Extraction
  import opened ExtractionRuns
  import opened ExtractionProperties

  /** The rows of a stream of blocks and breaks. */
  function RowsOf(inputs: seq<Input>): seq<Row> {
    if inputs == [] then []
    else (if inputs[0].Block? then inputs[0].rows else []) + RowsOf(inputs[1..])
  }

  /** The rows of extracted blocks, without the tokens. */
  function RowsRead(blocks: seq<seq<Row>>, token: Row): seq<Row> {
    RowsOf(ToInputs(blocks, token))
  }

  lemma {:induction false} RowsOfAppend(a: seq<Input>, b: seq<Input>)
    ensures RowsOf(a + b) == RowsOf(a) + RowsOf(b)
  {
    if a == [] {
      assert a + b == b;
    } else {
      assert (a + b)[1..] == a[1..] + b;
      RowsOfAppend(a[1..], b);
      Assoc(if a[0].Block? then a[0].rows else [], RowsOf(a[1..]), RowsOf(b));
    }
  }

  lemma RowsReadAppend(a: seq<seq<Row>>, b: seq<seq<Row>>, token: Row)
    ensures RowsRead(a + b, token) == RowsRead(a, token) + RowsRead(b, token)
  {
    ToInputsAppend(a, b, token);
    RowsOfAppend(ToInputs(a, token), ToInputs(b, token));
  }

  lemma RowsOfOne(x: Input)
    ensures RowsOf([x]) == if x.Block? then x.rows else []
  {
    var none: seq<Input> := [x][1..];
    assert none == [];
  }

  lemma RowsReadOne(block: seq<Row>, token: Row)
    ensures RowsRead([block], token) == RowsOf(InputsFor(block, token))
  {
    var none: seq<seq<Row>> := [block][1..];
    assert none == [];
    assert ToInputs([block], token) == InputsFor(block, token) + ToInputs(none, token);
    assert ToInputs([block], token) == InputsFor(block, token);
  }

  lemma RowsReadBlock(rows: seq<Row>, token: Row)
    requires NoToken(rows, token)
    ensures RowsRead([rows], token) == rows && RowsRead([rows + [token]], token) == rows
  {
    RowsReadOne(rows, token);
    RowsReadOne(rows + [token], token);
    if rows != [] {
      RowsOfOne(Block(rows));
      var block := rows + [token];
      assert block[..|block| - 1] == rows;
      RowsOfAppend([Block(rows)], [Break]);
    }
    RowsOfOne(Break);
  }

  lemma RowsReadLast(j: Job, i: nat, rows: seq<Row>)
    requires |rows| < j.blockSize && NoToken(rows, j.token)
    ensures RowsRead(PieceBlocks(j, i, rows), j.token) == rows
  {
    var none: seq<Row> := [];
    var one := [rows + [j.token]];
    RowsReadBlock(rows, j.token);
    RowsReadBlock(none, j.token);
    assert none + [j.token] == [j.token] && rows + none == rows;
    RowsReadAppend(one, [[j.token]], j.token);
  }

  lemma RowsReadFull(block: seq<Row>, more: seq<Row>, blocks: seq<seq<Row>>, token: Row)
    requires NoToken(block, token) && RowsRead(blocks, token) == more
    ensures RowsRead([block] + blocks, token) == block + more
  {
    RowsReadBlock(block, token);
    RowsReadAppend([block], blocks, token);
  }

  lemma {:induction false} RowsReadPiece(j: Job, i: nat, rows: seq<Row>)
    requires j.blockSize > 0 && NoToken(rows, j.token)
    ensures RowsRead(PieceBlocks(j, i, rows), j.token) == rows
    decreases |rows|
  {
    if |rows| >= j.blockSize {
      var block, more := rows[..j.blockSize], rows[j.blockSize..];
      PieceUnfolds(j, i, rows, more);
      RowsReadPiece(j, i, more);
      RowsReadFull(block, more, PieceBlocks(j, i, more), j.token);
    } else {
      RowsReadLast(j, i, rows);
    }
  }

  // ---- too few queries ---------------------------------------------------

  lemma {:induction false} PieceShort(j: Job, i: nat, start: int, inside: bool, fuel: nat, rows: seq<Row>)
    requires Ready(j) && i < |j.recs| && (inside || start != j.recs[i])
    requires rows == Select(j.table, start, j.recs[i])
    requires fuel < PieceQueries(j, i, rows)
    ensures !Extract(j, i, start, inside, fuel).finished
    decreases |rows|
  {
    if fuel > 0 {
      if |rows| >= j.blockSize {
        var more, next := FullStep(j, i, start, inside, fuel, rows);
        PieceShort(j, i, next, true, fuel - 1, more);
      } else {
        FilledFetch(j, i, start, rows);
        FilledGoesOn(j, i, start, inside, fuel, rows);
      }
    }
  }

  lemma FilledGoesOn(j: Job, i: nat, start: int, inside: bool, fuel: nat, rows: seq<Row>)
    requires j.token.ts == 0 && i < |j.recs| && fuel > 0 && (inside || start != j.recs[i])
    requires Fetch(j, i, start) == rows + [j.token] && |rows| + 1 == j.blockSize
    ensures Extract(j, i, start, inside, fuel) == Prepend([rows + [j.token]], Extract(j, i, 1, true, fuel - 1))
  {
    var data := rows + [j.token];
    assert data[|data| - 1].ts + 1 == 1;
    GoesOn(j, i, start, inside, fuel, data);
  }

  lemma FilledFetch(j: Job, i: nat, start: int, rows: seq<Row>)
    requires Ready(j) && i < |j.recs| && rows == Select(j.table, start, j.recs[i])
    requires |rows| < j.blockSize && FillsBlock(j, i, rows)
    ensures Fetch(j, i, start) == rows + [j.token] && |rows| + 1 == j.blockSize
  {
    assert |rows| % j.blockSize == |rows|;
  }

  lemma OwnShort(j: Job, first: int, i: nat, fuel: nat)
    requires Ready(j) && i < |j.recs| && !Trouble(j, first, i) && fuel < OwnQueries(j, first, i)
    ensures !RunFrom(j, first, i, fuel).finished
  {
    PieceShort(j, i, PieceStart(j, first, i), false, fuel, Piece(j, first, i));
  }

  // ---- the interval that is read again -----------------------------------

  ghost predicate Shows(j: Job, i: nat, out: Output, rows: seq<Row>, p: seq<seq<Row>>, b: seq<Row>, more: seq<seq<Row>>)
    requires i < |j.recs| && Select(j.table, 1, j.recs[i]) != []
  {
    && out.blocks == p + [b] + more && RowsRead(p, j.token) == rows
    && b != [] && b[0] == Select(j.table, 1, j.recs[i])[0]
  }

  lemma FilledShows(j: Job, i: nat, start: int, inside: bool, fuel: nat, rows: seq<Row>)
    returns (p: seq<seq<Row>>, b: seq<Row>, more: seq<seq<Row>>)
    requires Ready(j) && i < |j.recs| && fuel > 0 && (inside || start != j.recs[i])
    requires rows == Select(j.table, start, j.recs[i]) && NoToken(rows, j.token) && |rows| < j.blockSize
    requires FillsBlock(j, i, rows) && Select(j.table, 1, j.recs[i]) != []
    ensures var out := Extract(j, i, start, inside, fuel); out.finished ==> Shows(j, i, out, rows, p, b, more)
  {
    FilledFetch(j, i, start, rows);
    RowsReadBlock(rows, j.token);
    p, b, more := [rows + [j.token]], [], [];
    var part := Extract(j, i, 1, true, fuel - 1);
    FilledGoesOn(j, i, start, inside, fuel, rows);
    if fuel > 1 {
      b := Fetch(j, i, 1);
      more := AfterBlock(j, i, b, fuel - 2).blocks;
      RereadFetch(j, i, b, fuel - 1);
      assert part.blocks == [b] + more;
      assert p + ([b] + more) == p + [b] + more;
    } else {
      assert !part.finished;
    }
  }

  lemma RereadFetch(j: Job, i: nat, b: seq<Row>, fuel: nat)
    requires Ready(j) && i < |j.recs| && fuel > 0 && Select(j.table, 1, j.recs[i]) != [] && b == Fetch(j, i, 1)
    ensures b != [] && b[0] == Select(j.table, 1, j.recs[i])[0]
    ensures Extract(j, i, 1, true, fuel) == Prepend([b], AfterBlock(j, i, b, fuel - 1))
  {
  }

  lemma ShowsBefore(j: Job, i: nat, whole: Output, part: Output, own: seq<seq<Row>>, rows: seq<Row>, p: seq<seq<Row>>,
                    b: seq<Row>, more: seq<seq<Row>>)
    requires i < |j.recs| && Select(j.table, 1, j.recs[i]) != []
    requires whole == Prepend(own, part) && Shows(j, i, part, rows, p, b, more)
    ensures Shows(j, i, whole, RowsRead(own, j.token) + rows, own + p, b, more)
  {
    RowsReadAppend(own, p, j.token);
    assert own + (p + [b] + more) == (own + p) + [b] + more;
  }

  lemma BlockShows(j: Job, i: nat, whole: Output, part: Output, rows: seq<Row>, later: seq<Row>, p: seq<seq<Row>>,
                   b: seq<Row>, more: seq<seq<Row>>)
    requires i < |j.recs| && Select(j.table, 1, j.recs[i]) != []
    requires 0 < j.blockSize <= |rows| && NoToken(rows, j.token) && later == rows[j.blockSize..]
    requires whole == Prepend([rows[..j.blockSize]], part)
    requires part.finished ==> Shows(j, i, part, later, p, b, more)
    ensures whole.finished ==> Shows(j, i, whole, rows, [rows[..j.blockSize]] + p, b, more)
  {
    var block := rows[..j.blockSize];
    RowsReadBlock(block, j.token);
    if part.finished {
      ShowsBefore(j, i, whole, part, [block], later, p, b, more);
    }
  }

  lemma SelectTokenless(j: Job, s: int, e: int)
    requires Tokenless(j)
    ensures NoToken(Select(j.table, s, e), j.token)
  {
    var rows := Select(j.table, s, e);
    forall k | 0 <= k < |rows| ensures rows[k] != j.token {
      assert rows[k] in j.table;
    }
  }

  lemma FullTurn(j: Job, i: nat, start: int, inside: bool, fuel: nat, rows: seq<Row>)
    returns (later: seq<Row>, next: int)
    requires Ready(j) && i < |j.recs| && (inside || start != j.recs[i]) && fuel > 0
    requires rows == Select(j.table, start, j.recs[i]) && |rows| >= j.blockSize && FillsBlock(j, i, rows)
    ensures later == rows[j.blockSize..] && |later| < |rows|
    ensures later == Select(j.table, next, j.recs[i]) && FillsBlock(j, i, later)
    ensures Extract(j, i, start, inside, fuel) == Prepend([rows[..j.blockSize]], Extract(j, i, next, true, fuel - 1))
  {
    later, next := FullStep(j, i, start, inside, fuel, rows);
  }

  /** If the reading ends at all, all rows of the interval are read and then a
      row from the beginning. */
  lemma {:induction false} RereadShows(j: Job, i: nat, start: int, inside: bool, fuel: nat, rows: seq<Row>)
    returns (p: seq<seq<Row>>, b: seq<Row>, more: seq<seq<Row>>)
    requires Ready(j) && Tokenless(j) && i < |j.recs| && (inside || start != j.recs[i])
    requires rows == Select(j.table, start, j.recs[i])
    requires FillsBlock(j, i, rows) && Select(j.table, 1, j.recs[i]) != []
    ensures var out := Extract(j, i, start, inside, fuel); out.finished ==> Shows(j, i, out, rows, p, b, more)
    decreases |rows|
  {
    if fuel == 0 {
      return [], [], [];
    }
    SelectTokenless(j, start, j.recs[i]);
    if |rows| < j.blockSize {
      p, b, more := FilledShows(j, i, start, inside, fuel, rows);
    } else {
      var later, next := FullTurn(j, i, start, inside, fuel, rows);
      p, b, more := RereadShows(j, i, next, true, fuel - 1, later);
      BlockShows(j, i, Extract(j, i, start, inside, fuel), Extract(j, i, next, true, fuel - 1), rows, later, p, b,
                 more);
      p := [rows[..j.blockSize]] + p;
    }
  }

  /** An interval without trouble comes before what is shown. */
  lemma TroubleAfter(j: Job, first: int, i: nat, k: nat, fuel: nat, p: seq<seq<Row>>, b: seq<Row>, more: seq<seq<Row>>)
    requires Ready(j) && Tokenless(j) && NonDecreasing([first] + j.recs) && i < k < |j.recs|
    requires !Trouble(j, first, i) && Select(j.table, 1, j.recs[k]) != [] && fuel >= OwnQueries(j, first, i)
    requires var part := RunFrom(j, first, i + 1, fuel - OwnQueries(j, first, i));
      part.finished ==> Shows(j, k, part, Select(j.table, PieceStart(j, first, i + 1), j.recs[k]), p, b, more)
    ensures var out := RunFrom(j, first, i, fuel);
      out.finished ==>
        Shows(j, k, out, Select(j.table, PieceStart(j, first, i), j.recs[k]), Own(j, first, i) + p, b, more)
  {
    var whole, part := RunFrom(j, first, i, fuel), RunFrom(j, first, i + 1, fuel - OwnQueries(j, first, i));
    OwnRuns(j, first, i, fuel);
    OwnRows(j, first, i);
    RangeJoins(j, first, i, k);
    if part.finished {
      ShowsBefore(j, k, whole, part, Own(j, first, i), Select(j.table, PieceStart(j, first, i + 1), j.recs[k]), p, b,
                  more);
    }
  }

  /** The same from any earlier interval, if k is the first to be read again. */
  lemma {:induction false} TroubleShows(j: Job, first: int, i: nat, k: nat, fuel: nat)
    returns (p: seq<seq<Row>>, b: seq<Row>, more: seq<seq<Row>>)
    requires Ready(j) && Tokenless(j) && NonDecreasing([first] + j.recs)
    requires i <= k < |j.recs| && Trouble(j, first, k) && forall n :: i <= n < k ==> !Trouble(j, first, n)
    ensures var out := RunFrom(j, first, i, fuel);
      out.finished ==> Shows(j, k, out, Select(j.table, PieceStart(j, first, i), j.recs[k]), p, b, more)
    decreases k - i
  {
    if i == k {
      p, b, more := RereadShows(j, i, PieceStart(j, first, i), false, fuel, Piece(j, first, i));
    } else if fuel < OwnQueries(j, first, i) {
      OwnShort(j, first, i, fuel);
      p, b, more := [], [], [];
    } else {
      p, b, more := TroubleShows(j, first, i + 1, k, fuel - OwnQueries(j, first, i));
      TroubleAfter(j, first, i, k, fuel, p, b, more);
      p := Own(j, first, i) + p;
    }
  }

  lemma OwnRows(j: Job, first: int, i: nat)
    requires Ready(j) && Tokenless(j) && i < |j.recs|
    ensures RowsRead(Own(j, first, i), j.token) == Piece(j, first, i)
  {
    PieceTokenless(j, first, i);
    if PieceStart(j, first, i) != j.recs[i] {
      RowsReadPiece(j, i, Piece(j, first, i));
    }
  }

  lemma RangeJoins(j: Job, first: int, i: nat, k: nat)
    requires Increasing(j.table) && NonDecreasing([first] + j.recs) && i < k < |j.recs|
    ensures Select(j.table, PieceStart(j, first, i), j.recs[k])
        == Piece(j, first, i) + Select(j.table, PieceStart(j, first, i + 1), j.recs[k])
  {
    var cuts := [first] + j.recs;
    assert cuts[i] == PieceStart(j, first, i) && cuts[i + 1] == j.recs[i] && cuts[k + 1] == j.recs[k];
    SelectSplit(j.table, cuts[i], cuts[i + 1], cuts[k + 1]);
  }

  // ---- exactly when the extraction is right ------------------------------

  /** The extraction ended, and its rows split at the tokens are the segments
      of the range. */
  predicate Right(j: Job, bounds: seq<int>, start: int, end: int, out: Output) {
    && out.finished
    && Filled(IntervalsOf([], [], ToInputs(out.blocks, j.token))) == Split(Select(j.table, start, end), bounds)
  }

  predicate RightWith(j: Job, bounds: seq<int>, start: int, end: int, fuel: nat) {
    Right(j, bounds, start, end, Extract(j, 0, start, false, fuel))
  }

  lemma {:induction false} ConcatFilled(parts: seq<seq<Row>>)
    ensures Concat(Filled(parts)) == Concat(parts)
  {
    if parts != [] {
      ConcatFilled(parts[1..]);
      if parts[0] == [] {
        assert Filled(parts) == Filled(parts[1..]);
      } else {
        assert Filled(parts)[1..] == Filled(parts[1..]);
      }
    }
  }

  lemma {:induction false} ConcatIntervals(done: seq<seq<Row>>, now: seq<Row>, inputs: seq<Input>)
    ensures Concat(IntervalsOf(done, now, inputs)) == Concat(done) + now + RowsOf(inputs)
    decreases |inputs|
  {
    ConcatAppend(done, [now]);
    ConcatOne(now);
    if inputs != [] {
      var rest := RowsOf(inputs[1..]);
      match inputs[0] {
        case Block(rows) =>
          ConcatIntervals(done, now + rows, inputs[1..]);
          Assoc(Concat(done) + now, rows, rest);
          Assoc(Concat(done), now, rows);
        case Break =>
          var empty: seq<Row> := [];
          ConcatIntervals(done + [now], empty, inputs[1..]);
          assert Concat(done) + now + empty == Concat(done) + now;
      }
    }
  }

  lemma ConcatOne(part: seq<Row>)
    ensures Concat([part]) == part
  {
    var none: seq<seq<Row>> := [part][1..];
    assert none == [];
    assert Concat([part]) == part + Concat(none);
  }

  /** A right extraction reads the rows of the range, once each. */
  lemma RightReadsAll(j: Job, bounds: seq<int>, start: int, end: int, out: Output)
    requires Right(j, bounds, start, end, out)
    ensures RowsRead(out.blocks, j.token) == Select(j.table, start, end)
  {
    var none: seq<seq<Row>> := [];
    var empty: seq<Row> := [];
    var inputs := ToInputs(out.blocks, j.token);
    SplitIsSplit(Select(j.table, start, end), bounds);
    ConcatIntervals(none, empty, inputs);
    ConcatFilled(IntervalsOf(none, empty, inputs));
    assert Concat(none) + empty + RowsOf(inputs) == RowsOf(inputs);
  }

  /** The first interval to be read again, if any is. */
  lemma FirstTrouble(j: Job, first: int, n: nat) returns (k: nat)
    requires n < |j.recs| && Trouble(j, first, n)
    ensures k <= n && Trouble(j, first, k) && forall m :: 0 <= m < k ==> !Trouble(j, first, m)
  {
    k := 0;
    while !Trouble(j, first, k)
      invariant k <= n && forall m :: 0 <= m < k ==> !Trouble(j, first, m)
      decreases n - k
    {
      k := k + 1;
    }
  }

  /** With trouble no number of queries gives a right extraction. */
  lemma TroubleIsWrong(j: Job, bounds: seq<int>, start: int, end: int, fuel: nat, n: nat)
    requires Ready(j) && Tokenless(j) && NonDecreasing([start] + j.recs) && j.recs != [] && j.recs[|j.recs| - 1] == end
    requires n < |j.recs| && Trouble(j, start, n)
    ensures !RightWith(j, bounds, start, end, fuel)
  {
    var out := RunFrom(j, start, 0, fuel);
    var k := FirstTrouble(j, start, n);
    var p, b, more := TroubleShows(j, start, 0, k, fuel);
    CutsAround(j, start, k);
    if Right(j, bounds, start, end, out) {
      RightReadsAll(j, bounds, start, end, out);
      RereadDiffers(j, start, end, k, out, p, b, more);
    }
  }

  lemma CutsAround(j: Job, start: int, k: nat)
    requires NonDecreasing([start] + j.recs) && k < |j.recs|
    ensures start <= j.recs[k] <= j.recs[|j.recs| - 1]
  {
    var cuts := [start] + j.recs;
    assert cuts[0] == start && cuts[k + 1] == j.recs[k] && cuts[|j.recs|] == j.recs[|j.recs| - 1];
  }

  lemma RereadDiffers(j: Job, start: int, end: int, k: nat, out: Output, p: seq<seq<Row>>, b: seq<Row>,
                      more: seq<seq<Row>>)
    requires Ready(j) && Tokenless(j) && k < |j.recs| && start <= j.recs[k] <= end
        && Select(j.table, 1, j.recs[k]) != []
    requires Shows(j, k, out, Select(j.table, start, j.recs[k]), p, b, more)
    ensures RowsRead(out.blocks, j.token) != Select(j.table, start, end)
  {
    var before, after := Select(j.table, start, j.recs[k]), Select(j.table, j.recs[k], end);
    SelectSplit(j.table, start, j.recs[k], end);
    SelectSpec(j.table, 1, j.recs[k]);
    SelectSpec(j.table, j.recs[k], end);
    RowsReadAppend(p + [b], more, j.token);
    RowsReadAppend(p, [b], j.token);
    FirstRead(b, j.token);
    var read := RowsRead(out.blocks, j.token);
    assert read == before + RowsRead([b], j.token) + RowsRead(more, j.token);
    assert read[|before|] == b[0] && b[0].ts < j.recs[k];
    if |after| > 0 {
      assert (before + after)[|before|] == after[0];
    }
  }

  lemma FirstRead(b: seq<Row>, token: Row)
    requires b != [] && b[0] != token
    ensures RowsRead([b], token) != [] && RowsRead([b], token)[0] == b[0]
  {
    RowsReadOne(b, token);
    if b[|b| - 1] == token {
      RowsOfAppend([Block(b[..|b| - 1])], [Break]);
      RowsOfOne(Block(b[..|b| - 1]));
    } else {
      RowsOfOne(Block(b));
    }
  }

  /** The extraction of a range is right, given enough queries, exactly when no
      interval but the last leaves a remainder one row short of a block while
      there is a row from timestamp 1 on before its end. */
  lemma ExtractionRightIff(table: seq<Row>, bounds: seq<int>, start: int, end: int, blockSize: nat, token: Row)
    requires Increasing(table) && NonDecreasing(bounds) && blockSize >= 2
    requires token.ts == 0 && forall r :: r in table ==> r != token
    ensures var j := JobFor(table, bounds, start, end, blockSize, token);
      (exists fuel: nat :: RightWith(j, bounds, start, end, fuel))
      <==> forall k :: 0 <= k < |j.recs| ==> !Trouble(j, start, k)
  {
    var j := JobFor(table, bounds, start, end, blockSize, token);
    if forall k :: 0 <= k < |j.recs| ==> !Trouble(j, start, k) {
      var fuel := AllQueries(j, start, 0);
      AllRuns(j, start, 0, fuel);
      BlocksAreSegments(table, bounds, start, end, blockSize, token);
      assert RightWith(j, bounds, start, end, fuel);
    } else {
      var n :| 0 <= n < |j.recs| && Trouble(j, start, n);
      RecsOrdered(table, bounds, start, end, blockSize, token, n);
      forall fuel: nat ensures !RightWith(j, bounds, start, end, fuel) {
        TroubleIsWrong(j, bounds, start, end, fuel, n);
      }
    }
  }

  lemma RecsOrdered(table: seq<Row>, bounds: seq<int>, start: int, end: int, blockSize: nat, token: Row, n: nat)
    requires NonDecreasing(bounds)
    requires var j := JobFor(table, bounds, start, end, blockSize, token); n < |j.recs| && Trouble(j, start, n)
    ensures NonDecreasing([start] + JobFor(table, bounds, start, end, blockSize, token).recs)
  {
    var j := JobFor(table, bounds, start, end, blockSize, token);
    assert !Last(j, n);
    if end <= start {
      WithinEmpty(bounds, start, end);
    } else {
      CutsOrdered(bounds, start, end);
      assert [start] + j.recs == Cuts(bounds, start, end);
    }
  }

  /** The first interval of one row before a boundary, in blocks of two. */
  ghost predicate OneRowFirst(j: Job, t: int) {
    && |j.recs| == 2 && j.blockSize == 2 && j.token.ts == 0 && t >= 1
    && |Select(j.table, t, j.recs[0])| == 1 && Select(j.table, 1, j.recs[0]) == Select(j.table, t, j.recs[0])
    && t < j.recs[0]
  }

  lemma {:induction false} ReadForEver(j: Job, t: int, start: int, inside: bool, fuel: nat)
    requires OneRowFirst(j, t) && (start == t || start == 1)
    ensures !Extract(j, 0, start, inside, fuel).finished
    decreases fuel
  {
    if fuel > 0 {
      var rows := Select(j.table, t, j.recs[0]);
      assert Fetch(j, 0, start) == rows + [j.token];
      ReadForEver(j, t, 1, true, fuel - 1);
    }
  }

  /** A row, the boundary after it and another row, read in blocks of two: the
      first row is read for ever. */
  lemma TroubleExample(token: Row) returns (table: seq<Row>, bounds: seq<int>)
    requires token == IntervalToken(1)
    ensures Increasing(table) && NonDecreasing(bounds)
    ensures var j := JobFor(table, bounds, 5, 10, 2, token);
      && Trouble(j, 5, 0)
      && (forall fuel: nat :: !RightWith(j, bounds, 5, 10, fuel))
      && (forall fuel: nat, inside :: !Extract(j, 0, 5, inside, fuel).finished)
  {
    table, bounds := [Row(5, [1.0]), Row(9, [1.0])], [6];
    var j := JobFor(table, bounds, 5, 10, 2, token);
    var none: seq<int> := bounds[1..];
    assert none == [];
    assert Within(bounds, 5, 10) == [6] + Within(none, 5, 10);
    assert j.recs == [6, 10];
    BelowIs(table, 5, 0);
    BelowIs(table, 6, 1);
    BelowIs(table, 1, 0);
    assert Trouble(j, 5, 0) && OneRowFirst(j, 5);
    NeverRight(j, bounds, token);
  }

  lemma NeverRight(j: Job, bounds: seq<int>, token: Row)
    requires j == JobFor(j.table, bounds, 5, 10, 2, token) && Increasing(j.table) && NonDecreasing(bounds)
    requires token.ts == 0 && forall r :: r in j.table ==> r != token
    requires |j.recs| > 0 && Trouble(j, 5, 0) && OneRowFirst(j, 5)
    ensures forall fuel: nat :: !RightWith(j, bounds, 5, 10, fuel)
    ensures forall fuel: nat, inside :: !Extract(j, 0, 5, inside, fuel).finished
  {
    RecsOrdered(j.table, bounds, 5, 10, 2, token, 0);
    forall fuel: nat ensures !RightWith(j, bounds, 5, 10, fuel) {
      TroubleIsWrong(j, bounds, 5, 10, fuel, 0);
    }
    forall fuel: nat, inside ensures !Extract(j, 0, 5, inside, fuel).finished {
      ReadForEver(j, 5, 5, inside, fuel);
    }
  }
}
