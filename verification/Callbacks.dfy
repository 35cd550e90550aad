/** The two callbacks an extraction feeds: collecting a JSON response, and
    rebuilding the decimation tables. */
module Callbacks {
  import opened Rows
  import opened Segments
  import opened Decimators
  import opened Lives
  import opened DecimatedSegments
  import opened Extraction
  import opened ExtractionRuns
  import opened ExtractionProperties

  // ---- JSON --------------------------------------------------------------

  /** Collects the segments of a response from the blocks it is handed. */
  class JsonResponse {
    var dataBlocks: seq<seq<Row>>
    var dataSegment: Option<seq<Row>>

    constructor ()
      ensures dataBlocks == [] && dataSegment == None
    {
      dataBlocks := [];
      dataSegment := None;
    }

    method RetrieveData(data: seq<Row>, token: Row)
      modifies this
      ensures (dataBlocks, dataSegment) == Retrieved(old(dataBlocks), old(dataSegment), data, token)
    {
      if |data| == 1 && data[0] == token {
        if dataSegment.Some? {
          dataBlocks := dataBlocks + [dataSegment.value];
          dataSegment := None;
        }
      } else if |data| > 0 && data[|data| - 1] == token {
        var rows := data[..|data| - 1];
        if dataSegment.Some? {
          dataBlocks := dataBlocks + [dataSegment.value + rows];
          dataSegment := None;
        } else if |rows| > 0 {
          assert [] + rows == rows;
          dataBlocks := dataBlocks + [rows];
        }
      } else {
        if dataSegment.None? {
          assert [] + data == data;
          dataSegment := Some(data);
        } else {
          dataSegment := Some(dataSegment.value + data);
        }
      }
    }

    /** The response: the segments and the last one begun. */
    method Finish() returns (blocks: seq<seq<Row>>)
      modifies this
      ensures blocks == Response(old(dataBlocks), old(dataSegment))
    {
      if dataSegment.Some? {
        dataBlocks := dataBlocks + [dataSegment.value];
      }
      blocks := dataBlocks;
    }
  }

  function Retrieved(blocks: seq<seq<Row>>, segment: Option<seq<Row>>, data: seq<Row>, token: Row)
    : (seq<seq<Row>>, Option<seq<Row>>)
  {
    var begun := if segment.Some? then segment.value else [];
    if |data| == 1 && data[0] == token then
      (if segment.Some? then blocks + [begun] else blocks, None)
    else if |data| > 0 && data[|data| - 1] == token then
      (if segment.Some? || |data| > 1 then blocks + [begun + data[..|data| - 1]] else blocks, None)
    else (blocks, Some(begun + data))
  }

  function Response(blocks: seq<seq<Row>>, segment: Option<seq<Row>>): seq<seq<Row>> {
    if segment.Some? then blocks + [segment.value] else blocks
  }

  function RetrievedAll(blocks: seq<seq<Row>>, segment: Option<seq<Row>>, input: seq<seq<Row>>, token: Row)
    : (seq<seq<Row>>, Option<seq<Row>>)
    decreases |input|
  {
    if input == [] then (blocks, segment)
    else
      var (b, s) := Retrieved(blocks, segment, input[0], token);
      RetrievedAll(b, s, input[1..], token)
  }

  function ResponseTo(input: seq<seq<Row>>, token: Row): seq<seq<Row>> {
    var (blocks, segment) := RetrievedAll([], None, input, token);
    Response(blocks, segment)
  }

  /** A response read block by block. */
  method ReadJson(input: seq<seq<Row>>, token: Row) returns (blocks: seq<seq<Row>>)
    ensures blocks == ResponseTo(input, token)
  {
    var response := new JsonResponse();
    for n := 0 to |input|
      invariant RetrievedAll(response.dataBlocks, response.dataSegment, input[n..], token)
          == RetrievedAll([], None, input, token)
    {
      response.RetrieveData(input[n], token);
    }
    blocks := response.Finish();
  }

  // What an interval is handed: the chunks of its rows, the token left out.

  predicate Ends(data: seq<Row>, token: Row) {
    data != [] && data[|data| - 1] == token
  }

  function Chunk(data: seq<Row>, token: Row): seq<seq<Row>> {
    if !Ends(data, token) then [data] else if |data| == 1 then [] else [data[..|data| - 1]]
  }

  /** The chunks of each interval, those of the open one last. */
  function Groups(done: seq<seq<seq<Row>>>, now: seq<seq<Row>>, input: seq<seq<Row>>, token: Row): seq<seq<seq<Row>>>
    decreases |input|
  {
    if input == [] then done + [now]
    else
      var more := now + Chunk(input[0], token);
      if Ends(input[0], token) then Groups(done + [more], [], input[1..], token)
      else Groups(done, more, input[1..], token)
  }

  /** The segments shown: of every interval that was handed a chunk. */
  function Shown(groups: seq<seq<seq<Row>>>): seq<seq<Row>> {
    if groups == [] then []
    else (if groups[0] == [] then [] else [Concat(groups[0])]) + Shown(groups[1..])
  }

  function RowsOfEach(groups: seq<seq<seq<Row>>>): seq<seq<Row>> {
    if groups == [] then [] else [Concat(groups[0])] + RowsOfEach(groups[1..])
  }

  /** An interval without rows that was handed at least one chunk. */
  predicate Blank(group: seq<seq<Row>>) {
    group != [] && Concat(group) == []
  }

  function Begun(now: seq<seq<Row>>): Option<seq<Row>> {
    if now == [] then None else Some(Concat(now))
  }

  lemma {:induction false} ShownAppend(a: seq<seq<seq<Row>>>, b: seq<seq<Row>>)
    ensures Shown(a + [b]) == Shown(a) + (if b == [] then [] else [Concat(b)])
  {
    if a == [] {
      var one, none := [b], a;
      assert a + [b] == one && one[1..] == none;
    } else {
      assert (a + [b])[1..] == a[1..] + [b];
      ShownAppend(a[1..], b);
    }
  }

  lemma ConcatOne(a: seq<seq<Row>>, b: seq<Row>)
    ensures Concat(a + [b]) == Concat(a) + b
  {
    ConcatAppend(a, [b]);
    var none := [b][1..];
    assert Concat(none) == [] && Concat([b]) == b + Concat(none);
  }

  lemma RetrievedShows(done: seq<seq<seq<Row>>>, now: seq<seq<Row>>, data: seq<Row>, token: Row)
    ensures var more := now + Chunk(data, token);
      Retrieved(Shown(done), Begun(now), data, token)
      == if Ends(data, token) then (Shown(done + [more]), None) else (Shown(done), Begun(more))
  {
    var part := if Ends(data, token) then data[..|data| - 1] else data;
    ConcatOne(now, part);
    if Ends(data, token) {
      ShownAppend(done, now + Chunk(data, token));
    }
    assert now + [] == now && Shown(done) + [] == Shown(done) && Concat(now) + [] == Concat(now);
    if now == [] {
      assert Concat(now) == [];
    }
  }

  /** For every stream of chunks, empty ones too, the response has a segment for
      each interval that was handed a chunk, with the rows of its chunks. */
  lemma {:induction false} ResponseShows(done: seq<seq<seq<Row>>>, now: seq<seq<Row>>, input: seq<seq<Row>>, token: Row)
    ensures var (b, s) := RetrievedAll(Shown(done), Begun(now), input, token);
      Response(b, s) == Shown(Groups(done, now, input, token))
    decreases |input|
  {
    if input == [] {
      ShownAppend(done, now);
      assert Shown(done) + [] == Shown(done);
    } else {
      RetrievedShows(done, now, input[0], token);
      var more := now + Chunk(input[0], token);
      if Ends(input[0], token) {
        var none: seq<seq<Row>> := [];
        ResponseShows(done + [more], none, input[1..], token);
      } else {
        ResponseShows(done, more, input[1..], token);
      }
    }
  }

  // ---- and what is promised ----------------------------------------------

  /** Rows cut at the tokens, those after the last one last. */
  function TokenSplit(done: seq<seq<Row>>, now: seq<Row>, rows: seq<Row>, token: Row): seq<seq<Row>>
    decreases |rows|
  {
    if rows == [] then done + [now]
    else if rows[0] == token then TokenSplit(done + [now], [], rows[1..], token)
    else TokenSplit(done, now + [rows[0]], rows[1..], token)
  }

  /** The token is nowhere but at the end. */
  ghost predicate TokenLast(data: seq<Row>, token: Row) {
    forall i :: 0 <= i < |data| - 1 ==> data[i] != token
  }

  lemma {:induction false} SplitRows(done: seq<seq<Row>>, now: seq<Row>, data: seq<Row>, rest: seq<Row>, token: Row)
    requires NoToken(data, token)
    ensures TokenSplit(done, now, data + rest, token) == TokenSplit(done, now + data, rest, token)
    decreases |data|
  {
    if data == [] {
      assert data + rest == rest && now + data == now;
    } else {
      assert (data + rest)[1..] == data[1..] + rest;
      SplitRows(done, now + [data[0]], data[1..], rest, token);
      assert now + [data[0]] + data[1..] == now + data;
    }
  }

  lemma SplitToken(done: seq<seq<Row>>, now: seq<Row>, data: seq<Row>, rest: seq<Row>, token: Row)
    requires NoToken(data, token)
    ensures TokenSplit(done, now, data + [token] + rest, token) == TokenSplit(done + [now + data], [], rest, token)
  {
    var ended := [token] + rest;
    assert data + [token] + rest == data + ended && ended[1..] == rest;
    SplitRows(done, now, data, ended, token);
  }

  lemma SplitChunk(done: seq<seq<Row>>, now: seq<Row>, data: seq<Row>, rest: seq<Row>, token: Row)
    requires TokenLast(data, token)
    ensures TokenSplit(done, now, data + rest, token)
         == if Ends(data, token) then TokenSplit(done + [now + data[..|data| - 1]], [], rest, token)
            else TokenSplit(done, now + data, rest, token)
  {
    if Ends(data, token) {
      var rows := data[..|data| - 1];
      assert data == rows + [token];
      SplitToken(done, now, rows, rest, token);
    } else {
      SplitRows(done, now, data, rest, token);
    }
  }

  lemma {:induction false} RowsOfEachAppend(a: seq<seq<seq<Row>>>, b: seq<seq<Row>>)
    ensures RowsOfEach(a + [b]) == RowsOfEach(a) + [Concat(b)]
  {
    if a == [] {
      var one, none := [b], a;
      assert a + [b] == one && one[1..] == none;
    } else {
      assert (a + [b])[1..] == a[1..] + [b];
      RowsOfEachAppend(a[1..], b);
    }
  }

  lemma ChunkRows(now: seq<seq<Row>>, data: seq<Row>, token: Row)
    ensures Concat(now + Chunk(data, token)) == Concat(now) + (if Ends(data, token) then data[..|data| - 1] else data)
  {
    var part := if Ends(data, token) then data[..|data| - 1] else data;
    ConcatOne(now, part);
    assert now + [] == now && Concat(now) + [] == Concat(now);
  }

  /** The intervals of the chunks are those of their rows. */
  lemma {:induction false} GroupsAreSplit(done: seq<seq<seq<Row>>>, now: seq<seq<Row>>, input: seq<seq<Row>>,
                                          token: Row)
    requires forall i :: 0 <= i < |input| ==> TokenLast(input[i], token)
    ensures RowsOfEach(Groups(done, now, input, token))
        == TokenSplit(RowsOfEach(done), Concat(now), Concat(input), token)
    decreases |input|
  {
    if input == [] {
      RowsOfEachAppend(done, now);
    } else {
      var more, rest := now + Chunk(input[0], token), input[1..];
      ChunkRows(now, input[0], token);
      SplitChunk(RowsOfEach(done), Concat(now), input[0], Concat(rest), token);
      if Ends(input[0], token) {
        var none: seq<seq<Row>> := [];
        RowsOfEachAppend(done, more);
        GroupsAreSplit(done + [more], none, rest, token);
      } else {
        GroupsAreSplit(done, more, rest, token);
      }
    }
  }

  ghost predicate NoneBlank(groups: seq<seq<seq<Row>>>) {
    forall i :: 0 <= i < |groups| ==> !Blank(groups[i])
  }

  lemma {:induction false} ShownFilled(groups: seq<seq<seq<Row>>>)
    ensures |Shown(groups)| >= |Filled(RowsOfEach(groups))|
    ensures Shown(groups) == Filled(RowsOfEach(groups)) <==> NoneBlank(groups)
    ensures NoneBlank(groups) || |Shown(groups)| > |Filled(RowsOfEach(groups))|
  {
    if groups != [] {
      ShownFilled(groups[1..]);
      assert RowsOfEach(groups)[1..] == RowsOfEach(groups[1..]);
      assert NoneBlank(groups) <==> !Blank(groups[0]) && NoneBlank(groups[1..]) by {
        assert groups == [groups[0]] + groups[1..];
      }
      var none: seq<seq<Row>> := groups[0];
      assert none == [] ==> Concat(none) == [];
    }
  }

  lemma {:induction false} EmptyShown(groups: seq<seq<seq<Row>>>)
    ensures [] in Shown(groups) <==> !NoneBlank(groups)
  {
    if groups != [] {
      var rest := Shown(groups[1..]);
      EmptyShown(groups[1..]);
      assert NoneBlank(groups) <==> !Blank(groups[0]) && NoneBlank(groups[1..]) by {
        assert groups == [groups[0]] + groups[1..];
      }
      assert Shown(groups) == (if groups[0] == [] then [] else [Concat(groups[0])]) + rest;
    }
  }

  function GroupsIn(input: seq<seq<Row>>, token: Row): seq<seq<seq<Row>>> {
    Groups([], [], input, token)
  }

  lemma ResponseIsShown(input: seq<seq<Row>>, token: Row)
    ensures ResponseTo(input, token) == Shown(GroupsIn(input, token))
  {
    var done: seq<seq<seq<Row>>>, now: seq<seq<Row>> := [], [];
    assert Shown(done) == [] && Begun(now) == None;
    ResponseShows(done, now, input, token);
  }

  /** Whatever the chunks, the response has an empty segment if and only if some
      interval without rows was handed a chunk without rows. */
  lemma EmptySegmentIff(input: seq<seq<Row>>, token: Row)
    ensures [] in ResponseTo(input, token) <==> !NoneBlank(GroupsIn(input, token))
  {
    ResponseIsShown(input, token);
    EmptyShown(GroupsIn(input, token));
  }

  /** What an extraction without rows hands over: one chunk without rows, which
      the response shows as a segment. */
  lemma EmptySegmentShown(token: Row)
    ensures var input: seq<seq<Row>> := [[]];
      ResponseTo(input, token) == [[]] && Filled(TokenSplit([], [], Concat(input), token)) == []
  {
    var input: seq<seq<Row>>, none: seq<seq<Row>>, now: seq<Row> := [[]], [], [];
    assert input[1..] == none && now + input[0] == now;
    assert Retrieved(none, None, input[0], token) == (none, Some(now));
    assert RetrievedAll(none, Some(now), none, token) == (none, Some(now));
    assert Concat(none) == [] && Concat(input) == input[0] + Concat(none);
    FilledOne(now);
  }

  /** The response is the rows of all chunks cut at the tokens, without empty
      segments, if and only if no interval without rows was handed a chunk. */
  lemma ResponseIsSplitIff(input: seq<seq<Row>>, token: Row)
    requires forall i :: 0 <= i < |input| ==> TokenLast(input[i], token)
    ensures ResponseTo(input, token) == Filled(TokenSplit([], [], Concat(input), token))
      <==> NoneBlank(GroupsIn(input, token))
  {
    var done: seq<seq<seq<Row>>>, now: seq<seq<Row>> := [], [];
    assert RowsOfEach(done) == [] && Concat(now) == [];
    ResponseIsShown(input, token);
    GroupsAreSplit(done, now, input, token);
    ShownFilled(GroupsIn(input, token));
  }

  ghost predicate NoneEmpty(input: seq<seq<Row>>) {
    forall i :: 0 <= i < |input| ==> input[i] != []
  }

  lemma {:induction false} NoneBlankYet(done: seq<seq<seq<Row>>>, now: seq<seq<Row>>, input: seq<seq<Row>>, token: Row)
    requires NoneBlank(done) && !Blank(now) && NoneEmpty(input)
    ensures NoneBlank(Groups(done, now, input, token))
    decreases |input|
  {
    if input != [] {
      ChunkRows(now, input[0], token);
      var more := now + Chunk(input[0], token);
      assert Chunk(input[0], token) == [] ==> more == now;
      if Ends(input[0], token) {
        var none: seq<seq<Row>> := [];
        NoneBlankYet(done + [more], none, input[1..], token);
      } else {
        NoneBlankYet(done, more, input[1..], token);
      }
    }
  }

  lemma FullChunks(input: seq<seq<Row>>, token: Row)
    requires NoneEmpty(input)
    ensures NoneBlank(GroupsIn(input, token))
  {
    var done: seq<seq<seq<Row>>>, now: seq<seq<Row>> := [], [];
    NoneBlankYet(done, now, input, token);
  }

  /** For chunks that are not empty and have the token at most as their last row
      the response is their rows cut at the tokens, without empty segments. */
  lemma ResponseIsSplit(input: seq<seq<Row>>, token: Row)
    requires NoneEmpty(input) && forall i :: 0 <= i < |input| ==> TokenLast(input[i], token)
    ensures ResponseTo(input, token) == Filled(TokenSplit([], [], Concat(input), token))
  {
    FullChunks(input, token);
    ResponseIsSplitIff(input, token);
  }

  /** So it does not matter how the rows were cut into chunks. */
  lemma ChunkingIsFree(a: seq<seq<Row>>, b: seq<seq<Row>>, token: Row)
    requires NoneEmpty(a) && forall i :: 0 <= i < |a| ==> TokenLast(a[i], token)
    requires NoneEmpty(b) && forall i :: 0 <= i < |b| ==> TokenLast(b[i], token)
    requires Concat(a) == Concat(b)
    ensures ResponseTo(a, token) == ResponseTo(b, token)
  {
    ResponseIsSplit(a, token);
    ResponseIsSplit(b, token);
  }

  // ---- the response to a range -------------------------------------------

  lemma {:induction false} GroupsAreIntervals(done: seq<seq<seq<Row>>>, now: seq<seq<Row>>, input: seq<seq<Row>>,
                                              token: Row)
    ensures RowsOfEach(Groups(done, now, input, token))
        == IntervalsOf(RowsOfEach(done), Concat(now), ToInputs(input, token))
    decreases |input|
  {
    if input == [] {
      RowsOfEachAppend(done, now);
    } else {
      var data, rest := input[0], ToInputs(input[1..], token);
      var more := now + Chunk(data, token);
      ChunkRows(now, data, token);
      if Ends(data, token) {
        var none: seq<seq<Row>> := [];
        RowsOfEachAppend(done, more);
        GroupsAreIntervals(done + [more], none, input[1..], token);
        EndInputs(RowsOfEach(done), Concat(now), data, token, rest);
      } else {
        GroupsAreIntervals(done, more, input[1..], token);
        DataInputs(RowsOfEach(done), Concat(now), data, token, rest);
      }
    }
  }

  lemma EndInputs(done: seq<seq<Row>>, now: seq<Row>, data: seq<Row>, token: Row, rest: seq<Input>)
    requires Ends(data, token)
    ensures IntervalsOf(done, now, InputsFor(data, token) + rest)
        == IntervalsOf(done + [now + data[..|data| - 1]], [], rest)
  {
    var rows := data[..|data| - 1];
    if |data| == 1 {
      assert now + rows == now;
      IntervalsBreak(done, now, rest);
    } else {
      Assoc([Block(rows)], [Break], rest);
      IntervalsBlock(done, now, rows, [Break] + rest);
      IntervalsBreak(done, now + rows, rest);
    }
  }

  lemma DataInputs(done: seq<seq<Row>>, now: seq<Row>, data: seq<Row>, token: Row, rest: seq<Input>)
    requires !Ends(data, token)
    ensures IntervalsOf(done, now, InputsFor(data, token) + rest) == IntervalsOf(done, now + data, rest)
  {
    if data == [] {
      assert InputsFor(data, token) + rest == rest && now + data == now;
    } else {
      IntervalsBlock(done, now, data, rest);
    }
  }

  lemma ResponseIsIntervals(input: seq<seq<Row>>, token: Row)
    requires NoneEmpty(input)
    ensures ResponseTo(input, token) == Filled(IntervalsOf([], [], ToInputs(input, token)))
  {
    var done: seq<seq<seq<Row>>>, now: seq<seq<Row>> := [], [];
    assert RowsOfEach(done) == [] && Concat(now) == [];
    ResponseIsShown(input, token);
    FullChunks(input, token);
    GroupsAreIntervals(done, now, input, token);
    ShownFilled(GroupsIn(input, token));
  }

  lemma {:induction false} BlocksNotEmpty(j: Job, first: int, i: nat)
    requires i <= |j.recs| && j.blockSize > 0
    ensures forall n :: 0 <= n < |AllBlocks(j, first, i)| ==> AllBlocks(j, first, i)[n] != []
    decreases |j.recs| - i
  {
    if i < |j.recs| {
      BlocksNotEmpty(j, first, i + 1);
      PieceNotEmpty(j, i, Piece(j, first, i));
    }
  }

  lemma {:induction false} PieceNotEmpty(j: Job, i: nat, rows: seq<Row>)
    requires j.blockSize > 0
    ensures forall n :: 0 <= n < |PieceBlocks(j, i, rows)| ==> PieceBlocks(j, i, rows)[n] != []
    decreases |rows|
  {
    if |rows| >= j.blockSize {
      PieceNotEmpty(j, i, rows[j.blockSize..]);
    }
  }

  /** The JSON response to a range is the list of its segments, if the
      extraction reads nothing again. */
  lemma JsonIsSegments(table: seq<Row>, bounds: seq<int>, start: int, end: int, blockSize: nat, token: Row, fuel: nat)
    requires Increasing(table) && NonDecreasing(bounds) && blockSize >= 2
    requires token.ts == 0 && forall r :: r in table ==> r != token
    requires var j := JobFor(table, bounds, start, end, blockSize, token);
      fuel >= AllQueries(j, start, 0) && forall k :: 0 <= k < |j.recs| ==> !Trouble(j, start, k)
    ensures var out := Extract(JobFor(table, bounds, start, end, blockSize, token), 0, start, false, fuel);
      out.finished && ResponseTo(out.blocks, token) == Split(Select(table, start, end), bounds)
  {
    var j := JobFor(table, bounds, start, end, blockSize, token);
    AllRuns(j, start, 0, fuel);
    BlocksAreSegments(table, bounds, start, end, blockSize, token);
    BlocksNotEmpty(j, start, 0);
    ResponseIsIntervals(AllBlocks(j, start, 0), token);
  }

  // ---- rebuilding the decimation tables ----------------------------------

  /** Feed a new chain of stages from extracted blocks. */
  method Redecimate(blocks: seq<seq<Row>>, token: Row) returns (d: Decimator)
    ensures d.Valid() && fresh(d.Repr) && d.Model() == Run(NewStage(1), ToInputs(blocks, token))
  {
    d := new Decimator(1);
    for n := 0 to |blocks|
      invariant d.Valid() && fresh(d.Repr)
      invariant Run(d.Model(), ToInputs(blocks[n..], token)) == Run(NewStage(1), ToInputs(blocks, token))
    {
      var data := blocks[n];
      RunBlock(d.Model(), data, token, ToInputs(blocks[n + 1..], token));
      assert blocks[n..][0] == data && blocks[n..][1..] == blocks[n + 1..];
      if |data| == 0 {
        continue;
      }
      if |data| == 1 && data[0] == token {
        d.CloseInterval();
      } else if data[|data| - 1] == token {
        d.Process(data[..|data| - 1]);
        d.CloseInterval();
      } else {
        d.Process(data);
      }
    }
  }

  lemma RunBlock(s: Stage, data: seq<Row>, token: Row, rest: seq<Input>)
    ensures Run(s, InputsFor(data, token) + rest)
         == Run(if data == [] then s
                else if |data| == 1 && data[0] == token then Close(s)
                else if data[|data| - 1] == token then Close(Feed(s, data[..|data| - 1]))
                else Feed(s, data), rest)
  {
    if data == [] {
      assert InputsFor(data, token) + rest == rest;
    } else if |data| == 1 && data[0] == token {
      assert ([Break] + rest)[1..] == rest;
    } else if data[|data| - 1] == token {
      var rows := data[..|data| - 1];
      Assoc([Block(rows)], [Break], rest);
      assert ([Block(rows)] + ([Break] + rest))[1..] == [Break] + rest;
      assert ([Break] + rest)[1..] == rest;
    } else {
      assert ([Block(data)] + rest)[1..] == rest;
    }
  }

  /** Redecimating a range gives, whatever the block size, at level 4^(k + 1)
      the decimation of each of its intervals, if nothing is read again. */
  lemma RedecimationIsBatch(table: seq<Row>, bounds: seq<int>, start: int, end: int, blockSize: nat, token: Row,
                            fuel: nat, k: nat)
    requires Increasing(table) && NonDecreasing(bounds) && blockSize >= 2
    requires token.ts == 0 && forall r :: r in table ==> r != token
    requires var j := JobFor(table, bounds, start, end, blockSize, token);
      fuel >= AllQueries(j, start, 0) && forall n :: 0 <= n < |j.recs| ==> !Trouble(j, start, n)
    ensures var out := Extract(JobFor(table, bounds, start, end, blockSize, token), 0, start, false, fuel);
      out.finished &&
      TableAt(Run(NewStage(1), ToInputs(out.blocks, token)), k)
          == Concat(LevelEach(k + 1, Split(Select(table, start, end), bounds)))
  {
    var j := JobFor(table, bounds, start, end, blockSize, token);
    AllRuns(j, start, 0, fuel);
    BlocksAreSegments(table, bounds, start, end, blockSize, token);
    DecimationIsBatch(ToInputs(AllBlocks(j, start, 0), token), k);
    FilledLevels(k + 1, IntervalsOf([], [], ToInputs(AllBlocks(j, start, 0), token)));
  }
}
