/** Counting a range of rows from the tables, and how many rows a range read at
    the level chosen from that count returns. */
module RangeBudget {
  import opened Arithmetic
  import opened Rows
  import opened Segments
  import opened Decimation
  import opened DecimatedKeys
  import opened Decimators
  import opened DecimatedSegments
  import opened RowBudget
  import Store

  // ---- counting ----------------------------------------------------------

  /** The table at level 4^k of a stream with these intervals. */
  function TableOf(segs: seq<seq<Row>>, k: nat): seq<Row> {
    Concat(LevelEach(k, segs))
  }

  /** The raw table and those of the levels up to 4^top. */
  function Tables(segs: seq<seq<Row>>, top: nat): (tables: seq<seq<Row>>)
    ensures |tables| == top + 1
  {
    seq(top + 1, k requires 0 <= k => TableOf(segs, k))
  }

  /** The coarsest level with at least 25 rows in the range, or the raw rows. */
  function CountedAt(tables: seq<seq<Row>>, s: int, e: int, level: nat): (d: nat)
    requires level < |tables|
    ensures d <= level
  {
    if level == 0 || |Select(tables[level], s, e)| >= 25 then level else CountedAt(tables, s, e, level - 1)
  }

  function Estimate(n: nat, d: nat): nat { n * Pow4(d) }

  /** Each row of a level stands for 4^d raw ones; a count of the raw rows takes
      the end of the range in. */
  function CountOf(tables: seq<seq<Row>>, s: int, e: int, d: nat): nat
    requires d < |tables|
  {
    if d == 0 then |Select(tables[0], s, e + 1)| else Estimate(|Select(tables[d], s, e)|, d)
  }

  method StreamRowCount(tables: seq<seq<Row>>, s: int, e: int) returns (count: nat)
    requires tables != []
    ensures count == CountOf(tables, s, e, CountedAt(tables, s, e, |tables| - 1))
  {
    var level := |tables| - 1;
    while level > 0
      invariant 0 <= level < |tables|
      invariant CountedAt(tables, s, e, level) == CountedAt(tables, s, e, |tables| - 1)
    {
      if |Select(tables[level], s, e)| >= 25 {
        break;
      }
      level := level - 1;
    }
    assert CountedAt(tables, s, e, level) == level;
    if level > 0 {
      return Estimate(|Select(tables[level], s, e)|, level);
    }
    return |Select(tables[0], s, e + 1)|;
  }

  // ---- a whole stream ----------------------------------------------------

  ghost predicate Covers(rows: seq<Row>, s: int, e: int) {
    forall i :: 0 <= i < |rows| ==> s <= rows[i].ts < e
  }

  lemma SelectCovered(rows: seq<Row>, s: int, e: int)
    requires Increasing(rows) && Covers(rows, s, e)
    ensures Select(rows, s, e) == rows
  {
    BelowIs(rows, s, 0);
    BelowIs(rows, e, |rows|);
  }

  lemma TableCovered(segs: seq<seq<Row>>, k: nat, s: int, e: int)
    requires Increasing(Concat(segs)) && Covers(Concat(segs), s, e)
    ensures Select(TableOf(segs, k), s, e) == TableOf(segs, k)
  {
    var rows, table := Concat(segs), TableOf(segs, k);
    var pos := RawGroups(k, segs);
    TableIncreasing(k, segs);
    forall i | 0 <= i < |table| ensures s <= table[i].ts < e {
      assert GroupedAt(rows, table[i].ts, pos[i], Pow4(k));
    }
    SelectCovered(table, s, e);
  }

  /** For a range that covers the stream the count is that of its intervals. */
  lemma {:induction false} WholeCount(segs: seq<seq<Row>>, s: int, e: int, top: nat, level: nat)
    requires Increasing(Concat(segs)) && Covers(Concat(segs), s, e) && level <= top
    ensures var d := CountedAt(Tables(segs, top), s, e, level);
      && d == CountedLevel(Lengths(segs), level)
      && CountOf(Tables(segs, top), s, e, d) == RowsAt(d, Lengths(segs)) * Pow4(d)
    decreases level
  {
    LevelWhole(segs, s, e, top, level);
    if level > 0 && RowsAt(level, Lengths(segs)) < 25 {
      WholeCount(segs, s, e, top, level - 1);
    }
  }

  lemma LevelWhole(segs: seq<seq<Row>>, s: int, e: int, top: nat, level: nat)
    requires Increasing(Concat(segs)) && Covers(Concat(segs), s, e) && level <= top
    ensures |Select(Tables(segs, top)[level], s, e)| == RowsAt(level, Lengths(segs))
    ensures CountOf(Tables(segs, top), s, e, level) == RowsAt(level, Lengths(segs)) * Pow4(level)
  {
    TableCovered(segs, level, s, e);
    TableSize(level, segs);
    if level == 0 {
      TableCovered(segs, 0, s, e + 1);
      assert Pow4(0) == 1;
    }
  }

  // ---- groups ------------------------------------------------------------

  /** Where in the finer rows the group of each decimated row starts. */
  ghost predicate Grouped(rows: seq<Row>, table: seq<Row>, pos: seq<nat>, p: nat) {
    && p > 0 && |pos| == |table|
    && (forall j :: 0 <= j < |pos| ==> pos[j] + p <= |rows|)
    && (forall j {:trigger NextApart(pos, p, j)} :: 0 <= j < |pos| - 1 ==> NextApart(pos, p, j))
    && (forall j :: 0 <= j < |pos| ==> GroupedAt(rows, table[j].ts, pos[j], p))
  }

  ghost predicate NextApart(pos: seq<nat>, p: nat, j: nat) {
    j + 1 < |pos| && pos[j] + p <= pos[j + 1]
  }

  ghost predicate GroupedAt(rows: seq<Row>, t: int, at: nat, p: nat) {
    p > 0 && at + p <= |rows| && rows[at].ts <= t <= rows[at + p - 1].ts
  }

  /** Where group j of p rows each begins. */
  function Product(j: nat, p: nat): nat {
    if j == 0 then 0 else Product(j - 1, p) + p
  }

  lemma {:induction false} ProductIs(j: nat, p: nat)
    ensures Product(j, p) == j * p
  {
    if j > 0 {
      ProductIs(j - 1, p);
      assert j * p == (j - 1) * p + p;
    }
  }

  lemma {:induction false} ProductFour(j: nat, p: nat)
    ensures Product(j, 4 * p) == Product(4 * j, p) && Product(4 * j + 3, p) == Product(4 * j, p) + 3 * p
  {
    if j > 0 {
      ProductFour(j - 1, p);
      assert Product(4 * j, p) == Product(4 * j - 1, p) + p == Product(4 * (j - 1) + 3, p) + p;
    }
    assert Product(4 * j + 3, p) == Product(4 * j + 2, p) + p && Product(4 * j + 2, p) == Product(4 * j + 1, p) + p;
  }

  /** Row j of a table stands for group j of the finer rows. */
  ghost predicate InGroups(rows: seq<Row>, table: seq<Row>, p: nat) {
    forall j :: 0 <= j < |table| ==> GroupedAt(rows, table[j].ts, Product(j, p), p)
  }

  /** Row j of a table lies among the four rows 4j to 4j + 3. */
  ghost predicate Fourfold(finer: seq<Row>, table: seq<Row>) {
    forall j :: 0 <= j < |table| ==> FourAt(finer, table[j].ts, j)
  }

  ghost predicate FourAt(finer: seq<Row>, t: int, j: nat) {
    4 * j + 3 < |finer| && finer[4 * j].ts <= t <= finer[4 * j + 3].ts
  }

  lemma DecimatedFourfold(again: bool, rows: seq<Row>)
    requires Increasing(rows)
    ensures Fourfold(rows, Decimate(again, rows))
  {
    var table := Decimate(again, rows);
    forall j | 0 <= j < |table| ensures FourAt(rows, table[j].ts, j) {
      DecimateInSpan(again, rows, j);
    }
  }

  lemma SingleGroups(rows: seq<Row>)
    ensures InGroups(rows, rows, 1)
  {
    forall j | 0 <= j < |rows| ensures GroupedAt(rows, rows[j].ts, Product(j, 1), 1) {
      ProductOne(j);
    }
  }

  lemma {:induction false} ProductOne(j: nat)
    ensures Product(j, 1) == j
  {
    if j > 0 {
      ProductOne(j - 1);
    }
  }

  /** Four neighbouring groups make one. */
  lemma NextGroups(rows: seq<Row>, finer: seq<Row>, table: seq<Row>, p: nat)
    requires InGroups(rows, finer, p) && Fourfold(finer, table)
    ensures InGroups(rows, table, 4 * p)
  {
    forall j | 0 <= j < |table| ensures GroupedAt(rows, table[j].ts, Product(j, 4 * p), 4 * p) {
      assert FourAt(finer, table[j].ts, j);
      ProductFour(j, p);
      assert GroupedAt(rows, finer[4 * j].ts, Product(4 * j, p), p);
      assert GroupedAt(rows, finer[4 * j + 3].ts, Product(4 * j + 3, p), p);
    }
  }

  lemma NextLevel(k: nat, seg: seq<Row>) returns (table: seq<Row>)
    requires Increasing(seg)
    ensures table == Level(k + 1, seg) && Fourfold(Level(k, seg), table)
  {
    LevelIncreasing(k, seg);
    DecimatedFourfold(k > 0, Level(k, seg));
    table := Level(k + 1, seg);
  }

  /** A row at level 4^(d + e) stands for 4^e rows at level 4^d. */
  lemma {:induction false} LevelGroups(d: nat, e: nat, k: nat, seg: seq<Row>)
    requires Increasing(seg) && k == d + e
    ensures InGroups(Level(d, seg), Level(k, seg), Pow4(e))
    decreases e
  {
    if e == 0 {
      SingleGroups(Level(d, seg));
    } else {
      var e1, k1 := e - 1, k - 1;
      LevelGroups(d, e1, k1, seg);
      var table := NextLevel(k1, seg);
      NextGroups(Level(d, seg), Level(k1, seg), table, Pow4(e1));
      assert table == Level(k, seg) && 4 * Pow4(e1) == Pow4(e);
    }
  }

  lemma GroupsInOrder(rows: seq<Row>, table: seq<Row>, p: nat) returns (pos: seq<nat>)
    requires InGroups(rows, table, p) && p > 0
    ensures Grouped(rows, table, pos, p)
  {
    pos := seq(|table|, j requires 0 <= j => Product(j, p));
    forall j | 0 <= j < |pos| ensures GroupedAt(rows, table[j].ts, pos[j], p) {
    }
  }

  lemma SegmentGroups(d: nat, e: nat, seg: seq<Row>) returns (pos: seq<nat>)
    requires Increasing(seg)
    ensures Grouped(Level(d, seg), Level(d + e, seg), pos, Pow4(e))
  {
    LevelGroups(d, e, d + e, seg);
    pos := GroupsInOrder(Level(d, seg), Level(d + e, seg), Pow4(e));
  }

  lemma JoinGroups(a: seq<Row>, b: seq<Row>, x: seq<Row>, y: seq<Row>, pa: seq<nat>, pb: seq<nat>, p: nat)
    returns (pos: seq<nat>)
    requires Grouped(a, x, pa, p) && Grouped(b, y, pb, p)
    ensures Grouped(a + b, x + y, pos, p)
  {
    pos := pa + seq(|pb|, j requires 0 <= j < |pb| => |a| + pb[j]);
    var rows, table := a + b, x + y;
    forall j | 0 <= j < |pos| ensures GroupedAt(rows, table[j].ts, pos[j], p) {
      if j < |pa| {
        assert GroupedAt(a, x[j].ts, pa[j], p);
      } else {
        assert GroupedAt(b, y[j - |pa|].ts, pb[j - |pa|], p);
      }
    }
    forall j | 0 <= j < |pos| - 1 ensures NextApart(pos, p, j) {
      if j >= |pa| {
        assert NextApart(pb, p, j - |pa|);
      } else if j < |pa| - 1 {
        assert NextApart(pa, p, j);
      }
    }
  }

  lemma {:induction false} TableGroups(d: nat, e: nat, segs: seq<seq<Row>>) returns (pos: seq<nat>)
    requires Increasing(Concat(segs))
    ensures Grouped(TableOf(segs, d), TableOf(segs, d + e), pos, Pow4(e))
  {
    if segs == [] {
      pos := [];
    } else {
      var first, rest := segs[0], segs[1..];
      Store.IncreasingTail(first, Concat(rest));
      LevelEachCons(d, segs);
      LevelEachCons(d + e, segs);
      var pa := SegmentGroups(d, e, first);
      var pb := TableGroups(d, e, rest);
      pos := JoinGroups(Level(d, first), TableOf(rest, d), Level(d + e, first), TableOf(rest, d + e), pa, pb, Pow4(e));
    }
  }

  lemma RawGroups(k: nat, segs: seq<seq<Row>>) returns (pos: seq<nat>)
    requires Increasing(Concat(segs))
    ensures Grouped(Concat(segs), TableOf(segs, k), pos, Pow4(k))
  {
    LevelZero(segs);
    pos := TableGroups(0, k, segs);
  }

  lemma {:induction false} GroupsApart(rows: seq<Row>, table: seq<Row>, pos: seq<nat>, p: nat, a: nat, b: nat)
    requires Grouped(rows, table, pos, p) && a <= b < |pos|
    ensures pos[a] + Product(b - a, p) <= pos[b]
    decreases b - a
  {
    if a < b {
      GroupsApart(rows, table, pos, p, a, b - 1);
      assert NextApart(pos, p, b - 1);
    }
  }

  lemma TableIncreasing(k: nat, segs: seq<seq<Row>>)
    requires Increasing(Concat(segs))
    ensures Increasing(TableOf(segs, k))
  {
    var pos := RawGroups(k, segs);
    var rows, table := Concat(segs), TableOf(segs, k);
    forall i, j | 0 <= i < j < |table| ensures table[i].ts < table[j].ts {
      GroupsApart(rows, table, pos, Pow4(k), i, j);
      assert GroupedAt(rows, table[i].ts, pos[i], Pow4(k)) && GroupedAt(rows, table[j].ts, pos[j], Pow4(k));
      assert rows[pos[i] + Pow4(k) - 1].ts < rows[pos[j]].ts;
    }
  }

  lemma InRange(rows: seq<Row>, s: int, e: int, first: nat, last: nat)
    requires Increasing(rows) && first <= last < |rows| && s <= rows[first].ts && rows[last].ts < e
    ensures last - first + 1 <= |Select(rows, s, e)|
  {
    BelowSpec(rows, s);
    BelowSpec(rows, e);
  }

  lemma RangeStart(table: seq<Row>, s: int, e: int, n: nat) returns (a: nat)
    requires Increasing(table) && n == |Select(table, s, e)| && n > 0
    ensures a + n <= |table| && s <= table[a].ts && table[a + n - 1].ts < e
  {
    BelowSpec(table, s);
    BelowSpec(table, e);
    a := Below(table, s);
  }

  lemma GroupEnds(rows: seq<Row>, table: seq<Row>, pos: seq<nat>, p: nat, j: nat)
    requires Grouped(rows, table, pos, p) && j < |table|
    ensures 0 < p <= pos[j] + p <= |rows| && rows[pos[j]].ts <= table[j].ts <= rows[pos[j] + p - 1].ts
  {
    assert GroupedAt(rows, table[j].ts, pos[j], p);
  }

  /** The rows between two groups and an end of each. */
  lemma BetweenGroups(rows: seq<Row>, table: seq<Row>, pos: seq<nat>, p: nat, a: nat, n: nat)
    returns (first: nat, last: nat)
    requires Grouped(rows, table, pos, p) && n >= 2 && a + n <= |table|
    ensures first < last < |rows| && last - first + 1 >= Product(n - 2, p) + 2
    ensures table[a].ts <= rows[first].ts && rows[last].ts <= table[a + n - 1].ts
  {
    GroupEnds(rows, table, pos, p, a);
    GroupEnds(rows, table, pos, p, a + n - 1);
    GroupsApart(rows, table, pos, p, a, a + n - 1);
    assert Product(n - 1, p) == Product(n - 2, p) + p;
    first, last := pos[a] + p - 1, pos[a + n - 1];
  }

  /** All groups of a range but the first and last lie in it whole, and those
      two reach into it. */
  lemma RangeCount(rows: seq<Row>, table: seq<Row>, pos: seq<nat>, p: nat, s: int, e: int, n: nat)
    requires Increasing(rows) && Increasing(table) && Grouped(rows, table, pos, p)
    requires n == |Select(table, s, e)| && n >= 2
    ensures Product(n - 2, p) + 2 <= |Select(rows, s, e)|
  {
    var a := RangeStart(table, s, e, n);
    var first, last := BetweenGroups(rows, table, pos, p, a, n);
    InRange(rows, s, e, first, last);
  }

  lemma BudgetBound(n: nat, m: nat, maxRows: nat, p: nat, count: nat)
    requires n >= 2 ==> Product(n - 2, p) + 2 <= m
    requires m <= count <= p * maxRows && maxRows > 0
    ensures n <= maxRows + 1
  {
    if n >= 2 {
      ProductIs(n - 2, p);
      assert p * maxRows == maxRows * p;
      if n - 2 >= maxRows {
        MulOrder(maxRows, n - 2, p);
      }
    }
  }

  lemma GroupsBudget(rows: seq<Row>, table: seq<Row>, pos: seq<nat>, p: nat, s: int, e: int, count: nat, maxRows: nat)
    requires Increasing(rows) && Increasing(table) && Grouped(rows, table, pos, p)
    requires |Select(rows, s, e)| <= count <= p * maxRows && maxRows > 0
    ensures |Select(table, s, e)| <= maxRows + 1
  {
    var n := |Select(table, s, e)|;
    if n >= 2 {
      RangeCount(rows, table, pos, p, s, e, n);
    }
    BudgetBound(n, |Select(rows, s, e)|, maxRows, p, count);
  }

  // ---- a range -----------------------------------------------------------

  lemma {:induction false} PowerAdds(a: nat, b: nat)
    ensures Pow4(a + b) == Pow4(a) * Pow4(b)
  {
    if a > 0 {
      PowerAdds(a - 1, b);
      assert 4 * (Pow4(a - 1) * Pow4(b)) == 4 * Pow4(a - 1) * Pow4(b);
    }
  }

  lemma Divide(n: nat, m: nat, p: nat, q: nat)
    requires p > 0 && n * p <= p * q * m
    ensures n <= q * m
  {
    assert p * q * m == p * (q * m);
    Cancel(n, q * m, p);
  }

  /** Reading a range of n rows at level 4^d at a coarser level, chosen for
      them, returns at most one row more than the budget. */
  lemma CoarserRange(segs: seq<seq<Row>>, s: int, e: int, d: nat, up: nat, count: nat, maxRows: nat)
    requires Increasing(Concat(segs)) && maxRows > 0
    requires |Select(TableOf(segs, d), s, e)| <= count && count * Pow4(d) <= Pow4(d + up) * maxRows
    ensures |Select(TableOf(segs, d + up), s, e)| <= maxRows + 1
  {
    PowerAdds(d, up);
    Divide(count, maxRows, Pow4(d), Pow4(up));
    var pos := TableGroups(d, up, segs);
    TableIncreasing(d, segs);
    TableIncreasing(d + up, segs);
    GroupsBudget(TableOf(segs, d), TableOf(segs, d + up), pos, Pow4(up), s, e, count, maxRows);
  }

  lemma LaterEnd(rows: seq<Row>, s: int, e: int)
    requires Increasing(rows)
    ensures |Select(rows, s, e)| <= |Select(rows, s, e + 1)|
  {
    BelowMonotone(rows, e, e + 1);
  }

  /** What is read of a range whose rows were counted at level 4^d. */
  lemma {:induction false} CountedKept(segs: seq<seq<Row>>, s: int, e: int, top: nat, d: nat, maxRows: nat)
    requires Increasing(Concat(segs)) && maxRows > 0 && d <= top
    requires ChosenLevel(CountOf(Tables(segs, top), s, e, d), maxRows) >= d
    ensures |Select(TableOf(segs, ChosenLevel(CountOf(Tables(segs, top), s, e, d), maxRows)), s, e)| <= maxRows + 1
  {
    var count := CountOf(Tables(segs, top), s, e, d);
    var k := ChosenLevel(count, maxRows);
    ChosenIsLeast(count, maxRows);
    if d == 0 {
      TableIncreasing(0, segs);
      LaterEnd(TableOf(segs, 0), s, e);
      assert Pow4(0) == 1;
      CoarserRange(segs, s, e, 0, k, count, maxRows);
    } else {
      CoarserRange(segs, s, e, d, k - d, |Select(TableOf(segs, d), s, e)|, maxRows);
    }
  }

  /** Reading any range, at the level chosen from the count of its rows, returns
      at most one row more than the budget, whenever that level is at least as
      coarse as the one counted; counts of raw rows always are. */
  lemma RangeBudgetKept(rows: seq<Row>, bounds: seq<int>, s: int, e: int, top: nat, maxRows: nat)
    requires Increasing(rows) && maxRows > 0
    ensures var segs := Split(rows, bounds);
      var d := CountedAt(Tables(segs, top), s, e, top);
      var k := ChosenLevel(CountOf(Tables(segs, top), s, e, d), maxRows);
      k >= d ==> |Select(TableOf(segs, k), s, e)| <= maxRows + 1
  {
    SplitIsSplit(rows, bounds);
    var segs := Split(rows, bounds);
    var d := CountedAt(Tables(segs, top), s, e, top);
    if ChosenLevel(CountOf(Tables(segs, top), s, e, d), maxRows) >= d {
      CountedKept(segs, s, e, top, d, maxRows);
    }
  }

  // ---- exactly when a range stays within the budget ----------------------

  ghost predicate RangeCounted(segs: seq<seq<Row>>, s: int, e: int, top: nat, n: nat, d: nat) {
    && Increasing(Concat(segs))
    && CountedAt(Tables(segs, top), s, e, top) == d
    && |Select(TableOf(segs, d), s, e)| == n
  }

  ghost predicate RangeWithin(segs: seq<seq<Row>>, s: int, e: int, n: nat, d: nat, maxRows: nat)
    requires maxRows > 0
  {
    |Select(TableOf(segs, ChosenLevel(n * Pow4(d), maxRows)), s, e)| <= maxRows + 1
  }

  function Stretch(t: int, n: nat): (rows: seq<Row>) {
    seq(n, i requires 0 <= i => Row(t + i, []))
  }

  function Intervals(t: int, lengths: seq<nat>): seq<seq<Row>>
    decreases |lengths|
  {
    if lengths == [] then [] else [Stretch(t, lengths[0])] + Intervals(t + lengths[0], lengths[1..])
  }

  lemma {:induction false} IntervalsAre(t: int, lengths: seq<nat>) returns (total: nat)
    ensures Concat(Intervals(t, lengths)) == Stretch(t, total) && Lengths(Intervals(t, lengths)) == lengths
    decreases |lengths|
  {
    if lengths == [] {
      total := 0;
    } else {
      var rest := IntervalsAre(t + lengths[0], lengths[1..]);
      total := lengths[0] + rest;
      var segs := Intervals(t, lengths);
      assert segs[1..] == Intervals(t + lengths[0], lengths[1..]);
      assert Lengths(segs) == [|segs[0]|] + Lengths(segs[1..]);
    }
  }

  /** A stream of these intervals, 1us between rows, and a range around it. */
  lemma StreamOf(lengths: seq<nat>) returns (segs: seq<seq<Row>>, e: int)
    ensures Increasing(Concat(segs)) && Covers(Concat(segs), 0, e) && Lengths(segs) == lengths
  {
    segs := Intervals(0, lengths);
    e := IntervalsAre(0, lengths);
  }

  lemma UncountedRange(n: nat, m: nat, d: nat, top: nat, k: nat)
    returns (segs: seq<seq<Row>>, e: int)
    requires n >= 25 && d <= top && k < d
    ensures RangeCounted(segs, 0, e, top, n, d) && |Select(TableOf(segs, k), 0, e)| >= m
  {
    var lengths := Uncounted(n, m, d);
    segs, e := StreamOf(lengths);
    UncountedLevel(n, m, d, top);
    WholeCount(segs, 0, e, top, top);
    TableCovered(segs, d, 0, e);
    TableCovered(segs, k, 0, e);
    TableSize(d, segs);
    TableSize(k, segs);
    UncountedRows(n, m, d, d);
    UncountedRows(n, m, d, k);
  }

  /** Of all ranges of all streams whose count came from n rows at level 4^d:
      every one returns at most one row more than the budget if and only if the
      budget is less than four times those rows. */
  lemma RangeBudgetIff(top: nat, n: nat, d: nat, maxRows: nat)
    requires 0 < d <= top && n >= 25 && maxRows > 0
    ensures (forall segs: seq<seq<Row>>, s, e ::
               RangeCounted(segs, s, e, top, n, d) ==> RangeWithin(segs, s, e, n, d, maxRows))
      <==> maxRows < 4 * n
  {
    CoarseEnoughIff(n, d, maxRows);
    if maxRows < 4 * n {
      forall segs: seq<seq<Row>>, s, e | RangeCounted(segs, s, e, top, n, d)
        ensures RangeWithin(segs, s, e, n, d, maxRows)
      {
        CountedKept(segs, s, e, top, d, maxRows);
      }
    } else {
      var segs, e := UncountedRange(n, maxRows + 2, d, top, ChosenLevel(n * Pow4(d), maxRows));
      assert RangeCounted(segs, 0, e, top, n, d) && !RangeWithin(segs, 0, e, n, d, maxRows);
    }
  }
}
