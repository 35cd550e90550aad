/** How far the count of a range may be from the number of its rows. */
module RangeEstimates {
  import opened Arithmetic
  import opened Rows
  import opened Segments
  import opened Decimation
  import opened DecimatedKeys
  import opened DecimatedSegments
  import opened RangeBudget

  // ---- the level counted -------------------------------------------------

  /** The level counted is the coarsest with at least 25 rows in the range, or
      that of the raw rows if there is none. */
  lemma {:induction false} CountedIsCoarsest(tables: seq<seq<Row>>, s: int, e: int, level: nat, d: nat)
    requires level < |tables| && d == CountedAt(tables, s, e, level)
    ensures d <= level && (d > 0 ==> |Select(tables[d], s, e)| >= 25)
    ensures forall k :: d < k <= level ==> |Select(tables[k], s, e)| < 25
  {
    var n := |Select(tables[level], s, e)|;
    if level > 0 && n < 25 {
      CountedIsCoarsest(tables, s, e, level - 1, d);
      forall k | d < k <= level ensures |Select(tables[k], s, e)| < 25 {
        assert k < level || k == level;
      }
    } else {
      assert d == level;
    }
  }

  /** A query returns as many rows as there are places in the table with a time
      in the range. */
  lemma SelectSize(rows: seq<Row>, s: int, e: int)
    requires Increasing(rows)
    ensures |Select(rows, s, e)| == |set i | 0 <= i < |rows| && s <= rows[i].ts < e|
  {
    BelowSpec(rows, s);
    BelowSpec(rows, e);
    var lo, hi := Below(rows, s), Below(rows, e);
    var places := set i | 0 <= i < |rows| && s <= rows[i].ts < e;
    IntegersSize(lo, if lo <= hi then hi else lo, places);
  }

  lemma {:induction false} IntegersSize(lo: int, hi: int, places: set<int>)
    requires lo <= hi && forall i :: i in places <==> lo <= i < hi
    ensures |places| == hi - lo
    decreases hi - lo
  {
    if lo < hi {
      IntegersSize(lo, hi - 1, places - {hi - 1});
      assert |places| == |places - {hi - 1}| + 1;
    } else {
      assert forall i :: i !in places;
      assert places == {};
    }
  }

  /** Raw rows are counted with the end of the range taken in. */
  lemma RawCount(tables: seq<seq<Row>>, s: int, e: int)
    requires tables != [] && Increasing(tables[0])
    ensures CountOf(tables, s, e, 0) == |set i | 0 <= i < |tables[0]| && s <= tables[0][i].ts <= e|
  {
    SelectSize(tables[0], s, e + 1);
    var rows := tables[0];
    assert (set i | 0 <= i < |rows| && s <= rows[i].ts < e + 1) == (set i | 0 <= i < |rows| && s <= rows[i].ts <= e);
  }

  // ---- from below --------------------------------------------------------

  lemma BelowAppend(a: seq<Row>, b: seq<Row>, t: int)
    requires Increasing(a + b)
    ensures Below(a + b, t) == Below(a, t) + Below(b, t)
  {
    Store.IncreasingTail(a, b);
    BelowSpec(a, t);
    BelowSpec(b, t);
    var m, n := Below(a, t), Below(a, t) + Below(b, t);
    if m < |a| && b != [] {
      assert t <= a[m].ts < b[0].ts;
    }
    BelowIs(a + b, t, n);
  }

  lemma SelectAppend(a: seq<Row>, b: seq<Row>, s: int, e: int)
    requires Increasing(a + b) && s <= e
    ensures |Select(a + b, s, e)| == |Select(a, s, e)| + |Select(b, s, e)|
  {
    Store.IncreasingTail(a, b);
    BelowAppend(a, b, s);
    BelowAppend(a, b, e);
    BelowMonotone(a, s, e);
    BelowMonotone(b, s, e);
  }

  /** The groups that lie whole between two places. */
  lemma WholeGroups(x: nat, y: nat, p: nat) returns (a: int, b: int)
    requires p > 0 && x <= y
    ensures a >= 0 && x <= a * p && b * p <= y
    ensures y - x <= (b - a) * p + 2 * (p - 1)
  {
    a, b := (x + p - 1) / p, y / p;
    assert x + p - 1 == a * p + (x + p - 1) % p;
    assert y == b * p + y % p;
    assert (b - a) * p == b * p - a * p;
  }

  /** A decimated row whose raw rows all are in the range is in the range. */
  lemma GroupInRange(k: nat, seg: seq<Row>, s: int, e: int, x: nat, y: nat, g: nat)
    requires Increasing(seg) && x <= y <= |seg| && x == Below(seg, s) && y == Below(seg, e)
    requires g < |seg| / Pow4(k) && x <= g * Pow4(k) && (g + 1) * Pow4(k) <= y
    ensures g < |Level(k, seg)| && s <= Level(k, seg)[g].ts < e
  {
    var p, first, last := Pow4(k), g * Pow4(k), (g + 1) * Pow4(k) - 1;
    LevelInSpan(k, seg, g);
    BelowSpec(seg, s);
    BelowSpec(seg, e);
    assert (g + 1) * p == g * p + p;
    assert Source(k, seg, g)[0] == seg[first] && Source(k, seg, g)[p - 1] == seg[last];
  }

  lemma DivOrder(n: nat, m: nat, p: nat)
    requires p > 0 && m * p <= n
    ensures m <= n / p
  {
    var q := n / p;
    MulGrows(m - q, p);
    assert (m - q) * p == m * p - q * p && n == q * p + n % p;
  }

  /** The rows of n groups and of two groups cut short for each of c intervals. */
  function AtMost(n: nat, c: nat, p: nat): nat
    requires p > 0
  {
    Product(n, p) + Product(c, 2 * (p - 1))
  }

  function Cut(seg: seq<Row>, s: int, e: int): nat {
    if Select(seg, s, e) == [] then 0 else 1
  }

  /** Within one interval: the rows of a range are at most those its decimated
      rows stand for, and those of a group cut at either end. */
  lemma SegmentAtMost(k: nat, seg: seq<Row>, s: int, e: int)
    requires Increasing(seg) && s <= e
    ensures |Select(seg, s, e)| <= AtMost(|Select(Level(k, seg), s, e)|, Cut(seg, s, e), Pow4(k))
  {
    var p, x, y, n := Pow4(k), Below(seg, s), Below(seg, e), |Select(Level(k, seg), s, e)|;
    BelowMonotone(seg, s, e);
    var a, b := WholeGroups(x, y, p);
    if a < b {
      GroupsCounted(k, seg, s, e, a, b);
    }
    AtMostFrom(y - x, n, b - a, p);
  }

  lemma AtMostFrom(r: nat, n: nat, m: int, p: nat)
    requires p > 0 && r <= m * p + 2 * (p - 1) && (m > 0 ==> m <= n)
    ensures r <= AtMost(n, if r == 0 then 0 else 1, p)
  {
    MulOrder(m, n, p);
    MulOrder(0, n, p);
    ProductIs(n, p);
    ProductIs(1, 2 * (p - 1));
  }

  lemma GroupsCounted(k: nat, seg: seq<Row>, s: int, e: int, a: nat, b: nat)
    requires Increasing(seg) && s <= e && a < b
    requires Below(seg, s) <= a * Pow4(k) && b * Pow4(k) <= Below(seg, e)
    ensures b - a <= |Select(Level(k, seg), s, e)|
  {
    DivOrder(|seg|, b, Pow4(k));
    LevelIncreasing(k, seg);
    GroupsInRange(k, seg, s, e, a, b);
    InRange(Level(k, seg), s, e, a, b - 1);
  }

  lemma GroupsInRange(k: nat, seg: seq<Row>, s: int, e: int, a: nat, b: nat)
    requires Increasing(seg) && s <= e && a < b <= |seg| / Pow4(k)
    requires Below(seg, s) <= a * Pow4(k) && b * Pow4(k) <= Below(seg, e)
    ensures b <= |Level(k, seg)| && s <= Level(k, seg)[a].ts && Level(k, seg)[b - 1].ts < e
  {
    var p := Pow4(k);
    LevelSize(k, seg);
    MulOrder(a + 1, b, p);
    MulOrder(a, b - 1, p);
    BelowMonotone(seg, s, e);
    GroupInRange(k, seg, s, e, Below(seg, s), Below(seg, e), a);
    GroupInRange(k, seg, s, e, Below(seg, s), Below(seg, e), b - 1);
  }

  /** The intervals with rows in the range. */
  function Touched(segs: seq<seq<Row>>, s: int, e: int): nat {
    if segs == [] then 0 else Cut(segs[0], s, e) + Touched(segs[1..], s, e)
  }

  lemma {:induction false} RowsAtMost(k: nat, segs: seq<seq<Row>>, s: int, e: int)
    requires Increasing(Concat(segs)) && s <= e
    ensures Bounded(k, segs, s, e)
  {
    if segs != [] {
      RestIncreasing(segs);
      RowsAtMost(k, segs[1..], s, e);
      BoundedNext(k, segs, s, e);
    }
  }

  /** The rows of the range are at most those that its decimated rows stand for
      and two groups for each interval touched. */
  ghost predicate Bounded(k: nat, segs: seq<seq<Row>>, s: int, e: int) {
    |Select(Concat(segs), s, e)| <= AtMost(|Select(TableOf(segs, k), s, e)|, Touched(segs, s, e), Pow4(k))
  }

  lemma BoundedNext(k: nat, segs: seq<seq<Row>>, s: int, e: int)
    requires Increasing(Concat(segs)) && s <= e && segs != [] && Bounded(k, segs[1..], s, e)
    ensures Bounded(k, segs, s, e)
  {
    var r, n := |Select(segs[0], s, e)|, |Select(Level(k, segs[0]), s, e)|;
    var rest := segs[1..];
    var r1, n1, c1 := |Select(Concat(rest), s, e)|, |Select(TableOf(rest, k), s, e)|, Touched(rest, s, e);
    RestIncreasing(segs);
    SegmentAtMost(k, segs[0], s, e);
    TablesAppend(k, segs, s, e);
    assert Touched(segs, s, e) == Cut(segs[0], s, e) + c1;
    AtMostAdds(|Select(Concat(segs), s, e)|, r, r1, |Select(TableOf(segs, k), s, e)|, n, n1, Touched(segs, s, e),
               Cut(segs[0], s, e), c1, Pow4(k));
  }

  lemma RestIncreasing(segs: seq<seq<Row>>)
    requires Increasing(Concat(segs)) && segs != []
    ensures Increasing(segs[0]) && Increasing(Concat(segs[1..]))
  {
    Store.IncreasingTail(segs[0], Concat(segs[1..]));
  }

  lemma TablesAppend(k: nat, segs: seq<seq<Row>>, s: int, e: int)
    requires Increasing(Concat(segs)) && s <= e && segs != []
    ensures |Select(Concat(segs), s, e)| == |Select(segs[0], s, e)| + |Select(Concat(segs[1..]), s, e)|
    ensures |Select(TableOf(segs, k), s, e)|
         == |Select(Level(k, segs[0]), s, e)| + |Select(TableOf(segs[1..], k), s, e)|
  {
    SelectAppend(segs[0], Concat(segs[1..]), s, e);
    TableIncreasing(k, segs);
    LevelEachCons(k, segs);
    SelectAppend(Level(k, segs[0]), TableOf(segs[1..], k), s, e);
  }

  lemma AtMostAdds(r: nat, ra: nat, rb: nat, n: nat, na: nat, nb: nat, c: nat, ca: nat, cb: nat, p: nat)
    requires p > 0 && ra <= AtMost(na, ca, p) && rb <= AtMost(nb, cb, p)
    requires r == ra + rb && n == na + nb && c == ca + cb
    ensures r <= AtMost(n, c, p)
  {
    ProductAdds(na, nb, p);
    ProductAdds(ca, cb, 2 * (p - 1));
  }

  lemma {:induction false} ProductAdds(a: nat, b: nat, p: nat)
    ensures Product(a + b, p) == Product(a, p) + Product(b, p)
  {
    if b > 0 {
      ProductAdds(a, b - 1, p);
    }
  }

  /** The count of a range at level 4^d: from above it is the number of its rows
      and less than two groups more, and from below that number less at most two
      groups for each interval with rows in the range. */
  lemma CountIsNear(segs: seq<seq<Row>>, s: int, e: int, top: nat, d: nat)
    requires Increasing(Concat(segs)) && s <= e && 0 < d <= top
    ensures var count, rows, p := CountOf(Tables(segs, top), s, e, d), |Select(Concat(segs), s, e)|, Pow4(d);
      rows - Touched(segs, s, e) * (2 * (p - 1)) <= count <= rows + 2 * (p - 1)
  {
    RowsAtMost(d, segs, s, e);
    CountAtMost(segs, s, e, d);
    ProductIs(|Select(TableOf(segs, d), s, e)|, Pow4(d));
    ProductIs(Touched(segs, s, e), 2 * (Pow4(d) - 1));
  }

  lemma CountAtMost(segs: seq<seq<Row>>, s: int, e: int, d: nat)
    requires Increasing(Concat(segs)) && s <= e && d > 0
    ensures |Select(TableOf(segs, d), s, e)| * Pow4(d) <= |Select(Concat(segs), s, e)| + 2 * (Pow4(d) - 1)
  {
    var n, p, r := |Select(TableOf(segs, d), s, e)|, Pow4(d), |Select(Concat(segs), s, e)|;
    PowerAtLeast(d);
    TableIncreasing(d, segs);
    var pos := RawGroups(d, segs);
    if n >= 2 {
      RangeCount(Concat(segs), TableOf(segs, d), pos, p, s, e, n);
    }
    TwoMore(n, p, r);
  }

  lemma TwoMore(n: nat, p: nat, r: nat)
    requires p >= 4 && (n >= 2 ==> Product(n - 2, p) + 2 <= r)
    ensures n * p <= r + 2 * (p - 1)
  {
    if n >= 2 {
      ProductIs(n - 2, p);
      assert n * p == (n - 2) * p + 2 * p;
    } else {
      assert n * p == if n == 0 then 0 else p;
    }
  }

  lemma PowerAtLeast(d: nat)
    requires d > 0
    ensures Pow4(d) >= 4
  {
  }
}
