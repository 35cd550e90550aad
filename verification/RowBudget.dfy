/** Choosing the decimation level of an extraction from a budget of rows. */
module RowBudget {
  import opened Arithmetic
  import opened Rows
  import opened Segments
  import opened Decimation
  import opened Decimators
  import opened DecimatedSegments

  // ---- the choice --------------------------------------------------------

  /** How many raw rows each returned row should stand for. */
  function Desired(count: nat, maxRows: nat): nat
    requires maxRows > 0
  {
    (count + maxRows - 1) / maxRows
  }

  /** The exponent of the least power of 4 that is at least `desired`. */
  function Exponent(desired: nat, k: nat): (r: nat)
    ensures r >= k && desired <= Pow4(r)
    ensures r > k ==> Pow4(r - 1) < desired
    decreases if desired > Pow4(k) then desired - Pow4(k) else 0
  {
    if desired <= Pow4(k) then k else Exponent(desired, k + 1)
  }

  function ChosenLevel(count: nat, maxRows: nat): nat
    requires maxRows > 0
  {
    Exponent(Desired(count, maxRows), 0)
  }

  /** The level is enough for the budget, and no smaller level would be. */
  lemma ChosenIsLeast(count: nat, maxRows: nat)
    requires maxRows > 0
    ensures count <= Pow4(ChosenLevel(count, maxRows)) * maxRows
    ensures forall k: nat :: k < ChosenLevel(count, maxRows) ==> Pow4(k) * maxRows < count
  {
    var r, d := ChosenLevel(count, maxRows), Desired(count, maxRows);
    DesiredIff(count, maxRows, Pow4(r));
    forall k: nat | k < r ensures Pow4(k) * maxRows < count {
      PowerGrows(k, r - 1);
      DesiredIff(count, maxRows, Pow4(k));
    }
  }

  lemma DesiredIff(count: nat, maxRows: nat, p: nat)
    requires maxRows > 0
    ensures Desired(count, maxRows) <= p <==> count <= p * maxRows
  {
    var d := Desired(count, maxRows);
    var n := count + maxRows - 1;
    assert n == d * maxRows + n % maxRows;
    if d <= p {
      MulOrder(d, p, maxRows);
    } else {
      MulOrder(p + 1, d, maxRows);
      assert (p + 1) * maxRows == p * maxRows + maxRows;
    }
  }

  lemma {:induction false} PowerGrows(a: nat, b: nat)
    requires a <= b
    ensures Pow4(a) <= Pow4(b)
    decreases b - a
  {
    if a < b {
      PowerGrows(a, b - 1);
    }
  }

  // ---- counting ----------------------------------------------------------

  function Lengths(segs: seq<seq<Row>>): seq<nat> {
    seq(|segs|, i requires 0 <= i < |segs| => |segs[i]|)
  }

  /** Rows at level 4^k of intervals of the given lengths. */
  function RowsAt(k: nat, lengths: seq<nat>): nat {
    if lengths == [] then 0 else Share(lengths[0], k) + RowsAt(k, lengths[1..])
  }

  function Quotient(n: nat, p: nat): nat
    requires p > 0
  {
    n / p
  }

  function Share(n: nat, k: nat): nat { Quotient(n, Pow4(k)) }

  lemma {:induction false} TableSize(k: nat, segs: seq<seq<Row>>)
    ensures |Concat(LevelEach(k, segs))| == RowsAt(k, Lengths(segs))
  {
    if segs != [] {
      TableSize(k, segs[1..]);
      LevelEachCons(k, segs);
      LevelSize(k, segs[0]);
      assert Lengths(segs)[1..] == Lengths(segs[1..]);
    }
  }

  /** Counting a whole stream: from the coarsest level with at least 25 rows,
      times the rows each stands for; from the raw rows if there is none. */
  function CountedLevel(lengths: seq<nat>, top: nat): nat {
    if top == 0 || RowsAt(top, lengths) >= 25 then top else CountedLevel(lengths, top - 1)
  }

  /** A coarser level has at most the rows of a finer one over their ratio. */
  lemma {:induction false} Coarser(d: nat, k: nat, lengths: seq<nat>)
    requires d <= k
    ensures RowsAt(k, lengths) * Pow4(k) <= RowsAt(d, lengths) * Pow4(d)
  {
    if lengths != [] {
      Coarser(d, k, lengths[1..]);
      CoarserOne(d, k, lengths[0]);
      var a, b := Share(lengths[0], k), RowsAt(k, lengths[1..]);
      var x, y := Share(lengths[0], d), RowsAt(d, lengths[1..]);
      Spread(a, b, Pow4(k));
      Spread(x, y, Pow4(d));
    }
  }

  lemma Spread(a: int, b: int, p: int)
    ensures (a + b) * p == a * p + b * p
  {
  }

  lemma {:induction false} CoarserOne(d: nat, k: nat, n: nat)
    requires d <= k
    ensures n / Pow4(k) * Pow4(k) <= n / Pow4(d) * Pow4(d)
    decreases k - d
  {
    if d < k {
      CoarserOne(d, k - 1, n);
      var p := Pow4(k - 1);
      DivDiv(n, p);
      var q := n / p;
      assert q / 4 * 4 <= q;
      MulOrder(q / 4 * 4, q, p);
      assert q / 4 * (4 * p) == q / 4 * 4 * p by { Regroup4(q / 4, p); }
    }
  }

  lemma Regroup4(a: int, p: int)
    ensures a * (4 * p) == a * 4 * p
  {
  }

  /** A whole stream stays within the budget whenever the level it is read at
      is at least as coarse as the one its rows were counted at. */
  lemma BudgetKept(lengths: seq<nat>, top: nat, maxRows: nat)
    requires maxRows > 0
    requires var d := CountedLevel(lengths, top); ChosenLevel(RowsAt(d, lengths) * Pow4(d), maxRows) >= d
    ensures var d := CountedLevel(lengths, top);
      RowsAt(ChosenLevel(RowsAt(d, lengths) * Pow4(d), maxRows), lengths) <= maxRows
  {
    var d := CountedLevel(lengths, top);
    var count := RowsAt(d, lengths) * Pow4(d);
    var k := ChosenLevel(count, maxRows);
    ChosenIsLeast(count, maxRows);
    Coarser(d, k, lengths);
    Cancel(RowsAt(k, lengths), maxRows, Pow4(k));
  }

  lemma Cancel(a: nat, b: nat, p: nat)
    requires p > 0 && a * p <= p * b
    ensures a <= b
  {
    Overshoots(a, b, p);
    assert p * b == b * p;
  }

  lemma Overshoots(a: nat, b: nat, p: nat)
    ensures a > b ==> a * p >= b * p + p
  {
    if a > b {
      MulOrder(b + 1, a, p);
      assert (b + 1) * p == b * p + p;
    }
  }

  lemma ProductIff(n: nat, p: nat, m: nat)
    requires p > 0
    ensures m < 4 * n <==> p * m < n * (4 * p)
  {
    Regroup4(n, p);
    assert n * 4 * p == (4 * n) * p && p * m == m * p;
    Overshoots(4 * n, m, p);
    if m >= 4 * n {
      MulOrder(4 * n, m, p);
    }
  }

  /** The level read is coarse enough exactly when the budget is less than four
      times the number of rows counted. */
  lemma {:induction false} CoarseEnoughIff(n: nat, d: nat, maxRows: nat)
    requires maxRows > 0 && d > 0
    ensures ChosenLevel(n * Pow4(d), maxRows) >= d <==> maxRows < 4 * n
  {
    var count, p := n * Pow4(d), Pow4(d - 1);
    var k := ChosenLevel(count, maxRows);
    ChosenIsLeast(count, maxRows);
    ProductIff(n, p, maxRows);
    if k < d {
      PowerGrows(k, d - 1);
      MulOrder(Pow4(k), p, maxRows);
    }
  }

  // ---- exactly when a whole stream stays within the budget ---------------

  ghost predicate CountedAs(lengths: seq<nat>, top: nat, n: nat, d: nat) {
    CountedLevel(lengths, top) == d && RowsAt(d, lengths) == n
  }

  /** What is read of a stream counted as n rows at level 4^d. */
  ghost predicate WithinBudget(lengths: seq<nat>, n: nat, d: nat, maxRows: nat)
    requires maxRows > 0
  {
    RowsAt(ChosenLevel(n * Pow4(d), maxRows), lengths) <= maxRows
  }

  function Many(n: nat, x: nat): (r: seq<nat>)
    ensures |r| == n
  {
    if n == 0 then [] else [x] + Many(n - 1, x)
  }

  lemma {:induction false} RowsAtMany(k: nat, n: nat, x: nat)
    ensures RowsAt(k, Many(n, x)) == n * Share(x, k)
  {
    if n > 0 {
      RowsAtMany(k, n - 1, x);
      assert Many(n, x)[1..] == Many(n - 1, x);
    }
  }

  lemma {:induction false} RowsAtAppend(k: nat, a: seq<nat>, b: seq<nat>)
    ensures RowsAt(k, a + b) == RowsAt(k, a) + RowsAt(k, b)
  {
    if a == [] {
      assert a + b == b;
    } else {
      assert (a + b)[1..] == a[1..] + b;
      RowsAtAppend(k, a[1..], b);
    }
  }

  /** Intervals that just reach level 4^d, and others that just do not. */
  function Uncounted(n: nat, m: nat, d: nat): seq<nat> {
    Many(n, Pow4(d)) + Many(m, Pow4(d) - 1)
  }

  lemma WholeOnce(n: nat, p: nat)
    requires p > 0
    ensures n / p >= 1 || n < p
  {
    assert n == n / p * p + n % p;
  }

  lemma SharesAt(k: nat, d: nat)
    ensures k == d ==> Share(Pow4(d), k) == 1
    ensures k > d ==> Share(Pow4(d), k) == 0
    ensures k >= d ==> Share(Pow4(d) - 1, k) == 0
    ensures k < d ==> Share(Pow4(d) - 1, k) >= 1
  {
    if k < d {
      PowerGrows(k, d - 1);
      WholeOnce(Pow4(d) - 1, Pow4(k));
    } else {
      PowerGrows(d, k);
      DivUnique(Pow4(d) - 1, Pow4(k), 0, Pow4(d) - 1);
      if k > d {
        PowerGrows(d + 1, k);
        DivUnique(Pow4(d), Pow4(k), 0, Pow4(d));
      }
    }
  }

  lemma UncountedRows(n: nat, m: nat, d: nat, k: nat)
    ensures var lengths := Uncounted(n, m, d);
      && (k == d ==> RowsAt(k, lengths) == n) && (k > d ==> RowsAt(k, lengths) == 0)
      && (k < d ==> RowsAt(k, lengths) >= m)
  {
    var p := Pow4(d);
    RowsAtAppend(k, Many(n, p), Many(m, p - 1));
    RowsAtMany(k, n, p);
    RowsAtMany(k, m, p - 1);
    SharesAt(k, d);
    Weighed(n, m, Share(p, k), Share(p - 1, k));
  }

  lemma Weighed(n: nat, m: nat, a: nat, b: nat)
    ensures a == 1 && b == 0 ==> n * a + m * b == n
    ensures a == 0 && b == 0 ==> n * a + m * b == 0
    ensures b >= 1 ==> n * a + m * b >= m
  {
    MulOrder(0, a, n);
    if b >= 1 {
      MulOrder(1, b, m);
    }
  }

  lemma {:induction false} UncountedLevel(n: nat, m: nat, d: nat, top: nat)
    requires n >= 25 && d <= top
    ensures CountedLevel(Uncounted(n, m, d), top) == d
    decreases top
  {
    UncountedRows(n, m, d, top);
    if top > d {
      UncountedLevel(n, m, d, top - 1);
    }
  }

  /** Of all streams whose count came from n rows at level 4^d, whatever the
      number of tables: every one stays within the budget if and only if the
      budget is less than four times those rows. */
  lemma BudgetKeptIff(top: nat, n: nat, d: nat, maxRows: nat)
    requires 0 < d <= top && n >= 25 && maxRows > 0
    ensures (forall lengths: seq<nat> :: CountedAs(lengths, top, n, d) ==> WithinBudget(lengths, n, d, maxRows))
      <==> maxRows < 4 * n
  {
    CoarseEnoughIff(n, d, maxRows);
    if maxRows < 4 * n {
      forall lengths: seq<nat> | CountedAs(lengths, top, n, d) ensures WithinBudget(lengths, n, d, maxRows) {
        BudgetKept(lengths, top, maxRows);
      }
    } else {
      var lengths := Uncounted(n, maxRows + 1, d);
      UncountedLevel(n, maxRows + 1, d, top);
      UncountedRows(n, maxRows + 1, d, d);
      UncountedRows(n, maxRows + 1, d, ChosenLevel(n * Pow4(d), maxRows));
      assert CountedAs(lengths, top, n, d) && !WithinBudget(lengths, n, d, maxRows);
    }
  }

  /** One interval of 101 rows: however many tables there are, it is counted
      as 100, so a budget of 100 reads all its raw rows. */
  lemma BudgetCanBeExceeded(top: nat) returns (lengths: seq<nat>)
    requires top >= 1
    ensures lengths == [101] && CountedAs(lengths, top, 25, 1)
    ensures !WithinBudget(lengths, 25, 1, 100) && RowsAt(0, lengths) == 101
  {
    lengths := [101];
    OneInterval(101, 0);
    OneInterval(101, 1);
    assert Pow4(1) == 4 * Pow4(0) == 4;
    DesiredIff(100, 100, 1);
    OneIntervalLevel(top);
  }

  lemma OneInterval(n: nat, k: nat)
    ensures RowsAt(k, [n]) == Share(n, k)
  {
    var none := [n][1..];
    assert RowsAt(k, none) == 0;
  }

  lemma FewRows(p: nat)
    requires p >= 16
    ensures 101 / p < 25
  {
    var n := 101 / p;
    assert n * p <= 101;
    MulOrder(16, p, n);
  }

  lemma {:induction false} OneIntervalLevel(top: nat)
    requires top >= 1
    ensures CountedLevel([101], top) == 1
  {
    var lengths := [101];
    OneInterval(101, top);
    OneInterval(101, 1);
    assert Pow4(1) == 4 * Pow4(0) == 4 && Pow4(2) == 4 * Pow4(1);
    if top > 1 {
      PowerGrows(2, top);
      FewRows(Pow4(top));
      OneIntervalLevel(top - 1);
    }
  }
}
