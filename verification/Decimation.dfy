/** What decimation means for one interval: four rows become one, holding for
    every element the mean, minimum and maximum, and the result is decimated
    again. Means are over the reals. */
module Decimation {
  import opened Arithmetic
  import opened Rows

  /** The element in column i; a row of a table has every column asked for. */
  function Cell(r: Row, i: nat): real {
    if i < |r.data| then r.data[i] else 0.0
  }

  ghost predicate Wide(rows: seq<Row>, w: nat) {
    forall i :: 0 <= i < |rows| ==> |rows[i].data| == w
  }

  function Sum(rows: seq<Row>, i: nat): real {
    if rows == [] then 0.0 else Cell(rows[0], i) + Sum(rows[1..], i)
  }

  function MinReal(a: real, b: real): real { if a <= b then a else b }

  function MaxReal(a: real, b: real): real { if a >= b then a else b }

  function Least(rows: seq<Row>, i: nat): real
    requires rows != []
  {
    if |rows| == 1 then Cell(rows[0], i) else MinReal(Cell(rows[0], i), Least(rows[1..], i))
  }

  function Greatest(rows: seq<Row>, i: nat): real
    requires rows != []
  {
    if |rows| == 1 then Cell(rows[0], i) else MaxReal(Cell(rows[0], i), Greatest(rows[1..], i))
  }

  function TsSum(rows: seq<Row>): int {
    if rows == [] then 0 else rows[0].ts + TsSum(rows[1..])
  }

  /** Storing the mean of four timestamps as an integer truncates toward zero. */
  function TruncMean4(sum: int): int {
    if sum >= 0 then sum / 4 else -((-sum) / 4)
  }

  /** One output row. The first decimation takes mean, minimum and maximum of
      the same columns; later ones find them in three thirds of the row. */
  function Reduce(again: bool, g: seq<Row>): Row
    requires |g| == 4
  {
    var c := if again then |g[0].data| / 3 else |g[0].data|;
    var minCol := if again then c else 0;
    var maxCol := if again then 2 * c else 0;
    Row(TruncMean4(TsSum(g)),
        seq(c, i requires 0 <= i < c => Sum(g, i) / 4.0)
        + seq(c, i requires 0 <= i < c => Least(g, minCol + i))
        + seq(c, i requires 0 <= i < c => Greatest(g, maxCol + i)))
  }

  function Decimate(again: bool, rows: seq<Row>): (r: seq<Row>)
    ensures |r| == |rows| / 4
  {
    if |rows| < 4 then [] else [Reduce(again, rows[..4])] + Decimate(again, rows[4..])
  }

  /** The rows too few to fill the last group. */
  function Leftover(rows: seq<Row>): (r: seq<Row>)
    ensures |r| == |rows| % 4
  {
    rows[|rows| / 4 * 4..]
  }

  /** An interval's rows at level 4^k. */
  function Level(k: nat, rows: seq<Row>): seq<Row> {
    if k == 0 then rows else Decimate(k > 1, Level(k - 1, rows))
  }

  function Pow4(k: nat): (p: nat)
    ensures p > 0
  {
    if k == 0 then 1 else 4 * Pow4(k - 1)
  }

  // ---- decimating in pieces ----------------------------------------------

  lemma LeftoverDrop(rows: seq<Row>)
    requires |rows| >= 4
    ensures Leftover(rows[4..]) == Leftover(rows)
  {
    assert |rows[4..]| / 4 * 4 + 4 == |rows| / 4 * 4;
  }

  lemma LeftoverAppend(a: seq<Row>, b: seq<Row>)
    ensures Leftover(a + b) == Leftover(Leftover(a) + b)
  {
    var n := |a| / 4 * 4;
    assert (a + b)[n..] == Leftover(a) + b;
    assert |a + b| / 4 * 4 == n + |Leftover(a) + b| / 4 * 4;
  }

  lemma Regroup(x: Row, a: seq<Row>, b: seq<Row>)
    ensures [x] + (a + b) == ([x] + a) + b
  {
  }

  /** Decimating what comes later together with what was left over is the
      same as decimating everything at once. */
  lemma {:induction false} DecimateAppend(again: bool, a: seq<Row>, b: seq<Row>)
    ensures Decimate(again, a + b) == Decimate(again, a) + Decimate(again, Leftover(a) + b)
    decreases |a|
  {
    if |a| < 4 {
      assert Leftover(a) == a;
    } else {
      var rest := a[4..];
      DecimateAppend(again, rest, b);
      LeftoverDrop(a);
      assert (a + b)[4..] == rest + b && (a + b)[..4] == a[..4];
      Regroup(Reduce(again, a[..4]), Decimate(again, rest), Decimate(again, Leftover(a) + b));
    }
  }

  lemma {:induction false} DecimateAt(again: bool, rows: seq<Row>, j: nat)
    requires j < |rows| / 4
    ensures Decimate(again, rows)[j] == Reduce(again, rows[4 * j..4 * j + 4])
  {
    if j > 0 {
      DecimateAt(again, rows[4..], j - 1);
      assert rows[4..][4 * (j - 1)..4 * (j - 1) + 4] == rows[4 * j..4 * j + 4];
    }
  }

  // ---- what a row at level 4^k holds -------------------------------------

  lemma {:induction false} SumAppend(a: seq<Row>, b: seq<Row>, i: nat)
    ensures Sum(a + b, i) == Sum(a, i) + Sum(b, i)
  {
    if a == [] {
      assert a + b == b;
    } else {
      SumAppend(a[1..], b, i);
      assert (a + b)[1..] == a[1..] + b;
    }
  }

  lemma {:induction false} TsSumAppend(a: seq<Row>, b: seq<Row>)
    ensures TsSum(a + b) == TsSum(a) + TsSum(b)
  {
    if a == [] {
      assert a + b == b;
    } else {
      TsSumAppend(a[1..], b);
      assert (a + b)[1..] == a[1..] + b;
    }
  }

  lemma {:induction false} LeastAppend(a: seq<Row>, b: seq<Row>, i: nat)
    requires a != [] && b != []
    ensures Least(a + b, i) == MinReal(Least(a, i), Least(b, i))
  {
    assert (a + b)[1..] == a[1..] + b;
    if |a| > 1 {
      LeastAppend(a[1..], b, i);
    } else {
      assert a[1..] + b == b;
    }
  }

  lemma {:induction false} GreatestAppend(a: seq<Row>, b: seq<Row>, i: nat)
    requires a != [] && b != []
    ensures Greatest(a + b, i) == MaxReal(Greatest(a, i), Greatest(b, i))
  {
    assert (a + b)[1..] == a[1..] + b;
    if |a| > 1 {
      GreatestAppend(a[1..], b, i);
    } else {
      assert a[1..] + b == b;
    }
  }

  lemma {:induction false} LevelSize(k: nat, rows: seq<Row>)
    ensures |Level(k, rows)| == |rows| / Pow4(k)
  {
    if k > 0 {
      LevelSize(k - 1, rows);
      DivDiv(|rows|, Pow4(k - 1));
    }
  }

  /** The raw rows behind row j at level 4^k. */
  function Source(k: nat, rows: seq<Row>, j: nat): (r: seq<Row>)
    requires j < |rows| / Pow4(k)
    ensures |r| == Pow4(k)
  {
    SourceBounds(k, |rows|, j);
    rows[j * Pow4(k)..(j + 1) * Pow4(k)]
  }

  lemma SourceBounds(k: nat, n: nat, j: nat)
    requires j < n / Pow4(k)
    ensures 0 <= j * Pow4(k) <= (j + 1) * Pow4(k) <= n
  {
    var p := Pow4(k);
    MulOrder(0, j, p);
    MulOrder(j, j + 1, p);
    MulOrder(j + 1, n / p, p);
  }

  lemma FourSlices(rows: seq<Row>, a: nat, p: nat)
    requires a + 4 * p <= |rows|
    ensures rows[a..a + 4 * p]
        == rows[a..a + p] + rows[a + p..a + 2 * p] + rows[a + 2 * p..a + 3 * p] + rows[a + 3 * p..a + 4 * p]
  {
  }

  /** Four neighbouring groups at one level make a group of the next. */
  lemma SourceSplits(k: nat, rows: seq<Row>, j: nat)
    requires j < |rows| / Pow4(k + 1)
    ensures 4 * j + 3 < |rows| / Pow4(k)
    ensures Source(k + 1, rows, j) == Source(k, rows, 4 * j) + Source(k, rows, 4 * j + 1)
                                      + Source(k, rows, 4 * j + 2) + Source(k, rows, 4 * j + 3)
  {
    var p := Pow4(k);
    DivDiv(|rows|, p);
    SourceBounds(k + 1, |rows|, j);
    var a := j * (4 * p);
    assert (j + 1) * (4 * p) == a + 4 * p;
    Distribute(j, 0, p);
    Distribute(j, 1, p);
    Distribute(j, 2, p);
    Distribute(j, 3, p);
    Distribute(j, 4, p);
    FourSlices(rows, a, p);
  }

  /** The row holds the exact mean, minimum and maximum of `raw`, for each of
      the w elements of the stream. */
  ghost predicate Summarises(row: Row, raw: seq<Row>, w: nat) {
    && raw != []
    && |row.data| == 3 * w
    && forall i :: 0 <= i < w ==> SummarisesColumn(row, raw, w, i)
  }

  ghost predicate SummarisesColumn(row: Row, raw: seq<Row>, w: nat, i: nat)
    requires raw != []
  {
    && Cell(row, i) == Sum(raw, i) / (|raw| as real)
    && Cell(row, w + i) == Least(raw, i)
    && Cell(row, 2 * w + i) == Greatest(raw, i)
  }

  lemma FourOf(g: seq<Row>, i: nat)
    requires |g| == 4
    ensures Sum(g, i) == Cell(g[0], i) + Cell(g[1], i) + Cell(g[2], i) + Cell(g[3], i)
    ensures Least(g, i) == MinReal(MinReal(MinReal(Cell(g[0], i), Cell(g[1], i)), Cell(g[2], i)), Cell(g[3], i))
    ensures Greatest(g, i) == MaxReal(MaxReal(MaxReal(Cell(g[0], i), Cell(g[1], i)), Cell(g[2], i)), Cell(g[3], i))
    ensures TsSum(g) == g[0].ts + g[1].ts + g[2].ts + g[3].ts
  {
    var a, b, c := g[1..], g[2..], g[3..];
    assert a[1..] == b && b[1..] == c && c[1..] == [];
    assert Sum(g, i) == Cell(g[0], i) + Sum(a, i);
    assert Sum(a, i) == Cell(g[1], i) + Sum(b, i);
    assert Least(a, i) == MinReal(Cell(g[1], i), Least(b, i));
    assert Greatest(a, i) == MaxReal(Cell(g[1], i), Greatest(b, i));
    assert TsSum(a) == g[1].ts + TsSum(b);
    assert Least(b, i) == MinReal(Cell(g[2], i), Least(c, i))
        && Greatest(b, i) == MaxReal(Cell(g[2], i), Greatest(c, i));
    assert Sum(b, i) == Cell(g[2], i) + Sum(c, i) && Sum(c, i) == Cell(g[3], i) + Sum([], i);
    assert TsSum(b) == g[2].ts + TsSum(c) && TsSum(c) == g[3].ts + TsSum([]);
  }

  lemma FirstReduce(g: seq<Row>, w: nat)
    requires |g| == 4 && Wide(g, w)
    ensures Summarises(Reduce(false, g), g, w)
  {
  }

  /** The four raw groups behind a row of a later level, joined. */
  function Joined(raw: seq<seq<Row>>): seq<Row>
    requires |raw| == 4
  {
    raw[0] + raw[1] + raw[2] + raw[3]
  }

  lemma JoinedColumn(raw: seq<seq<Row>>, i: nat)
    requires |raw| == 4 && forall m :: 0 <= m < 4 ==> raw[m] != []
    ensures Sum(Joined(raw), i) == Sum(raw[0], i) + Sum(raw[1], i) + Sum(raw[2], i) + Sum(raw[3], i)
    ensures Least(Joined(raw), i)
         == MinReal(MinReal(MinReal(Least(raw[0], i), Least(raw[1], i)), Least(raw[2], i)), Least(raw[3], i))
    ensures Greatest(Joined(raw), i)
         == MaxReal(MaxReal(MaxReal(Greatest(raw[0], i), Greatest(raw[1], i)), Greatest(raw[2], i)),
                    Greatest(raw[3], i))
  {
    var a := raw[0] + raw[1];
    SumAppend(raw[0], raw[1], i);
    SumAppend(a, raw[2], i);
    SumAppend(a + raw[2], raw[3], i);
    LeastAppend(raw[0], raw[1], i);
    LeastAppend(a, raw[2], i);
    LeastAppend(a + raw[2], raw[3], i);
    GreatestAppend(raw[0], raw[1], i);
    GreatestAppend(a, raw[2], i);
    GreatestAppend(a + raw[2], raw[3], i);
  }

  lemma MeanOfMeans(a: real, b: real, c: real, d: real, p: real)
    requires p > 0.0
    ensures (a / p + b / p + c / p + d / p) / 4.0 == (a + b + c + d) / (4.0 * p)
  {
    assert a / p + b / p + c / p + d / p == (a + b + c + d) / p;
    QuarterOf(a + b + c + d, p);
  }

  lemma QuarterOf(x: real, p: real)
    requires p > 0.0
    ensures x / p / 4.0 == x / (4.0 * p)
  {
    var y := x / p / 4.0;
    assert x == y * (4.0 * p);
  }

  lemma NextReduce(g: seq<Row>, raw: seq<seq<Row>>, p: nat, w: nat)
    requires |g| == 4 && |raw| == 4 && p > 0
    requires forall m :: 0 <= m < 4 ==> |raw[m]| == p && Summarises(g[m], raw[m], w)
    ensures Summarises(Reduce(true, g), Joined(raw), w)
  {
    var row := Reduce(true, g);
    assert |g[0].data| == 3 * w;
    forall i | 0 <= i < w ensures SummarisesColumn(row, Joined(raw), w, i) {
      NextReduceColumn(g, raw, p, w, i);
    }
  }

  lemma NextReduceColumn(g: seq<Row>, raw: seq<seq<Row>>, p: nat, w: nat, i: nat)
    requires |g| == 4 && |raw| == 4 && p > 0 && i < w && |g[0].data| == 3 * w
    requires forall m :: 0 <= m < 4 ==> |raw[m]| == p && SummarisesColumn(g[m], raw[m], w, i)
    ensures SummarisesColumn(Reduce(true, g), Joined(raw), w, i)
  {
    FourOf(g, i);
    FourOf(g, w + i);
    FourOf(g, 2 * w + i);
    JoinedColumn(raw, i);
    MeanOfFour(Cell(g[0], i), Cell(g[1], i), Cell(g[2], i), Cell(g[3], i), Sum(raw[0], i), Sum(raw[1], i),
               Sum(raw[2], i), Sum(raw[3], i), p, |Joined(raw)|);
    ReduceCells(g, w, i);
  }

  /** The mean of four means of p numbers is that of all n. */
  lemma MeanOfFour(ma: real, mb: real, mc: real, md: real, a: real, b: real, c: real, d: real, p: nat, n: nat)
    requires p > 0 && n == 4 * p
    requires ma == a / (p as real) && mb == b / (p as real) && mc == c / (p as real) && md == d / (p as real)
    ensures (ma + mb + mc + md) / 4.0 == (a + b + c + d) / (n as real)
  {
    MeanOfMeans(a, b, c, d, p as real);
    assert n as real == 4.0 * (p as real);
  }

  lemma ReduceCells(g: seq<Row>, w: nat, i: nat)
    requires |g| == 4 && i < w && |g[0].data| == 3 * w
    ensures Cell(Reduce(true, g), i) == Sum(g, i) / 4.0
    ensures Cell(Reduce(true, g), w + i) == Least(g, w + i)
    ensures Cell(Reduce(true, g), 2 * w + i) == Greatest(g, 2 * w + i)
  {
  }

  /** The four rows at level 4^(k-1) behind row j at level 4^k. */
  function Parts(k: nat, rows: seq<Row>, j: nat): (g: seq<Row>)
    requires k > 0 && j < |rows| / Pow4(k)
    ensures |g| == 4
  {
    LevelSize(k - 1, rows);
    DivDiv(|rows|, Pow4(k - 1));
    Level(k - 1, rows)[4 * j..4 * j + 4]
  }

  lemma LevelAt(k: nat, rows: seq<Row>, j: nat)
    requires k > 0 && j < |rows| / Pow4(k)
    ensures j < |Level(k, rows)| && Level(k, rows)[j] == Reduce(k > 1, Parts(k, rows, j))
  {
    LevelSize(k, rows);
    LevelSize(k - 1, rows);
    DivDiv(|rows|, Pow4(k - 1));
    DecimateAt(k > 1, Level(k - 1, rows), j);
  }

  lemma FirstLevelSummarises(rows: seq<Row>, w: nat, j: nat)
    requires Wide(rows, w) && j < |rows| / Pow4(1)
    ensures Summarises(Reduce(false, Parts(1, rows, j)), Source(1, rows, j), w)
  {
    assert Pow4(1) == 4 * Pow4(0) == 4;
    SourceBounds(1, |rows|, j);
    var g := Parts(1, rows, j);
    assert Level(0, rows) == rows;
    assert Source(1, rows, j) == g;
    FirstReduce(g, w);
  }

  lemma NextLevelSummarises(k: nat, rows: seq<Row>, w: nat, j: nat)
    requires k > 1 && j < |rows| / Pow4(k) && 4 * j + 3 < |rows| / Pow4(k - 1)
    requires forall m :: 0 <= m < 4 ==> Summarises(Parts(k, rows, j)[m], Source(k - 1, rows, 4 * j + m), w)
    ensures Summarises(Reduce(true, Parts(k, rows, j)), Source(k, rows, j), w)
  {
    var raw := seq(4, m requires 0 <= m < 4 => Source(k - 1, rows, 4 * j + m));
    SourceSplits(k - 1, rows, j);
    assert Joined(raw) == Source(k, rows, j);
    NextReduce(Parts(k, rows, j), raw, Pow4(k - 1), w);
  }

  /** Row j at level 4^k holds the exact mean, minimum and maximum of raw rows
      j * 4^k to (j + 1) * 4^k - 1. */
  lemma {:induction false} LevelSummarises(k: nat, rows: seq<Row>, w: nat, j: nat)
    requires k > 0 && Wide(rows, w) && j < |rows| / Pow4(k)
    ensures j < |Level(k, rows)| && Summarises(Level(k, rows)[j], Source(k, rows, j), w)
  {
    LevelAt(k, rows, j);
    if k == 1 {
      FirstLevelSummarises(rows, w, j);
    } else {
      SourceSplits(k - 1, rows, j);
      forall m | 0 <= m < 4 ensures Summarises(Parts(k, rows, j)[m], Source(k - 1, rows, 4 * j + m), w) {
        LevelSummarises(k - 1, rows, w, 4 * j + m);
      }
      NextLevelSummarises(k, rows, w, j);
    }
  }

  /** In every summary the mean lies between the minimum and the maximum. */
  lemma SummaryOrdered(row: Row, raw: seq<Row>, w: nat, i: nat)
    requires Summarises(row, raw, w) && i < w
    ensures Cell(row, w + i) <= Cell(row, i) <= Cell(row, 2 * w + i)
  {
    assert SummarisesColumn(row, raw, w, i);
    SumBetween(raw, i);
    DivBetween(Least(raw, i), Greatest(raw, i), Sum(raw, i), |raw|);
  }

  lemma RealOrder(a: real, b: real, n: real)
    requires n > 0.0
    ensures a < b ==> a * n < b * n
  {
    if a < b {
      assert (b - a) * n > 0.0;
    }
  }

  /** `sum` could be the sum of n numbers between `lo` and `hi`. */
  ghost predicate Bracketed(lo: real, hi: real, sum: real, n: nat) {
    Times(lo, n) <= sum <= Times(hi, n)
  }

  function Times(x: real, n: nat): real {
    if n == 0 then 0.0 else x + Times(x, n - 1)
  }

  lemma RealDistribute(x: real, y: real)
    ensures x * (y + 1.0) == x * y + x
  {
  }

  lemma {:induction false} TimesIsProduct(x: real, n: nat)
    ensures Times(x, n) == x * (n as real)
  {
    if n > 0 {
      TimesIsProduct(x, n - 1);
      RealDistribute(x, (n - 1) as real);
    }
  }

  lemma {:induction false} TimesOrder(a: real, b: real, n: nat)
    requires a <= b
    ensures Times(a, n) <= Times(b, n)
  {
    if n > 0 {
      TimesOrder(a, b, n - 1);
    }
  }

  lemma QuotientBetween(lo: real, hi: real, sum: real, d: real)
    requires d > 0.0 && lo * d <= sum <= hi * d
    ensures lo <= sum / d <= hi
  {
    var q := sum / d;
    assert q * d == sum;
    RealOrder(q, lo, d);
    RealOrder(hi, q, d);
  }

  lemma DivBetween(lo: real, hi: real, sum: real, n: nat)
    requires n > 0 && Bracketed(lo, hi, sum, n)
    ensures lo <= sum / (n as real) <= hi
  {
    TimesIsProduct(lo, n);
    TimesIsProduct(hi, n);
    QuotientBetween(lo, hi, sum, n as real);
  }

  lemma BracketedStep(x: real, lo: real, hi: real, sum: real, n: nat)
    requires Bracketed(lo, hi, sum, n)
    ensures Bracketed(MinReal(x, lo), MaxReal(x, hi), x + sum, n + 1)
  {
    TimesOrder(MinReal(x, lo), lo, n);
    TimesOrder(hi, MaxReal(x, hi), n);
  }

  lemma {:induction false} SumBetween(raw: seq<Row>, i: nat)
    requires raw != []
    ensures Bracketed(Least(raw, i), Greatest(raw, i), Sum(raw, i), |raw|)
  {
    var rest := raw[1..];
    if rest == [] {
      assert Sum(raw, i) == Cell(raw[0], i) + Sum([], i);
      assert Times(Cell(raw[0], i), 1) == Cell(raw[0], i) + Times(Cell(raw[0], i), 0);
    } else {
      SumBetween(rest, i);
      BracketedStep(Cell(raw[0], i), Least(rest, i), Greatest(rest, i), Sum(rest, i), |rest|);
    }
  }
}
