/** Timestamps of decimated rows: they are the primary key of their table and
    decide which interval a decimated row falls into. */
module DecimatedKeys {
  import opened Arithmetic
  import opened Rows
  import opened Decimation

  lemma MeanInSpan(g: seq<Row>, again: bool)
    requires |g| == 4 && Increasing(g)
    ensures g[0].ts <= Reduce(again, g).ts <= g[3].ts
  {
    FourOf(g, 0);
  }

  lemma DecimateInSpan(again: bool, rows: seq<Row>, j: nat)
    requires Increasing(rows) && j < |rows| / 4
    ensures rows[4 * j].ts <= Decimate(again, rows)[j].ts <= rows[4 * j + 3].ts
  {
    DecimateAt(again, rows, j);
    MeanInSpan(rows[4 * j..4 * j + 4], again);
  }

  lemma DecimateIncreasing(again: bool, rows: seq<Row>)
    requires Increasing(rows)
    ensures Increasing(Decimate(again, rows))
  {
    var d := Decimate(again, rows);
    forall i, j | 0 <= i < j < |d| ensures d[i].ts < d[j].ts {
      DecimateInSpan(again, rows, i);
      DecimateInSpan(again, rows, j);
      assert rows[4 * i + 3].ts < rows[4 * j].ts;
    }
  }

  /** Keys never repeat: timestamps increase strictly at every level. */
  lemma {:induction false} LevelIncreasing(k: nat, rows: seq<Row>)
    requires Increasing(rows)
    ensures Increasing(Level(k, rows))
  {
    if k > 0 {
      LevelIncreasing(k - 1, rows);
      DecimateIncreasing(k > 1, Level(k - 1, rows));
    }
  }

  lemma PartsInSpan(k: nat, rows: seq<Row>, j: nat)
    requires k > 0 && Increasing(rows) && j < |rows| / Pow4(k)
    ensures j < |Level(k, rows)|
    ensures Parts(k, rows, j)[0].ts <= Level(k, rows)[j].ts <= Parts(k, rows, j)[3].ts
  {
    LevelAt(k, rows, j);
    LevelIncreasing(k - 1, rows);
    MeanInSpan(Parts(k, rows, j), k > 1);
  }

  lemma SourceEnds(k: nat, rows: seq<Row>, j: nat)
    requires k > 0 && j < |rows| / Pow4(k)
    ensures 4 * j + 3 < |rows| / Pow4(k - 1)
    ensures Source(k, rows, j)[0] == Source(k - 1, rows, 4 * j)[0]
    ensures Source(k, rows, j)[Pow4(k) - 1] == Source(k - 1, rows, 4 * j + 3)[Pow4(k - 1) - 1]
  {
    SourceSplits(k - 1, rows, j);
  }

  /** A decimated row's timestamp lies within the raw rows it stands for. */
  lemma {:induction false} LevelInSpan(k: nat, rows: seq<Row>, j: nat)
    requires Increasing(rows) && j < |rows| / Pow4(k)
    ensures j < |Level(k, rows)|
    ensures Source(k, rows, j)[0].ts <= Level(k, rows)[j].ts <= Source(k, rows, j)[Pow4(k) - 1].ts
  {
    if k == 0 {
      SourceBounds(0, |rows|, j);
    } else {
      PartsInSpan(k, rows, j);
      SourceEnds(k, rows, j);
      LevelInSpan(k - 1, rows, 4 * j);
      LevelInSpan(k - 1, rows, 4 * j + 3);
    }
  }

  // ---- distance from the exact mean --------------------------------------

  /** 4^k times the stored timestamp, less the sum of the raw timestamps. */
  function Excess(k: nat, rows: seq<Row>, j: nat): int
    requires j < |rows| / Pow4(k)
  {
    LevelSize(k, rows);
    Pow4(k) * Level(k, rows)[j].ts - TsSum(Source(k, rows, j))
  }

  function Slack(t: int, sum: int): int { 4 * t - sum }

  lemma ExcessStep(k: nat, rows: seq<Row>, j: nat)
    requires k > 0 && j < |rows| / Pow4(k)
    ensures 4 * j + 3 < |rows| / Pow4(k - 1)
    ensures var t := TruncMean4(TsSum(Parts(k, rows, j)));
      Excess(k, rows, j) == Excess(k - 1, rows, 4 * j) + Excess(k - 1, rows, 4 * j + 1)
                            + Excess(k - 1, rows, 4 * j + 2) + Excess(k - 1, rows, 4 * j + 3)
                            + Pow4(k - 1) * Slack(t, TsSum(Parts(k, rows, j)))
  {
    PartsBelow(k, rows, j);
    var g, p := Parts(k, rows, j), Pow4(k - 1);
    FourOf(g, 0);
    ExcessWhole(k, rows, j);
    ExcessPart(k, rows, j, 0);
    ExcessPart(k, rows, j, 1);
    ExcessPart(k, rows, j, 2);
    ExcessPart(k, rows, j, 3);
    Spread(p, TruncMean4(TsSum(g)), g[0].ts, g[1].ts, g[2].ts, g[3].ts);
  }

  lemma PartsBelow(k: nat, rows: seq<Row>, j: nat)
    requires k > 0 && j < |rows| / Pow4(k)
    ensures 4 * j + 3 < |rows| / Pow4(k - 1)
  {
    SourceSplits(k - 1, rows, j);
  }

  lemma ExcessPart(k: nat, rows: seq<Row>, j: nat, m: nat)
    requires k > 0 && j < |rows| / Pow4(k) && m < 4 && 4 * j + 3 < |rows| / Pow4(k - 1)
    ensures Excess(k - 1, rows, 4 * j + m)
         == Pow4(k - 1) * Parts(k, rows, j)[m].ts - TsSum(Source(k - 1, rows, 4 * j + m))
  {
    LevelSize(k - 1, rows);
    var row := Level(k - 1, rows)[4 * j + m];
    assert Parts(k, rows, j)[m] == row;
  }

  lemma ExcessWhole(k: nat, rows: seq<Row>, j: nat)
    requires k > 0 && j < |rows| / Pow4(k) && 4 * j + 3 < |rows| / Pow4(k - 1)
    ensures var t := TruncMean4(TsSum(Parts(k, rows, j)));
      Excess(k, rows, j) == (4 * Pow4(k - 1)) * t
                            - (TsSum(Source(k - 1, rows, 4 * j)) + TsSum(Source(k - 1, rows, 4 * j + 1))
                               + TsSum(Source(k - 1, rows, 4 * j + 2)) + TsSum(Source(k - 1, rows, 4 * j + 3)))
  {
    LevelAt(k, rows, j);
    SourceSplits(k - 1, rows, j);
    TsSumFour(Source(k - 1, rows, 4 * j), Source(k - 1, rows, 4 * j + 1), Source(k - 1, rows, 4 * j + 2),
              Source(k - 1, rows, 4 * j + 3));
  }

  lemma TsSumFour(a: seq<Row>, b: seq<Row>, c: seq<Row>, d: seq<Row>)
    ensures TsSum(a + b + c + d) == TsSum(a) + TsSum(b) + TsSum(c) + TsSum(d)
  {
    TsSumAppend(a, b);
    TsSumAppend(a + b, c);
    TsSumAppend(a + b + c, d);
  }

  lemma Spread(p: int, t: int, a: int, b: int, c: int, d: int)
    ensures (4 * p) * t == p * a + p * b + p * c + p * d + p * (4 * t - (a + b + c + d))
  {
  }

  /** Three quarters of a microsecond for every level, times 4 * 4^k. */
  function Allowed(k: nat): int { 3 * k * Pow4(k) }

  lemma AllowedStep(k: nat)
    requires k > 0
    ensures Allowed(k) == 4 * Allowed(k - 1) + 12 * Pow4(k - 1)
  {
    var p := Pow4(k - 1);
    assert 3 * k * (4 * p) == 4 * (3 * (k - 1) * p) + 12 * p;
  }

  lemma SlackBound(sum: int, p: nat)
    ensures -3 * p <= p * Slack(TruncMean4(sum), sum) <= 3 * p
    ensures sum >= 0 ==> p * Slack(TruncMean4(sum), sum) <= 0
  {
    var slack := Slack(TruncMean4(sum), sum);
    MulOrder(-3, slack, p);
    MulOrder(slack, 3, p);
    if slack <= 0 {
      MulOrder(slack, 0, p);
    }
  }

  lemma ExcessSingle(rows: seq<Row>, j: nat)
    requires j < |rows| / Pow4(0)
    ensures Excess(0, rows, j) == 0
  {
    SourceBounds(0, |rows|, j);
    assert Source(0, rows, j) == [rows[j]];
    assert TsSum([rows[j]]) == rows[j].ts + TsSum([]);
  }

  /** At level 4^k the timestamp is within 3k/4 of the exact mean. */
  lemma {:induction false} MeanError(k: nat, rows: seq<Row>, j: nat)
    requires j < |rows| / Pow4(k)
    ensures -Allowed(k) <= 4 * Excess(k, rows, j) <= Allowed(k)
  {
    if k == 0 {
      ExcessSingle(rows, j);
    } else {
      ExcessStep(k, rows, j);
      SlackBound(TsSum(Parts(k, rows, j)), Pow4(k - 1));
      AllowedStep(k);
      MeanError(k - 1, rows, 4 * j);
      MeanError(k - 1, rows, 4 * j + 1);
      MeanError(k - 1, rows, 4 * j + 2);
      MeanError(k - 1, rows, 4 * j + 3);
    }
  }

  ghost predicate NonNegative(rows: seq<Row>) {
    forall i :: 0 <= i < |rows| ==> rows[i].ts >= 0
  }

  lemma {:induction false} LevelNonNegative(k: nat, rows: seq<Row>)
    requires NonNegative(rows)
    ensures NonNegative(Level(k, rows))
  {
    if k > 0 {
      LevelNonNegative(k - 1, rows);
      var below := Level(k - 1, rows);
      var d := Decimate(k > 1, below);
      forall j | 0 <= j < |d| ensures d[j].ts >= 0 {
        DecimateAt(k > 1, below, j);
        SliceNonNegative(below, 4 * j, 4 * j + 4);
        SumNonNegative(below[4 * j..4 * j + 4]);
      }
    }
  }

  lemma {:induction false} SumNonNegative(rows: seq<Row>)
    requires NonNegative(rows)
    ensures TsSum(rows) >= 0
  {
    if rows != [] {
      SumNonNegative(rows[1..]);
    }
  }

  lemma SliceNonNegative(rows: seq<Row>, a: nat, b: nat)
    requires NonNegative(rows) && a <= b <= |rows|
    ensures NonNegative(rows[a..b])
  {
  }

  lemma PartsNonNegative(k: nat, rows: seq<Row>, j: nat)
    requires k > 0 && j < |rows| / Pow4(k) && NonNegative(rows)
    ensures TsSum(Parts(k, rows, j)) >= 0
  {
    LevelAt(k, rows, j);
    LevelNonNegative(k - 1, rows);
    LevelSize(k - 1, rows);
    DivDiv(|rows|, Pow4(k - 1));
    SliceNonNegative(Level(k - 1, rows), 4 * j, 4 * j + 4);
    SumNonNegative(Parts(k, rows, j));
  }

  /** ... and when no raw timestamp is negative it is never above the mean. */
  lemma {:induction false} MeanFallsShort(k: nat, rows: seq<Row>, j: nat)
    requires j < |rows| / Pow4(k) && NonNegative(rows)
    ensures Excess(k, rows, j) <= 0
  {
    if k == 0 {
      ExcessSingle(rows, j);
    } else {
      ExcessStep(k, rows, j);
      PartsNonNegative(k, rows, j);
      SlackBound(TsSum(Parts(k, rows, j)), Pow4(k - 1));
      MeanFallsShort(k - 1, rows, 4 * j);
      MeanFallsShort(k - 1, rows, 4 * j + 1);
      MeanFallsShort(k - 1, rows, 4 * j + 2);
      MeanFallsShort(k - 1, rows, 4 * j + 3);
    }
  }
}
