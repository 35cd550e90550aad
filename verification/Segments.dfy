/** The reference definition of an interval: a maximal run of rows with no
    boundary between neighbours. */
module Segments {
  import opened Rows

  predicate NonDecreasing(bounds: seq<int>) {
    forall i, j :: 0 <= i < j < |bounds| ==> bounds[i] <= bounds[j]
  }

  /** A boundary at `c` cuts the rows before `c` from the rows at or after it. */
  predicate Separated(bounds: seq<int>, a: int, b: int) {
    exists c :: c in bounds && a < c <= b
  }

  function Split(rows: seq<Row>, bounds: seq<int>): (segs: seq<seq<Row>>)
    ensures rows != [] ==> segs != []
  {
    if rows == [] then []
    else if |rows| == 1 then [rows]
    else
      var rest: seq<seq<Row>> := Split(rows[1..], bounds);
      if Separated(bounds, rows[0].ts, rows[1].ts) then [[rows[0]]] + rest
      else [[rows[0]] + rest[0]] + rest[1..]
  }

  function Concat<T>(parts: seq<seq<T>>): seq<T> {
    if parts == [] then [] else parts[0] + Concat(parts[1..])
  }

  lemma Assoc<T>(a: seq<T>, b: seq<T>, c: seq<T>)
    ensures (a + b) + c == a + (b + c)
  {
  }

  lemma {:induction false} ConcatAppend<T>(a: seq<seq<T>>, b: seq<seq<T>>)
    ensures Concat(a + b) == Concat(a) + Concat(b)
  {
    if a == [] {
      assert a + b == b;
    } else {
      assert (a + b)[0] == a[0] && (a + b)[1..] == a[1..] + b;
      ConcatAppend(a[1..], b);
      Assoc(a[0], Concat(a[1..]), Concat(b));
    }
  }

  /** Every row is in exactly one segment, none is empty, and the cuts are
      exactly at the boundaries. */
  ghost predicate IsSplit(rows: seq<Row>, bounds: seq<int>, segs: seq<seq<Row>>) {
    && Concat(segs) == rows
    && (forall i :: 0 <= i < |segs| ==> segs[i] != [] && Whole(segs[i], bounds))
    && (forall i :: 0 <= i < |segs| - 1 ==> CutBetween(segs[i], segs[i + 1], bounds))
  }

  ghost predicate Whole(seg: seq<Row>, bounds: seq<int>) {
    forall i :: 0 <= i < |seg| - 1 ==> !Separated(bounds, seg[i].ts, seg[i + 1].ts)
  }

  ghost predicate CutBetween(a: seq<Row>, b: seq<Row>, bounds: seq<int>) {
    a != [] && b != [] && Separated(bounds, a[|a| - 1].ts, b[0].ts)
  }

  lemma {:induction false} WholeSplit(rows: seq<Row>, bounds: seq<int>)
    requires rows != [] && Whole(rows, bounds)
    ensures Split(rows, bounds) == [rows]
  {
    if |rows| > 1 {
      assert Whole(rows[1..], bounds) by {
        forall i | 0 <= i < |rows[1..]| - 1
          ensures !Separated(bounds, rows[1..][i].ts, rows[1..][i + 1].ts)
        {
          assert !Separated(bounds, rows[i + 1].ts, rows[i + 2].ts);
        }
      }
      WholeSplit(rows[1..], bounds);
      assert !Separated(bounds, rows[0].ts, rows[0 + 1].ts);
      assert rows == [rows[0]] + rows[1..];
    }
  }

  lemma JoinFirst(r: Row, a: seq<seq<Row>>, b: seq<seq<Row>>)
    requires a != []
    ensures [[r] + (a + b)[0]] + (a + b)[1..] == ([[r] + a[0]] + a[1..]) + b
  {
  }

  lemma {:induction false} SplitAppend(a: seq<Row>, b: seq<Row>, bounds: seq<int>)
    requires CutBetween(a, b, bounds)
    ensures Split(a + b, bounds) == Split(a, bounds) + Split(b, bounds)
  {
    assert (a + b)[0] == a[0] && (a + b)[1..] == a[1..] + b;
    var rb: seq<seq<Row>> := Split(b, bounds);
    if |a| == 1 {
      assert a[1..] + b == b && [a[0]] == a;
      assert Split(a + b, bounds) == [a] + rb;
    } else {
      var ra: seq<seq<Row>> := Split(a[1..], bounds);
      SplitAppend(a[1..], b, bounds);
      assert (a + b)[1] == a[1];
      if Separated(bounds, a[0].ts, a[1].ts) {
        Assoc([[a[0]]], ra, rb);
      } else {
        JoinFirst(a[0], ra, rb);
      }
    }
  }

  /** The properties of a split determine it. */
  lemma {:induction false} SplitUnique(rows: seq<Row>, bounds: seq<int>, segs: seq<seq<Row>>)
    requires IsSplit(rows, bounds, segs)
    ensures segs == Split(rows, bounds)
    decreases |segs|
  {
    if segs != [] {
      var first, rest := segs[0], segs[1..];
      assert Whole(first, bounds);
      WholeSplit(first, bounds);
      forall i | 0 <= i < |rest| - 1 ensures CutBetween(rest[i], rest[i + 1], bounds) {
        assert CutBetween(segs[i + 1], segs[i + 1 + 1], bounds);
      }
      SplitUnique(Concat(rest), bounds, rest);
      if rest == [] {
        assert rows == first;
      } else {
        assert CutBetween(segs[0], segs[0 + 1], bounds);
        assert Concat(rest)[0] == rest[0][0];
        SplitAppend(first, Concat(rest), bounds);
      }
    }
  }

  lemma {:induction false} SplitIsSplit(rows: seq<Row>, bounds: seq<int>)
    ensures IsSplit(rows, bounds, Split(rows, bounds))
  {
    if |rows| == 1 {
      assert Concat([rows]) == rows + Concat([]);
    } else if |rows| > 1 {
      var rest: seq<seq<Row>> := Split(rows[1..], bounds);
      SplitIsSplit(rows[1..], bounds);
      assert Concat(rest) == rest[0] + Concat(rest[1..]);
      assert rest[0][0] == rows[1];
      var segs: seq<seq<Row>> := Split(rows, bounds);
      if Separated(bounds, rows[0].ts, rows[1].ts) {
        assert segs == [[rows[0]]] + rest && segs[1..] == rest;
        forall i | 0 <= i < |segs| - 1 ensures CutBetween(segs[i], segs[i + 1], bounds) {
          if i > 0 {
            assert CutBetween(rest[i - 1], rest[i - 1 + 1], bounds);
          }
        }
      } else {
        assert segs == [[rows[0]] + rest[0]] + rest[1..] && segs[1..] == rest[1..];
        assert Whole(rest[0], bounds);
        assert Whole(segs[0], bounds) by {
          forall i | 0 <= i < |segs[0]| - 1
            ensures !Separated(bounds, segs[0][i].ts, segs[0][i + 1].ts)
          {
            if i > 0 {
              assert !Separated(bounds, rest[0][i - 1].ts, rest[0][i - 1 + 1].ts);
            }
          }
        }
        forall i | 0 <= i < |segs| - 1 ensures CutBetween(segs[i], segs[i + 1], bounds) {
          assert CutBetween(rest[i], rest[i + 1], bounds);
          if i == 0 {
            assert segs[0][|segs[0]| - 1] == rest[0][|rest[0]| - 1];
          }
        }
      }
      assert Concat(segs) == [rows[0]] + rows[1..];
    }
  }

  /** The boundaries of [s, e), in order. */
  function Within(bounds: seq<int>, s: int, e: int): (r: seq<int>)
    ensures forall c :: c in r <==> c in bounds && s <= c < e
  {
    if bounds == [] then []
    else
      assert bounds == [bounds[0]] + bounds[1..];
      (if s <= bounds[0] < e then [bounds[0]] else []) + Within(bounds[1..], s, e)
  }

  lemma {:induction false} WithinOrdered(bounds: seq<int>, s: int, e: int)
    requires NonDecreasing(bounds)
    ensures NonDecreasing(Within(bounds, s, e))
  {
    if bounds != [] {
      WithinOrdered(bounds[1..], s, e);
      var rest := Within(bounds[1..], s, e);
      forall k | 0 <= k < |rest| ensures bounds[0] <= rest[k] {
        assert rest[k] in bounds[1..];
      }
    }
  }

  lemma {:induction false} WithinEmpty(bounds: seq<int>, s: int, e: int)
    requires e <= s
    ensures Within(bounds, s, e) == []
  {
    if bounds != [] {
      WithinEmpty(bounds[1..], s, e);
    }
  }

  /** The cut points of a range: its ends and the boundaries in it. */
  function Cuts(bounds: seq<int>, s: int, e: int): seq<int> {
    [s] + Within(bounds, s, e) + [e]
  }

  lemma CutsOrdered(bounds: seq<int>, s: int, e: int)
    requires NonDecreasing(bounds) && s <= e
    ensures NonDecreasing(Cuts(bounds, s, e))
    ensures forall i :: 0 <= i < |Cuts(bounds, s, e)| ==> s <= Cuts(bounds, s, e)[i] <= e
  {
    WithinOrdered(bounds, s, e);
    var w := Within(bounds, s, e);
    forall k | 0 <= k < |w| ensures s <= w[k] < e {
      assert w[k] in w;
    }
  }

  /** The rows between consecutive cut points, without the empty pieces. */
  function Pieces(rows: seq<Row>, cuts: seq<int>): seq<seq<Row>> {
    if |cuts| < 2 then []
    else
      var n := |cuts| - 1;
      var last := Select(rows, cuts[n - 1], cuts[n]);
      Pieces(rows, cuts[..n]) + (if last == [] then [] else [last])
  }

  /** Cutting a range at its boundaries gives the segments of its rows. */
  lemma PiecesAreSegments(rows: seq<Row>, bounds: seq<int>, s: int, e: int)
    requires Increasing(rows) && NonDecreasing(bounds)
    ensures Pieces(rows, Cuts(bounds, s, e)) == Split(Select(rows, s, e), bounds)
  {
    var cuts := Cuts(bounds, s, e);
    if s <= e {
      PiecesPrefix(rows, bounds, s, e, |cuts|);
      assert cuts[..|cuts|] == cuts;
    } else {
      WithinEmpty(bounds, s, e);
      assert cuts == [s, e];
      assert Pieces(rows, cuts[..1]) == [];
      BelowMonotone(rows, e, s);
    }
  }

  lemma {:induction false} PiecesLast(rows: seq<Row>, cuts: seq<int>, n: nat)
    requires 2 <= n <= |cuts|
    ensures var last := Select(rows, cuts[n - 2], cuts[n - 1]);
      Pieces(rows, cuts[..n]) == Pieces(rows, cuts[..n - 1]) + (if last == [] then [] else [last])
  {
    assert cuts[..n][..n - 1] == cuts[..n - 1];
  }

  lemma {:induction false} PiecesPrefix(rows: seq<Row>, bounds: seq<int>, s: int, e: int, n: nat)
    requires Increasing(rows) && NonDecreasing(bounds) && s <= e
    requires 1 <= n <= |Cuts(bounds, s, e)|
    ensures Pieces(rows, Cuts(bounds, s, e)[..n]) == Split(Select(rows, s, Cuts(bounds, s, e)[n - 1]), bounds)
  {
    var cuts := Cuts(bounds, s, e);
    if n > 1 {
      PiecesPrefix(rows, bounds, s, e, n - 1);
      PiecesLast(rows, cuts, n);
      PieceExtends(rows, bounds, s, e, n - 2);
    }
  }

  lemma PieceExtends(rows: seq<Row>, bounds: seq<int>, s: int, e: int, i: nat)
    requires Increasing(rows) && NonDecreasing(bounds) && s <= e
    requires i + 1 < |Cuts(bounds, s, e)|
    ensures var m, t := Cuts(bounds, s, e)[i], Cuts(bounds, s, e)[i + 1];
      Split(Select(rows, s, t), bounds)
      == Split(Select(rows, s, m), bounds) + (if Select(rows, m, t) == [] then [] else [Select(rows, m, t)])
  {
    var m, t := Cuts(bounds, s, e)[i], Cuts(bounds, s, e)[i + 1];
    CutsOrdered(bounds, s, e);
    SelectSplit(rows, s, m, t);
    SelectSpec(rows, s, m);
    SelectSpec(rows, m, t);
    PieceIsWhole(rows, bounds, s, e, i);
    var before, piece := Select(rows, s, m), Select(rows, m, t);
    if before != [] && piece != [] {
      assert before[|before| - 1].ts < m <= piece[0].ts;
      assert i > 0 && m in Within(bounds, s, e);
    }
    SplitExtend(before, piece, bounds);
  }

  lemma SplitExtend(before: seq<Row>, piece: seq<Row>, bounds: seq<int>)
    requires Whole(piece, bounds)
    requires before != [] && piece != [] ==> CutBetween(before, piece, bounds)
    ensures Split(before + piece, bounds) == Split(before, bounds) + (if piece == [] then [] else [piece])
  {
    if piece == [] {
      assert before + piece == before;
    } else {
      WholeSplit(piece, bounds);
      if before == [] {
        assert before + piece == piece;
      } else {
        SplitAppend(before, piece, bounds);
      }
    }
  }

  /** No boundary cuts the rows between two consecutive cut points. */
  lemma PieceIsWhole(rows: seq<Row>, bounds: seq<int>, s: int, e: int, i: nat)
    requires Increasing(rows) && NonDecreasing(bounds) && s <= e
    requires i + 1 < |Cuts(bounds, s, e)|
    ensures Whole(Select(rows, Cuts(bounds, s, e)[i], Cuts(bounds, s, e)[i + 1]), bounds)
  {
    var cuts := Cuts(bounds, s, e);
    var piece := Select(rows, cuts[i], cuts[i + 1]);
    CutsOrdered(bounds, s, e);
    SelectSpec(rows, cuts[i], cuts[i + 1]);
    forall c | c in bounds ensures c <= cuts[i] || cuts[i + 1] <= c {
      var w := Within(bounds, s, e);
      if c in w {
        var k :| 0 <= k < |w| && w[k] == c;
        assert cuts[k + 1] == c;
      }
    }
  }

  /** What `intervals` reports for a segment: from its first timestamp to one
      microsecond after its last. */
  function Extent(seg: seq<Row>): (int, int)
    requires seg != []
  {
    (seg[0].ts, seg[|seg| - 1].ts + 1)
  }

  function Extents(segs: seq<seq<Row>>): (r: seq<(int, int)>)
    requires forall i :: 0 <= i < |segs| ==> segs[i] != []
    ensures |r| == |segs|
    ensures forall i :: 0 <= i < |segs| ==> r[i] == Extent(segs[i])
  {
    seq(|segs|, i requires 0 <= i < |segs| => Extent(segs[i]))
  }
}
