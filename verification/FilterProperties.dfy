/** What the filters compute of a column of rows. */
module FilterProperties {
  import opened Rows
  import opened Filters

  // ---- the convolution ---------------------------------------------------

  lemma {:induction false} DotAdds(taps: seq<real>, xs: seq<real>, ys: seq<real>, zs: seq<real>, n: nat)
    requires |taps| == |xs| == |ys| == |zs| && n <= |taps|
    requires forall i :: 0 <= i < |xs| ==> zs[i] == xs[i] + ys[i]
    ensures Dot(taps, zs, n) == Dot(taps, xs, n) + Dot(taps, ys, n)
  {
    if n > 0 {
      DotAdds(taps, xs, ys, zs, n - 1);
      TimesSum(taps[n - 1], xs[|xs| - n], ys[|xs| - n]);
    }
  }

  lemma TimesSum(a: real, b: real, c: real)
    ensures a * (b + c) == a * b + a * c
  {
  }

  lemma {:induction false} DotOfOne(taps: seq<real>, xs: seq<real>, j: nat, v: real, n: nat)
    requires |taps| == |xs| && n <= |taps|
    requires forall i :: 0 <= i < |xs| ==> xs[i] == if i == j then v else 0.0
    ensures Dot(taps, xs, n) == if |xs| - n <= j < |xs| then taps[|xs| - 1 - j] * v else 0.0
  {
    if n > 0 {
      DotOfOne(taps, xs, j, v, n - 1);
    }
  }

  // ---- a column of the output --------------------------------------------

  /** All rows have column c. */
  ghost predicate HasColumn(rows: seq<Row>, c: nat) {
    forall i :: 0 <= i < |rows| ==> c < |rows[i].data|
  }

  lemma BatchRow(f: Filter, width: nat, rows: seq<Row>, i: nat)
    requires Usable(f) && i + Span(f) <= |rows|
    ensures i < |Batch(f, width, rows)| && Batch(f, width, rows)[i] == Smoothed(f, width, rows[i..i + Span(f)])
    ensures |Batch(f, width, rows)[i].data| == width
  {
  }

  /** Column c of row i of the output. */
  function CellAt(f: Filter, width: nat, rows: seq<Row>, c: nat, i: nat): real
    requires Usable(f) && c < width && i + Span(f) <= |rows|
  {
    BatchRow(f, width, rows, i);
    Batch(f, width, rows)[i].data[c]
  }

  /** Column c of n rows from row i on. */
  function Window(rows: seq<Row>, c: nat, i: nat, n: nat): (xs: seq<real>)
    requires i + n <= |rows| && forall k :: i <= k < i + n ==> c < |rows[k].data|
    ensures |xs| == n
  {
    seq(n, m requires 0 <= m < n => rows[i + m].data[c])
  }

  lemma WindowCells(rows: seq<Row>, c: nat, i: nat, n: nat)
    requires i + n <= |rows| && HasColumn(rows, c)
    ensures forall k :: i <= k < i + n ==> rows[k].data[c] == Window(rows, c, i, n)[k - i]
  {
  }

  lemma CellOfWindow(f: Filter, width: nat, rows: seq<Row>, c: nat, i: nat)
    requires Usable(f) && c < width && i + Span(f) <= |rows| && HasColumn(rows, c)
    ensures CellAt(f, width, rows, c, i) == Apply(f, Window(rows, c, i, Span(f)))
  {
    BatchRow(f, width, rows, i);
    var part := rows[i..i + Span(f)];
    assert Column(part, c) == Window(rows, c, i, Span(f));
    assert Smoothed(f, width, part).data[c] == Apply(f, Column(part, c));
  }

  lemma FirOfWindow(taps: seq<real>, width: nat, rows: seq<Row>, c: nat, i: nat)
    requires Usable(Fir(taps)) && c < width && i + |taps| <= |rows| && HasColumn(rows, c)
    ensures CellAt(Fir(taps), width, rows, c, i) == Dot(taps, Window(rows, c, i, |taps|), |taps|)
  {
    CellOfWindow(Fir(taps), width, rows, c, i);
  }

  /** A single value in a column, at row m: the rows of the output whose window
      has it show it times a tap, the first tap for the last row of the window. */
  lemma FirImpulse(taps: seq<real>, width: nat, rows: seq<Row>, c: nat, m: nat, v: real, i: nat)
    requires Usable(Fir(taps)) && HasColumn(rows, c) && c < width && i + |taps| <= |rows|
    requires forall k :: 0 <= k < |rows| ==> rows[k].data[c] == if k == m then v else 0.0
    ensures CellAt(Fir(taps), width, rows, c, i) == if i <= m < i + |taps| then taps[i + |taps| - 1 - m] * v else 0.0
  {
    FirOfWindow(taps, width, rows, c, i);
    ImpulseInWindow(taps, rows, c, m, v, i);
  }

  lemma ImpulseInWindow(taps: seq<real>, rows: seq<Row>, c: nat, m: nat, v: real, i: nat)
    requires HasColumn(rows, c) && i + |taps| <= |rows|
    requires forall k :: 0 <= k < |rows| ==> rows[k].data[c] == if k == m then v else 0.0
    ensures Dot(taps, Window(rows, c, i, |taps|), |taps|)
         == if i <= m < i + |taps| then taps[i + |taps| - 1 - m] * v else 0.0
  {
    var j := if m >= i then m - i else |taps|;
    OneInWindow(rows, c, m, v, i, |taps|, j);
    DotOfOne(taps, Window(rows, c, i, |taps|), j, v, |taps|);
    assert j < |taps| ==> taps[|taps| - 1 - j] == taps[i + |taps| - 1 - m];
  }

  lemma OneInWindow(rows: seq<Row>, c: nat, m: nat, v: real, i: nat, n: nat, j: nat)
    requires HasColumn(rows, c) && i + n <= |rows| && j == if m >= i then m - i else n
    requires forall k :: 0 <= k < |rows| ==> rows[k].data[c] == if k == m then v else 0.0
    ensures forall k :: 0 <= k < n ==> Window(rows, c, i, n)[k] == if k == j then v else 0.0
  {
  }

  /** The output for a sum of signals is the sum of their outputs; as every
      signal is a sum of single values, this and the above fix the filter. */
  lemma FirAdds(taps: seq<real>, width: nat, x: seq<Row>, y: seq<Row>, z: seq<Row>, c: nat, i: nat)
    requires Usable(Fir(taps)) && c < width && |x| == |y| == |z| && i + |taps| <= |x|
    requires HasColumn(x, c) && HasColumn(y, c) && HasColumn(z, c)
    requires forall k :: 0 <= k < |x| ==> z[k].data[c] == x[k].data[c] + y[k].data[c]
    ensures CellAt(Fir(taps), width, z, c, i) == CellAt(Fir(taps), width, x, c, i) + CellAt(Fir(taps), width, y, c, i)
  {
    var n := |taps|;
    FirOfWindow(taps, width, x, c, i);
    FirOfWindow(taps, width, y, c, i);
    FirOfWindow(taps, width, z, c, i);
    DotAdds(taps, Window(x, c, i, n), Window(y, c, i, n), Window(z, c, i, n), n);
  }

  // ---- the median --------------------------------------------------------

  lemma {:induction false} BelowIsSize(xs: seq<real>, v: real, i: int, places: set<int>)
    requires forall k :: k in places <==> i <= k < i + |xs| && xs[k - i] < v
    ensures CountBelow(xs, v) == |places|
  {
    if xs == [] {
      assert places == {};
    } else {
      BelowIsSize(xs[1..], v, i + 1, places - {i});
      if i in places {
        assert |places| == |places - {i}| + 1;
      } else {
        assert places == places - {i};
      }
    }
  }

  lemma {:induction false} AboveIsSize(xs: seq<real>, v: real, i: int, places: set<int>)
    requires forall k :: k in places <==> i <= k < i + |xs| && xs[k - i] > v
    ensures CountAbove(xs, v) == |places|
  {
    if xs == [] {
      assert places == {};
    } else {
      AboveIsSize(xs[1..], v, i + 1, places - {i});
      if i in places {
        assert |places| == |places - {i}| + 1;
      } else {
        assert places == places - {i};
      }
    }
  }

  lemma MiddleSizes(window: nat, xs: seq<real>, v: real, i: int, below: set<int>, above: set<int>)
    requires Usable(Median(window)) && |xs| == window && v == Apply(Median(window), xs)
    requires forall k :: k in below <==> i <= k < i + window && xs[k - i] < v
    requires forall k :: k in above <==> i <= k < i + window && xs[k - i] > v
    ensures |below| <= window / 2 && |above| <= window / 2
  {
    MedianIsMiddle(window, xs);
    BelowIsSize(xs, v, i, below);
    AboveIsSize(xs, v, i, above);
  }

  /** Of the rows in the window, which are one more than twice its half, at most
      half are below the output in that column, and at most half above. */
  lemma MedianOfWindow(window: nat, width: nat, rows: seq<Row>, c: nat, i: nat)
    requires Usable(Median(window)) && HasColumn(rows, c) && c < width && i + window <= |rows|
    ensures var v := CellAt(Median(window), width, rows, c, i);
      && |set k | i <= k < i + window && rows[k].data[c] < v| <= window / 2
      && |set k | i <= k < i + window && rows[k].data[c] > v| <= window / 2
  {
    var v, xs := CellAt(Median(window), width, rows, c, i), Window(rows, c, i, window);
    CellOfWindow(Median(window), width, rows, c, i);
    WindowCells(rows, c, i, window);
    MiddleSizes(window, xs, v, i, set k | i <= k < i + window && rows[k].data[c] < v,
                set k | i <= k < i + window && rows[k].data[c] > v);
  }
}
