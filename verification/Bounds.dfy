/** The table of interval boundaries and how the store edits it. The table has
    no key, so a boundary may be stored twice; it is modelled by its values in
    the order every query asks for. */
module Bounds {
  import opened Rows
  import opened Segments

  /** The boundaries left after deleting those that satisfy `drop`. */
  function Without(bounds: seq<int>, drop: int -> bool): (r: seq<int>)
    ensures forall c :: c in r <==> c in bounds && !drop(c)
  {
    if bounds == [] then []
    else
      assert bounds == [bounds[0]] + bounds[1..];
      (if drop(bounds[0]) then [] else [bounds[0]]) + Without(bounds[1..], drop)
  }

  lemma {:induction false} WithoutOrdered(bounds: seq<int>, drop: int -> bool)
    requires NonDecreasing(bounds)
    ensures NonDecreasing(Without(bounds, drop))
  {
    if bounds != [] {
      WithoutOrdered(bounds[1..], drop);
      var rest := Without(bounds[1..], drop);
      forall k | 0 <= k < |rest| ensures bounds[0] <= rest[k] {
        assert rest[k] in bounds[1..];
      }
    }
  }

  function Insert(bounds: seq<int>, c: int): (r: seq<int>)
    ensures forall x :: x in r <==> x in bounds || x == c
  {
    if bounds == [] || c <= bounds[0] then [c] + bounds
    else
      assert bounds == [bounds[0]] + bounds[1..];
      [bounds[0]] + Insert(bounds[1..], c)
  }

  lemma {:induction false} InsertOrdered(bounds: seq<int>, c: int)
    requires NonDecreasing(bounds)
    ensures NonDecreasing(Insert(bounds, c))
  {
    if bounds != [] && bounds[0] < c {
      InsertOrdered(bounds[1..], c);
      var rest := Insert(bounds[1..], c);
      forall k | 0 <= k < |rest| ensures bounds[0] <= rest[k] {
        assert rest[k] in bounds[1..] || rest[k] == c;
      }
    }
  }

  /** The largest boundary at or before `ts`. */
  function LastBoundAt(bounds: seq<int>, ts: int): (r: Option<int>)
    ensures r.Some? ==> r.value in bounds && r.value <= ts
  {
    if bounds == [] then None
    else
      var n := |bounds| - 1;
      if bounds[n] <= ts then Some(bounds[n]) else LastBoundAt(bounds[..n], ts)
  }

  lemma {:induction false} LastBoundIsLargest(bounds: seq<int>, ts: int, c: int)
    requires NonDecreasing(bounds) && c in bounds && c <= ts
    ensures LastBoundAt(bounds, ts).Some? && c <= LastBoundAt(bounds, ts).value
  {
    var n := |bounds| - 1;
    var k :| 0 <= k < |bounds| && bounds[k] == c;
    if bounds[n] > ts {
      assert c == bounds[..n][k];
      LastBoundIsLargest(bounds[..n], ts, c);
    }
  }

  /** Closing an interval at `ts` puts a boundary one microsecond after the
      last row at or before `ts`, unless a boundary already lies at or after
      that row (and at or before `ts`). */
  function CloseAt(rows: seq<Row>, bounds: seq<int>, ts: int): seq<int> {
    match LastBelow(rows, ts + 1)
    case None => bounds
    case Some(last) =>
      match LastBoundAt(bounds, ts)
      case Some(b) => if last.ts > b then Insert(bounds, last.ts + 1) else bounds
      case None => Insert(bounds, last.ts + 1)
  }

  lemma CloseAtOrdered(rows: seq<Row>, bounds: seq<int>, ts: int)
    requires NonDecreasing(bounds)
    ensures NonDecreasing(CloseAt(rows, bounds, ts))
    ensures forall c :: c in bounds ==> c in CloseAt(rows, bounds, ts)
  {
    var last := LastBelow(rows, ts + 1);
    if last.Some? {
      InsertOrdered(bounds, last.value.ts + 1);
    }
  }

  lemma LastBelowSpec(rows: seq<Row>, b: int)
    requires Increasing(rows)
    ensures match LastBelow(rows, b)
            case None => forall i :: 0 <= i < |rows| ==> b <= rows[i].ts
            case Some(x) =>
              x in rows && x.ts < b && forall i :: 0 <= i < |rows| && rows[i].ts < b ==> rows[i].ts <= x.ts
  {
    BelowSpec(rows, b);
  }

  /** The close is recorded, for every later timestamp `next`, exactly unless
      a boundary sits on the last row itself and none follows before `next`. */
  lemma CloseSeparatesIff(rows: seq<Row>, bounds: seq<int>, ts: int, next: int)
    requires Increasing(rows) && NonDecreasing(bounds)
    requires LastBelow(rows, ts + 1).Some? && ts < next
    ensures var last := LastBelow(rows, ts + 1).value.ts;
      Separated(CloseAt(rows, bounds, ts), last, next)
      <==> !(LastBoundAt(bounds, ts) == Some(last) && !Separated(bounds, ts, next))
  {
    var last := LastBelow(rows, ts + 1).value.ts;
    LastBelowSpec(rows, ts + 1);
    var b := LastBoundAt(bounds, ts);
    if b.None? || b.value < last {
      assert last + 1 in CloseAt(rows, bounds, ts);
    } else if b.value > last {
      assert b.value in bounds && last < b.value <= next;
    } else {
      forall c | c in bounds && last < c <= next ensures ts < c {
        if c <= ts {
          LastBoundIsLargest(bounds, ts, c);
        }
      }
      if Separated(bounds, last, next) {
        var c :| c in bounds && last < c <= next;
        assert ts < c <= next;
      }
      if Separated(bounds, ts, next) {
        var c :| c in bounds && ts < c <= next;
        assert last < c <= next;
      }
    }
  }

  /** Closing never separates or joins rows other than across the close. */
  lemma CloseElsewhere(rows: seq<Row>, bounds: seq<int>, ts: int, a: int, b: int)
    requires Increasing(rows) && LastBelow(rows, ts + 1).Some?
    requires !(a <= LastBelow(rows, ts + 1).value.ts < b)
    ensures Separated(CloseAt(rows, bounds, ts), a, b) <==> Separated(bounds, a, b)
  {
    var after := CloseAt(rows, bounds, ts);
    if Separated(after, a, b) {
      var c :| c in after && a < c <= b;
      assert c in bounds;
    }
    if Separated(bounds, a, b) {
      var c :| c in bounds && a < c <= b;
      assert c in after;
    }
  }

  // ---- which rows share an interval --------------------------------------

  ghost predicate Together(segs: seq<seq<Row>>, a: Row, b: Row) {
    exists i :: 0 <= i < |segs| && a in segs[i] && b in segs[i]
  }

  lemma {:induction false} ConcatIn(segs: seq<seq<Row>>, k: nat, r: Row)
    requires k < |segs| && r in segs[k]
    ensures r in Concat(segs)
  {
    if k > 0 {
      ConcatIn(segs[1..], k - 1, r);
    }
  }

  /** The first row is in the first segment and no other. */
  lemma FirstInFirst(rows: seq<Row>, bounds: seq<int>)
    requires Increasing(rows) && rows != []
    ensures rows[0] in Split(rows, bounds)[0]
    ensures forall k :: 0 < k < |Split(rows, bounds)| ==> rows[0] !in Split(rows, bounds)[k]
  {
    var segs := Split(rows, bounds);
    SplitIsSplit(rows, bounds);
    var later := segs[1..];
    assert rows == segs[0] + Concat(later);
    assert segs[0] != [] && segs[0][0] == rows[0];
    forall n | 0 <= n < |Concat(later)| ensures Concat(later)[n] != rows[0] {
      assert Concat(later)[n] == rows[|segs[0]| + n];
    }
    forall k | 0 < k < |segs| ensures rows[0] !in segs[k] {
      assert segs[k] == later[k - 1];
      if rows[0] in later[k - 1] {
        ConcatIn(later, k - 1, rows[0]);
      }
    }
  }

  /** Two rows are reported in one interval exactly when no boundary lies
      after the first and at or before the second. */
  lemma {:induction false} TogetherIff(rows: seq<Row>, bounds: seq<int>, i: nat, j: nat)
    requires Increasing(rows) && i <= j < |rows|
    ensures Together(Split(rows, bounds), rows[i], rows[j]) <==> !Separated(bounds, rows[i].ts, rows[j].ts)
    decreases |rows|
  {
    if j == 0 {
      FirstInFirst(rows, bounds);
      assert rows[0] in Split(rows, bounds)[0];
    } else if i > 0 {
      TogetherIff(rows[1..], bounds, i - 1, j - 1);
      TogetherInTail(rows, bounds, i, j);
    } else {
      TogetherIff(rows[1..], bounds, 0, j - 1);
      TogetherWithFirst(rows, bounds, j);
    }
  }

  lemma TogetherWithFirst(rows: seq<Row>, bounds: seq<int>, j: nat)
    requires Increasing(rows) && 0 < j < |rows|
    requires Together(Split(rows[1..], bounds), rows[1], rows[j]) <==> !Separated(bounds, rows[1].ts, rows[j].ts)
    ensures Together(Split(rows, bounds), rows[0], rows[j]) <==> !Separated(bounds, rows[0].ts, rows[j].ts)
  {
    var segs: seq<seq<Row>> := Split(rows, bounds);
    var rest: seq<seq<Row>> := Split(rows[1..], bounds);
    FirstInFirst(rows, bounds);
    FirstInFirst(rows[1..], bounds);
    SeparatedChains(bounds, rows[0].ts, rows[1].ts, rows[j].ts);
    assert Together(segs, rows[0], rows[j]) <==> rows[j] in segs[0];
    if !Separated(bounds, rows[0].ts, rows[1].ts) {
      assert rows[j] in segs[0] <==> rows[j] in rest[0];
      assert rows[j] in rest[0] <==> Together(rest, rows[1], rows[j]);
    }
  }

  lemma SeparatedChains(bounds: seq<int>, a: int, b: int, c: int)
    requires a <= b <= c
    ensures Separated(bounds, a, c) <==> Separated(bounds, a, b) || Separated(bounds, b, c)
  {
    if Separated(bounds, a, b) {
      var x :| x in bounds && a < x <= b;
      assert a < x <= c;
    }
    if Separated(bounds, b, c) {
      var x :| x in bounds && b < x <= c;
      assert a < x <= c;
    }
  }

  lemma TogetherInTail(rows: seq<Row>, bounds: seq<int>, i: nat, j: nat)
    requires Increasing(rows) && 0 < i <= j < |rows|
    ensures Together(Split(rows, bounds), rows[i], rows[j]) <==> Together(Split(rows[1..], bounds), rows[i], rows[j])
  {
    var segs: seq<seq<Row>> := Split(rows, bounds);
    var rest: seq<seq<Row>> := Split(rows[1..], bounds);
    var cut := Separated(bounds, rows[0].ts, rows[1].ts);
    if Together(rest, rows[i], rows[j]) {
      var k :| 0 <= k < |rest| && rows[i] in rest[k] && rows[j] in rest[k];
      var m := if cut then k + 1 else k;
      assert rows[i] in segs[m] && rows[j] in segs[m];
    }
    if Together(segs, rows[i], rows[j]) {
      var m :| 0 <= m < |segs| && rows[i] in segs[m] && rows[j] in segs[m];
      assert rows[i] != rows[0] && rows[j] != rows[0];
      if cut {
        assert m > 0;
        assert rows[i] in rest[m - 1] && rows[j] in rest[m - 1];
      } else {
        assert rows[i] in rest[m] && rows[j] in rest[m];
      }
    }
  }
}
