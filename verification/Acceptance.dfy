/** Which reads an inserter takes, what it has stored after them, and what a
    refused read leaves behind. */
module Acceptance {
  import opened Rows
  import opened Segments
  import opened Bounds
  import opened StoreReports
  import opened Inserters
  import opened Lives

  /** The rows of all reads, in order. */
  function AllRows(input: seq<Read>): seq<Row> {
    if input == [] then [] else input[0].data + AllRows(input[1..])
  }

  /** All values are numbers, in every read that has rows. */
  predicate AllValid(input: seq<Read>) {
    forall i :: 0 <= i < |input| && input[i].data != [] ==> input[i].valid
  }

  /** Rows that rise strictly, from t on if there is one. */
  ghost predicate Rise(rows: seq<Row>, t: Option<int>) {
    && (forall i, j :: 0 <= i < j < |rows| ==> rows[i].ts < rows[j].ts)
    && (t.Some? ==> forall i :: 0 <= i < |rows| ==> t.value < rows[i].ts)
  }

  /** No row has the time of a stored one. */
  ghost predicate NewTimes(stored: seq<Row>, rows: seq<Row>) {
    forall i, j :: 0 <= i < |stored| && 0 <= j < |rows| ==> stored[i].ts != rows[j].ts
  }

  // ---- one read ----------------------------------------------------------

  lemma {:induction false} RisesStrictly(rows: seq<Row>)
    ensures StrictlyIncreasing(rows) <==> forall i, j :: 0 <= i < j < |rows| ==> rows[i].ts < rows[j].ts
  {
    if StrictlyIncreasing(rows) {
      StrictIsIncreasing(rows);
    }
  }

  lemma MonotonicRises(rows: seq<Row>, t: Option<int>)
    ensures Monotonic(rows, t) <==> Rise(rows, t)
  {
    RisesStrictly(rows);
    if StrictlyIncreasing(rows) && rows != [] {
      StrictIsIncreasing(rows);
      assert forall i :: 0 < i < |rows| ==> rows[0].ts < rows[i].ts;
    }
  }

  lemma NoClash(stored: seq<Row>, rows: seq<Row>)
    ensures !Clash(stored, rows) <==> NewTimes(stored, rows)
  {
    if NewTimes(stored, rows) {
      forall j | 0 <= j < |rows| ensures !HasTs(stored, rows[j].ts) {
      }
    }
    if !Clash(stored, rows) {
      forall i, j | 0 <= i < |stored| && 0 <= j < |rows| ensures stored[i].ts != rows[j].ts {
        assert !HasTs(stored, rows[j].ts) && stored[i] in stored;
      }
    }
  }

  /** A read with rows is taken exactly if its values are numbers, its rows rise
      from the last one on, and none has the time of a stored row. */
  lemma ReadTakenIff(s: State, gap: int, decimate: bool, r: Read)
    ensures Step(s, gap, decimate, r).1
        <==> r.data == [] || (r.valid && Rise(r.data, s.lastTs) && NewTimes(s.rows, r.data))
  {
    MonotonicRises(r.data, s.lastTs);
    NoClash(s.rows, r.data);
  }

  /** A refused read leaves the rows and the decimator's tables as they were, and
      unless it was the first with rows the boundaries too. */
  lemma RefusedKeeps(s: State, gap: int, decimate: bool, r: Read)
    requires !Step(s, gap, decimate, r).1
    ensures var s1 := Step(s, gap, decimate, r).0;
      s1.rows == s.rows && StageOf(s1) == StageOf(s) && (!s.firstInsert ==> s1.bounds == s.bounds)
  {
  }

  /** A read that is taken adds exactly its rows. */
  lemma TakenAdds(s: State, gap: int, decimate: bool, r: Read)
    requires Step(s, gap, decimate, r).1
    ensures var s1 := Step(s, gap, decimate, r).0;
      && (forall x :: x in s1.rows <==> x in s.rows || x in r.data)
      && s1.lastTs == (if r.data == [] then s.lastTs else Some(r.data[|r.data| - 1].ts))
      && (Increasing(s.rows) ==> Increasing(s1.rows))
  {
    forall x ensures x in Mingle(s.rows, r.data) <==> x in s.rows || x in r.data {
      MingleIn(s.rows, r.data, x);
    }
    if Increasing(s.rows) && r.data != [] {
      InsertKeepsOrder(s.rows, r.data);
    }
  }

  /** The decimator is there exactly once rows were to be decimated. */
  lemma DecimatorIff(s: State, gap: int, decimate: bool, r: Read)
    requires Step(s, gap, decimate, r).1
    ensures Step(s, gap, decimate, r).0.decimator.Some? <==> s.decimator.Some? || (decimate && r.data != [])
  {
  }

  // ---- a life ------------------------------------------------------------

  /** What makes an inserter take all its reads. */
  ghost predicate Acceptable(s: State, input: seq<Read>) {
    AllValid(input) && Rise(AllRows(input), s.lastTs) && NewTimes(s.rows, AllRows(input))
  }

  lemma {:induction false} RiseAppend(a: seq<Row>, b: seq<Row>, t: Option<int>)
    ensures Rise(a + b, t)
        <==> Rise(a, t) && Rise(b, if a == [] then t else Some(a[|a| - 1].ts))
  {
    var all := a + b;
    if Rise(all, t) {
      forall i | 0 <= i < |a| ensures a[i] == all[i] {
      }
      forall j | 0 <= j < |b| ensures b[j] == all[|a| + j] {
      }
      if a != [] {
        assert a[|a| - 1] == all[|a| - 1];
      }
    }
    if Rise(a, t) && Rise(b, if a == [] then t else Some(a[|a| - 1].ts)) {
      forall i, j | 0 <= i < j < |all| ensures all[i].ts < all[j].ts {
        if i < |a| <= j {
          assert a[i].ts <= a[|a| - 1].ts < b[j - |a|].ts;
        }
      }
      if t.Some? {
        forall i | 0 <= i < |all| ensures t.value < all[i].ts {
          if i >= |a| && a != [] {
            assert t.value < a[|a| - 1].ts < b[i - |a|].ts;
          }
        }
      }
    }
  }

  lemma NewTimesAppend(stored: seq<Row>, a: seq<Row>, b: seq<Row>, t: Option<int>, more: seq<Row>)
    requires Rise(a + b, t) && forall x :: x in more <==> x in stored || x in a
    ensures NewTimes(stored, a + b) <==> NewTimes(stored, a) && NewTimes(more, b)
  {
    var all := a + b;
    if NewTimes(stored, all) {
      forall i, j | 0 <= i < |stored| && 0 <= j < |a| ensures stored[i].ts != a[j].ts {
        assert a[j] == all[j];
      }
      forall i, j | 0 <= i < |more| && 0 <= j < |b| ensures more[i].ts != b[j].ts {
        assert b[j] == all[|a| + j] && more[i] in more;
        if more[i] in a {
          var k :| 0 <= k < |a| && a[k] == more[i];
          assert all[k].ts < all[|a| + j].ts;
        }
      }
    }
    if NewTimes(stored, a) && NewTimes(more, b) {
      forall i, j | 0 <= i < |stored| && 0 <= j < |all| ensures stored[i].ts != all[j].ts {
        assert stored[i] in more;
      }
    }
  }

  lemma AllValidFirst(input: seq<Read>)
    requires input != []
    ensures AllValid(input) <==> (input[0].data != [] ==> input[0].valid) && AllValid(input[1..])
  {
    if (input[0].data != [] ==> input[0].valid) && AllValid(input[1..]) {
      forall i | 0 <= i < |input| && input[i].data != [] ensures input[i].valid {
        assert i > 0 ==> input[i] == input[1..][i - 1];
      }
    }
  }

  lemma AcceptableFirst(s: State, gap: int, decimate: bool, input: seq<Read>)
    requires input != []
    ensures Acceptable(s, input)
        <==> Step(s, gap, decimate, input[0]).1 && Acceptable(Step(s, gap, decimate, input[0]).0, input[1..])
  {
    var r, rest := input[0], AllRows(input[1..]);
    ReadTakenIff(s, gap, decimate, r);
    AllValidFirst(input);
    RiseAppend(r.data, rest, s.lastTs);
    if Step(s, gap, decimate, r).1 {
      TakenAdds(s, gap, decimate, r);
      if Rise(r.data + rest, s.lastTs) {
        NewTimesAppend(s.rows, r.data, rest, s.lastTs, Step(s, gap, decimate, r).0.rows);
      }
    } else {
      NewTimesPart(s.rows, r.data, rest);
    }
  }

  lemma NewTimesPart(stored: seq<Row>, a: seq<Row>, b: seq<Row>)
    ensures NewTimes(stored, a + b) ==> NewTimes(stored, a)
  {
    assert forall j :: 0 <= j < |a| ==> a[j] == (a + b)[j];
  }

  /** An inserter ends without an error if and only if the values of all its
      rows are numbers, the rows of all reads rise strictly, and none has the
      time of a row that was stored before. */
  lemma {:induction false} LifeAcceptedIff(s: State, gap: int, decimate: bool, input: seq<Read>)
    ensures Life(s, gap, decimate, input).1 <==> Acceptable(s, input)
    decreases |input|
  {
    if input == [] {
    } else {
      AcceptableFirst(s, gap, decimate, input);
      LifeAcceptedIff(Step(s, gap, decimate, input[0]).0, gap, decimate, input[1..]);
    }
  }

  lemma AllRowsFirst(input: seq<Read>, n: nat)
    requires 0 < n <= |input|
    ensures AllRows(input[..n]) == input[0].data + AllRows(input[1..][..n - 1])
  {
    assert input[..n][1..] == input[1..][..n - 1];
  }

  /** For every life: it takes the first n reads, all of them or those before
      the one refused; what is stored then are the rows there were and exactly
      those of these reads, in order of time. */
  lemma {:induction false} LifeStores(s: State, gap: int, decimate: bool, input: seq<Read>) returns (n: nat)
    requires Increasing(s.rows)
    ensures n <= |input| && Acceptable(s, input[..n])
    ensures Life(s, gap, decimate, input).1 <==> n == |input|
    ensures n < |input| ==> !Acceptable(s, input[..n + 1])
    ensures var rows := Life(s, gap, decimate, input).0.rows;
      Increasing(rows) && forall x :: x in rows <==> x in s.rows || x in AllRows(input[..n])
    decreases |input|
  {
    if input == [] {
      n := 0;
    } else {
      var (s1, ok) := Step(s, gap, decimate, input[0]);
      if ok {
        TakenAdds(s, gap, decimate, input[0]);
        n := LifeStores(s1, gap, decimate, input[1..]);
        AcceptableOn(s, gap, decimate, input, n);
        AllRowsFirst(input, n + 1);
        n := n + 1;
      } else {
        RefusedKeeps(s, gap, decimate, input[0]);
        AcceptablePrefix(s, gap, decimate, input, 1);
        n := 0;
      }
    }
  }

  lemma AcceptableOn(s: State, gap: int, decimate: bool, input: seq<Read>, n: nat)
    requires n < |input| && Step(s, gap, decimate, input[0]).1
    ensures var s1 := Step(s, gap, decimate, input[0]).0;
      && (Acceptable(s, input[..n + 1]) <==> Acceptable(s1, input[1..][..n]))
      && (n + 1 < |input| ==> (Acceptable(s, input[..n + 2]) <==> Acceptable(s1, input[1..][..n + 1])))
  {
    AcceptablePrefix(s, gap, decimate, input, n + 1);
    if n + 1 < |input| {
      AcceptablePrefix(s, gap, decimate, input, n + 2);
    }
  }

  lemma AcceptablePrefix(s: State, gap: int, decimate: bool, input: seq<Read>, n: nat)
    requires 0 < n <= |input|
    ensures Acceptable(s, input[..n])
        <==> Step(s, gap, decimate, input[0]).1 && Acceptable(Step(s, gap, decimate, input[0]).0, input[1..][..n - 1])
  {
    AcceptableFirst(s, gap, decimate, input[..n]);
    assert input[..n][1..] == input[1..][..n - 1] && input[..n][0] == input[0];
  }

  /** A stream that is not decimated never gets a decimator; another has one
      from its first rows on. */
  lemma {:induction false} LifeDecimates(s: State, gap: int, decimate: bool, input: seq<Read>)
    requires Life(s, gap, decimate, input).1
    ensures Life(s, gap, decimate, input).0.decimator.Some?
        <==> s.decimator.Some? || (decimate && AllRows(input) != [])
    decreases |input|
  {
    if input != [] {
      DecimatorIff(s, gap, decimate, input[0]);
      LifeDecimates(Step(s, gap, decimate, input[0]).0, gap, decimate, input[1..]);
    }
  }

  /** So it is for a life that ends in an error. */
  lemma {:induction false} NeverDecimates(s: State, gap: int, input: seq<Read>)
    requires s.decimator.None?
    ensures Life(s, gap, false, input).0.decimator.None?
    decreases |input|
  {
    if input != [] {
      NeverDecimates(Step(s, gap, false, input[0]).0, gap, input[1..]);
    }
  }

  // ---- the first insert --------------------------------------------------

  /** A first insert closes just before its first row and, with a merge gap,
      deletes the boundaries of that gap. */
  lemma OpeningIsRight(rows: seq<Row>, bounds: seq<int>, t0: int, gap: int, c: int)
    requires Increasing(rows) && NonDecreasing(bounds)
    ensures multiset(Opened(rows, bounds, t0, gap))[c]
         == if gap > 0 && t0 - gap <= c <= t0 then 0
            else multiset(bounds)[c] + (if ClosesAt(rows, bounds, t0 - 1, c) then 1 else 0)
  {
    CloseIsRight(rows, bounds, t0 - 1, c);
    WithoutCounts(CloseAt(rows, bounds, t0 - 1), c => t0 - gap <= c <= t0, c);
  }
}
