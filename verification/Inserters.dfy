/** The task that writes a pipe's rows and breaks to the store. */
module Inserters {
  import opened Rows
  import opened Bounds
  import opened Store
  import opened Decimators

  // ---- specification -----------------------------------------------------

  /** What one read of the pipe returns: rows, whether all values in them are
      numbers, and whether an interval ended. */
  datatype Read = Read(data: seq<Row>, valid: bool, endOfInterval: bool)

  datatype State = State(rows: seq<Row>, bounds: seq<int>, firstInsert: bool, lastTs: Option<int>,
                         decimator: Option<Stage>)

  /** Two tables of rows without a common timestamp, as one. */
  function Mingle(a: seq<Row>, b: seq<Row>): seq<Row>
    decreases |a| + |b|
  {
    if a == [] then b
    else if b == [] then a
    else if a[0].ts <= b[0].ts then [a[0]] + Mingle(a[1..], b)
    else [b[0]] + Mingle(a, b[1..])
  }

  predicate HasTs(rows: seq<Row>, t: int) {
    exists r :: r in rows && r.ts == t
  }

  predicate Clash(rows: seq<Row>, data: seq<Row>) {
    exists i :: 0 <= i < |data| && HasTs(rows, data[i].ts)
  }

  /** The boundaries after the first insert's opening close, with breaks up to
      `gap` before the data removed again. */
  function Opened(rows: seq<Row>, bounds: seq<int>, t0: int, gap: int): seq<int> {
    var closed := CloseAt(rows, bounds, t0 - 1);
    if gap > 0 then Without(closed, c => t0 - gap <= c <= t0) else closed
  }

  function WithDecimator(s: State, decimate: bool): Option<Stage> {
    if decimate && s.decimator.None? then Some(NewStage(1)) else s.decimator
  }

  function Appended(s: State, data: seq<Row>): State {
    s.(rows := Mingle(s.rows, data),
       decimator := if s.decimator.None? then None else Some(Feed(s.decimator.value, data)))
  }

  /** Writing the rows of a read; false if it raises. */
  function Write(s: State, gap: int, decimate: bool, data: seq<Row>, valid: bool): (State, bool) {
    if data == [] then (s, true)
    else
      var s1 :=
        if s.firstInsert then s.(firstInsert := false, bounds := Opened(s.rows, s.bounds, data[0].ts, gap)) else s;
      if !Monotonic(data, s.lastTs) || !valid then (s1, false)
      else
        var s2 := s1.(lastTs := Some(data[|data| - 1].ts), decimator := WithDecimator(s1, decimate));
        if Clash(s.rows, data) then (s2, false) else (Appended(s2, data), true)
  }

  function EndInterval(s: State): State {
    if s.lastTs.None? then s
    else s.(bounds := CloseAt(s.rows, s.bounds, s.lastTs.value),
            decimator := if s.decimator.None? then None else Some(Close(s.decimator.value)))
  }

  function Step(s: State, gap: int, decimate: bool, r: Read): (State, bool) {
    var (s1, ok) := Write(s, gap, decimate, r.data, r.valid);
    if ok && r.endOfInterval then (EndInterval(s1), true) else (s1, ok)
  }

  function Life(s: State, gap: int, decimate: bool, input: seq<Read>): (State, bool)
    decreases |input|
  {
    if input == [] then (s, true)
    else
      var (s1, ok) := Step(s, gap, decimate, input[0]);
      if ok then Life(s1, gap, decimate, input[1..]) else (s1, false)
  }

  // ---- facts about writing -----------------------------------------------

  ghost predicate From(rows: seq<Row>, t: int) {
    forall i :: 0 <= i < |rows| ==> t < rows[i].ts
  }

  lemma {:induction false} MingleIn(a: seq<Row>, b: seq<Row>, r: Row)
    ensures r in Mingle(a, b) <==> r in a || r in b
    decreases |a| + |b|
  {
    if a != [] && b != [] {
      assert a == [a[0]] + a[1..] && b == [b[0]] + b[1..];
      if a[0].ts <= b[0].ts {
        MingleIn(a[1..], b, r);
      } else {
        MingleIn(a, b[1..], r);
      }
    }
  }

  lemma {:induction false} MingleIncreasing(a: seq<Row>, b: seq<Row>, t: int)
    requires Increasing(a) && Increasing(b) && From(a, t) && From(b, t) && !Clash(a, b)
    ensures Increasing(Mingle(a, b)) && From(Mingle(a, b), t)
    decreases |a| + |b|
  {
    if a != [] && b != [] {
      assert !HasTs(a, b[0].ts);
      assert a[0] in a;
      if a[0].ts <= b[0].ts {
        NoClashTail(a, b);
        MingleIncreasing(a[1..], b, a[0].ts);
      } else {
        forall i | 0 <= i < |b[1..]| ensures !HasTs(a, b[1..][i].ts) {
          assert b[1..][i] == b[i + 1];
        }
        MingleIncreasing(a, b[1..], b[0].ts);
      }
    }
  }

  lemma NoClashTail(a: seq<Row>, b: seq<Row>)
    requires a != [] && !Clash(a, b)
    ensures !Clash(a[1..], b)
  {
    forall i | 0 <= i < |b| ensures !HasTs(a[1..], b[i].ts) {
      assert !HasTs(a, b[i].ts);
      HasTsTail(a, b[i].ts);
    }
  }

  lemma HasTsTail(a: seq<Row>, t: int)
    requires a != []
    ensures HasTs(a[1..], t) ==> HasTs(a, t)
  {
    if r :| r in a[1..] && r.ts == t {
      assert r in a;
    }
  }

  lemma {:induction false} StrictIsIncreasing(data: seq<Row>)
    requires StrictlyIncreasing(data)
    ensures Increasing(data)
  {
    if |data| > 1 {
      var tail := data[1..];
      assert StrictlyIncreasing(tail) by {
        forall i | 0 <= i < |tail| - 1 ensures tail[i].ts < tail[i + 1].ts {
          assert data[i + 1].ts < data[i + 1 + 1].ts;
        }
      }
      StrictIsIncreasing(tail);
      assert data[0].ts < data[0 + 1].ts;
    }
  }

  lemma Floor(a: seq<Row>, b: seq<Row>) returns (t: int)
    requires Increasing(a) && Increasing(b)
    ensures From(a, t) && From(b, t)
  {
    var x := if a == [] then 0 else a[0].ts - 1;
    var y := if b == [] then 0 else b[0].ts - 1;
    t := if x < y then x else y;
  }

  lemma InsertKeepsOrder(rows: seq<Row>, data: seq<Row>)
    requires Increasing(rows) && StrictlyIncreasing(data) && !Clash(rows, data)
    ensures Increasing(Mingle(rows, data))
  {
    StrictIsIncreasing(data);
    var t := Floor(rows, data);
    MingleIncreasing(rows, data, t);
  }

  // ---- the inserter ------------------------------------------------------

  class Inserter {
    const store: StreamStore
    const decimate: bool
    const mergeGap: int
    var firstInsert: bool
    var lastTs: Option<int>
    var decimator: Decimator?

    ghost function DecimatorRepr(): set<Decimator>
      reads this, decimator
    {
      if decimator == null then {} else decimator.Repr
    }

    ghost predicate Valid()
      reads this, store, decimator, DecimatorRepr()
    {
      store.Valid() && (decimator != null ==> decimator.Valid())
    }

    ghost function Model(): State
      requires Valid()
      reads this, store, decimator, DecimatorRepr()
    {
      State(store.rows, store.bounds, firstInsert, lastTs, if decimator == null then None else Some(decimator.Model()))
    }

    constructor (store: StreamStore, decimate: bool, mergeGap: int)
      requires store.Valid()
      ensures Valid() && this.store == store && this.decimate == decimate && this.mergeGap == mergeGap
      ensures Model() == State(store.rows, store.bounds, true, None, None)
      ensures fresh(DecimatorRepr())
    {
      this.store := store;
      this.decimate := decimate;
      this.mergeGap := mergeGap;
      firstInsert := true;
      lastTs := None;
      decimator := null;
    }

    /** Write the rows of one read; false if the data is refused. */
    method WriteRows(data: seq<Row>, valid: bool) returns (ok: bool)
      requires Valid()
      modifies this, store, DecimatorRepr()
      ensures Valid() && fresh(DecimatorRepr() - old(DecimatorRepr()))
      ensures (Model(), ok) == Write(old(Model()), mergeGap, decimate, data, valid)
    {
      if |data| == 0 {
        return true;
      }
      if firstInsert {
        Open(data[0].ts);
      }
      if !Monotonic(data, lastTs) || !valid {
        return false;
      }
      Prepare(data[|data| - 1].ts);
      if Clash(store.rows, data) {
        return false;
      }
      Append(data);
      return true;
    }

    method Open(t0: int)
      requires Valid()
      modifies this`firstInsert, store`bounds
      ensures Valid()
      ensures Model()
          == old(Model()).(firstInsert := false, bounds := Opened(store.rows, old(store.bounds), t0, mergeGap))
    {
      firstInsert := false;
      OpenStore(t0);
    }

    method OpenStore(t0: int)
      requires store.Valid()
      modifies store`bounds
      ensures store.Valid() && store.bounds == Opened(store.rows, old(store.bounds), t0, mergeGap)
    {
      store.CloseInterval(t0 - 1);
      if mergeGap > 0 {
        store.RemoveIntervalBreaks(t0 - mergeGap, t0);
        assert store.bounds == Opened(store.rows, old(store.bounds), t0, mergeGap);
      }
    }

    method Prepare(last: int)
      requires Valid()
      modifies this`lastTs, this`decimator
      ensures Valid() && fresh(DecimatorRepr() - old(DecimatorRepr()))
      ensures Model() == old(Model()).(lastTs := Some(last), decimator := WithDecimator(old(Model()), decimate))
    {
      lastTs := Some(last);
      if decimate && decimator == null {
        decimator := new Decimator(1);
      }
    }

    method Append(data: seq<Row>)
      requires Valid() && StrictlyIncreasing(data) && !Clash(store.rows, data)
      modifies store`rows, DecimatorRepr()
      ensures Valid() && fresh(DecimatorRepr() - old(DecimatorRepr()))
      ensures Model() == Appended(old(Model()), data)
    {
      InsertKeepsOrder(store.rows, data);
      store.rows := Mingle(store.rows, data);
      if decimator != null {
        decimator.Process(data);
      }
    }

    method Close()
      requires Valid() && lastTs.Some?
      modifies store`bounds, DecimatorRepr()
      ensures Valid() && DecimatorRepr() == old(DecimatorRepr())
      ensures Model() == EndInterval(old(Model()))
    {
      store.CloseInterval(lastTs.value);
      if decimator != null {
        decimator.CloseInterval();
      }
    }

    /** Handle one read of the pipe. */
    method HandleRead(read: Read) returns (ok: bool)
      requires Valid()
      modifies this, store, DecimatorRepr()
      ensures Valid() && fresh(DecimatorRepr() - old(DecimatorRepr()))
      ensures (Model(), ok) == Step(old(Model()), mergeGap, decimate, read)
    {
      ok := WriteRows(read.data, read.valid);
      if ok && read.endOfInterval && lastTs != None {
        Close();
      }
    }

    /** Insert until the pipe is empty or the data is refused. */
    method Run(input: seq<Read>) returns (ok: bool)
      requires Valid()
      modifies this, store, DecimatorRepr()
      ensures Valid() && fresh(DecimatorRepr() - old(DecimatorRepr()))
      ensures (Model(), ok) == Life(old(Model()), mergeGap, decimate, input)
    {
      var n := 0;
      ok := true;
      while n < |input|
        invariant n <= |input| && ok
        invariant Valid() && fresh(DecimatorRepr() - old(DecimatorRepr()))
        invariant Life(Model(), mergeGap, decimate, input[n..]) == Life(old(Model()), mergeGap, decimate, input)
      {
        ok := HandleRead(input[n]);
        if !ok {
          return;
        }
        n := n + 1;
      }
    }
  }
}
