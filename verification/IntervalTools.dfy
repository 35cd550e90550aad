/** Set operations on lists of half-open time intervals, by one sweep over
    the merged endpoints of the two lists. */
module IntervalTools {
  import opened Rows

  type Interval = (int, int)

  /** An endpoint: 0 and 2 open and close a source interval, 1 and 3 a
      destination interval. */
  datatype Event = Event(ts: int, key: nat)

  function Decorate(list: seq<Interval>, keyStart: nat, keyEnd: nat): (d: seq<Event>)
    ensures |d| == 2 * |list|
  {
    seq(2 * |list|, k requires 0 <= k < 2 * |list| =>
      if k % 2 == 0 then Event(list[k / 2].0, keyStart) else Event(list[k / 2].1, keyEnd))
  }

  predicate Leq(a: Event, b: Event) {
    a.ts < b.ts || (a.ts == b.ts && a.key <= b.key)
  }

  /** Two streams merged by always taking the smaller head. */
  function Merge(a: seq<Event>, b: seq<Event>): seq<Event> {
    if a == [] then b
    else if b == [] then a
    else if Leq(a[0], b[0]) then [a[0]] + Merge(a[1..], b)
    else [b[0]] + Merge(a, b[1..])
  }

  lemma Regroup(m: seq<Event>, rest: seq<Event>)
    requires rest != []
    ensures m + rest == (m + [rest[0]]) + rest[1..]
  {
  }

  method Imerge(a: seq<Event>, b: seq<Event>) returns (m: seq<Event>)
    ensures m == Merge(a, b)
  {
    m := [];
    var i, j := 0, 0;
    ghost var restA, restB, rest := a, b, Merge(a, b);
    while i < |a| || j < |b|
      invariant i <= |a| && j <= |b|
      invariant restA == a[i..] && restB == b[j..] && rest == Merge(restA, restB)
      invariant m + rest == Merge(a, b)
      decreases |a| - i + |b| - j
    {
      Regroup(m, rest);
      if j == |b| || (i < |a| && Leq(a[i], b[j])) {
        m := m + [a[i]];
        i := i + 1;
        restA := restA[1..];
      } else {
        m := m + [b[j]];
        j := j + 1;
        restB := restB[1..];
      }
      rest := rest[1..];
    }
  }

  type Op = (bool, bool) -> bool

  const DIFFERENCE: Op := (inSrc, inDest) => inSrc && !inDest
  const INTERSECTION: Op := (inSrc, inDest) => inSrc && inDest

  datatype Sweep = Sweep(inSrc: bool, inDest: bool, outStart: Option<int>, result: seq<Interval>)

  function Step(op: Op, s: Sweep, e: Event): Sweep {
    var inSrc := if e.key == 0 then true else if e.key == 2 then false else s.inSrc;
    var inDest := if e.key == 1 then true else if e.key == 3 then false else s.inDest;
    if op(inSrc, inDest) then
      Sweep(inSrc, inDest, if s.outStart.None? then Some(e.ts) else s.outStart, s.result)
    else
      Sweep(inSrc, inDest, None,
            if s.outStart.Some? && s.outStart.value != e.ts then s.result + [(s.outStart.value, e.ts)] else s.result)
  }

  function RunFrom(op: Op, s: Sweep, events: seq<Event>): Sweep
    decreases |events|
  {
    if events == [] then s else RunFrom(op, Step(op, s, events[0]), events[1..])
  }

  function Math(src: seq<Interval>, dest: seq<Interval>, op: Op): seq<Interval> {
    RunFrom(op, Sweep(false, false, None, []), Merge(Decorate(src, 0, 2), Decorate(dest, 1, 3))).result
  }

  method IntervalMathHelper(src: seq<Interval>, dest: seq<Interval>, op: Op) returns (result: seq<Interval>)
    ensures result == Math(src, dest, op)
  {
    result := [];
    var inSrc, inDest := false, false;
    var outStart: Option<int> := None;
    var events := Imerge(Decorate(src, 0, 2), Decorate(dest, 1, 3));
    for n := 0 to |events|
      invariant RunFrom(op, Sweep(inSrc, inDest, outStart, result), events[n..]).result == Math(src, dest, op)
    {
      var e := events[n];
      ghost var before := Sweep(inSrc, inDest, outStart, result);
      assert events[n..][1..] == events[n + 1..];
      if e.key == 0 {
        inSrc := true;
      } else if e.key == 1 {
        inDest := true;
      } else if e.key == 2 {
        inSrc := false;
      } else if e.key == 3 {
        inDest := false;
      }
      var included := op(inSrc, inDest);
      if included && outStart == None {
        outStart := Some(e.ts);
      } else if !included {
        if outStart.Some? && outStart.value != e.ts {
          result := result + [(outStart.value, e.ts)];
        }
        outStart := None;
      }
      assert Sweep(inSrc, inDest, outStart, result) == Step(op, before, e);
    }
  }

  method IntervalDifference(src: seq<Interval>, dest: seq<Interval>) returns (result: seq<Interval>)
    ensures result == Math(src, dest, DIFFERENCE)
    ensures Chain(src) && Chain(dest) ==>
      NonEmptyChain(result) && forall t :: In(result, t) <==> In(src, t) && !In(dest, t)
  {
    if Chain(src) && Chain(dest) {
      MathExact(src, dest, DIFFERENCE);
    }
    result := IntervalMathHelper(src, dest, DIFFERENCE);
  }

  method IntervalIntersection(src: seq<Interval>, dest: seq<Interval>) returns (result: seq<Interval>)
    ensures result == Math(src, dest, INTERSECTION)
    ensures Chain(src) && Chain(dest) ==>
      NonEmptyChain(result) && forall t :: In(result, t) <==> In(src, t) && In(dest, t)
  {
    if Chain(src) && Chain(dest) {
      MathExact(src, dest, INTERSECTION);
    }
    result := IntervalMathHelper(src, dest, INTERSECTION);
  }

  // ---- merging -----------------------------------------------------------

  ghost predicate InOrder(events: seq<Event>) {
    forall i, j :: 0 <= i < j < |events| ==> events[i].ts <= events[j].ts
  }

  /** The events of one of the two lists: even keys are the source's. */
  function Project(events: seq<Event>, parity: nat): seq<Event> {
    if events == [] then []
    else (if events[0].key % 2 == parity then [events[0]] else []) + Project(events[1..], parity)
  }

  ghost predicate OnlyParity(events: seq<Event>, parity: nat) {
    forall i :: 0 <= i < |events| ==> events[i].key % 2 == parity
  }

  lemma {:induction false} ProjectAll(events: seq<Event>, parity: nat)
    requires OnlyParity(events, parity)
    ensures Project(events, parity) == events
    ensures forall p :: p != parity ==> Project(events, p) == []
  {
    if events != [] {
      ProjectAll(events[1..], parity);
    }
  }

  lemma {:induction false} MergeContents(a: seq<Event>, b: seq<Event>)
    ensures multiset(Merge(a, b)) == multiset(a) + multiset(b)
    decreases |a| + |b|
  {
    if a != [] && b != [] {
      assert a == [a[0]] + a[1..] && b == [b[0]] + b[1..];
      if Leq(a[0], b[0]) {
        MergeContents(a[1..], b);
      } else {
        MergeContents(a, b[1..]);
      }
    }
  }

  /** Each list keeps its own order in the merge. */
  lemma {:induction false} MergeProjects(a: seq<Event>, b: seq<Event>)
    requires OnlyParity(a, 0) && OnlyParity(b, 1)
    ensures Project(Merge(a, b), 0) == a && Project(Merge(a, b), 1) == b
    decreases |a| + |b|
  {
    if a == [] {
      ProjectAll(b, 1);
    } else if b == [] {
      ProjectAll(a, 0);
    } else if Leq(a[0], b[0]) {
      MergeProjects(a[1..], b);
      assert Merge(a, b)[1..] == Merge(a[1..], b);
    } else {
      MergeProjects(a, b[1..]);
      assert Merge(a, b)[1..] == Merge(a, b[1..]);
    }
  }

  ghost predicate NotBefore(events: seq<Event>, t: int) {
    forall i :: 0 <= i < |events| ==> t <= events[i].ts
  }

  lemma {:induction false} MergeInOrder(a: seq<Event>, b: seq<Event>, t: int)
    requires InOrder(a) && InOrder(b) && NotBefore(a, t) && NotBefore(b, t)
    ensures InOrder(Merge(a, b)) && NotBefore(Merge(a, b), t)
    decreases |a| + |b|
  {
    if a != [] && b != [] {
      if Leq(a[0], b[0]) {
        MergeInOrder(a[1..], b, a[0].ts);
      } else {
        MergeInOrder(a, b[1..], b[0].ts);
      }
    }
  }

  // ---- exactness ---------------------------------------------------------

  /** Sorted and non-overlapping; neighbours may touch and may be empty. */
  ghost predicate Chain(list: seq<Interval>) {
    && (forall i :: 0 <= i < |list| ==> list[i].0 <= list[i].1)
    && (forall i, j :: 0 <= i < j < |list| ==> list[i].1 <= list[j].0)
  }

  ghost predicate NonEmptyChain(list: seq<Interval>) {
    Chain(list) && forall i :: 0 <= i < |list| ==> list[i].0 < list[i].1
  }

  predicate In(list: seq<Interval>, t: int) {
    exists i :: 0 <= i < |list| && list[i].0 <= t < list[i].1
  }

  lemma DecorateAt(list: seq<Interval>, keyStart: nat, keyEnd: nat, i: nat)
    requires i < |list|
    ensures Decorate(list, keyStart, keyEnd)[2 * i] == Event(list[i].0, keyStart)
    ensures Decorate(list, keyStart, keyEnd)[2 * i + 1] == Event(list[i].1, keyEnd)
  {
    assert (2 * i) / 2 == i && (2 * i + 1) / 2 == i;
  }

  lemma DecorateInOrder(list: seq<Interval>, keyStart: nat, keyEnd: nat)
    requires Chain(list)
    ensures InOrder(Decorate(list, keyStart, keyEnd))
  {
    var d := Decorate(list, keyStart, keyEnd);
    forall i, j | 0 <= i < j < |d| ensures d[i].ts <= d[j].ts {
      assert d[i].ts <= list[i / 2].1 && list[j / 2].0 <= d[j].ts;
    }
  }

  /** A point between two consecutive endpoints of a chain is inside the chain
      exactly when an odd number of endpoints lie at or before it. */
  lemma InByParity(list: seq<Interval>, keyStart: nat, keyEnd: nat, n: nat, t: int)
    requires Chain(list) && n <= 2 * |list|
    requires n > 0 ==> Decorate(list, keyStart, keyEnd)[n - 1].ts <= t
    requires n < 2 * |list| ==> t < Decorate(list, keyStart, keyEnd)[n].ts
    ensures In(list, t) <==> n % 2 == 1
  {
    var d := Decorate(list, keyStart, keyEnd);
    DecorateInOrder(list, keyStart, keyEnd);
    var h := n / 2;
    if n % 2 == 1 {
      DecorateAt(list, keyStart, keyEnd, h);
    } else {
      forall i | 0 <= i < |list| ensures !(list[i].0 <= t < list[i].1) {
        DecorateAt(list, keyStart, keyEnd, i);
        if i < h {
          assert d[2 * i + 1].ts <= d[n - 1].ts;
        } else {
          assert d[n].ts <= d[2 * i].ts;
        }
      }
    }
  }

  /** A point is covered by the output so far, or by the output still open. */
  ghost predicate Covered(s: Sweep, t: int) {
    In(s.result, t) || (s.outStart.Some? && s.outStart.value <= t)
  }

  ghost predicate ExactBefore(op: Op, src: seq<Interval>, dest: seq<Interval>, s: Sweep, now: int) {
    forall t :: t < now ==> (Covered(s, t) <==> op(In(src, t), In(dest, t)))
  }

  /** The output so far is sorted, disjoint and non-empty, and what is open
      starts after it. */
  ghost predicate OutputOk(s: Sweep, now: int) {
    && NonEmptyChain(s.result)
    && (s.outStart.Some? ==> s.outStart.value <= now)
    && (forall k :: 0 <= k < |s.result| ==> s.result[k].1 <= if s.outStart.Some? then s.outStart.value else now)
  }

  /** The first n endpoints of a list are at or before `now`. */
  ghost predicate Used(list: seq<Interval>, keyStart: nat, keyEnd: nat, inside: bool, n: nat, now: int) {
    && n <= 2 * |list|
    && (inside <==> n % 2 == 1)
    && (n > 0 ==> Decorate(list, keyStart, keyEnd)[n - 1].ts <= now)
  }

  /** The sweep has used i source and j destination endpoints, all at or
      before `now`, and its output is exact up to `now`. */
  ghost predicate Exact(op: Op, src: seq<Interval>, dest: seq<Interval>, s: Sweep, i: nat, j: nat, now: int) {
    && Used(src, 0, 2, s.inSrc, i, now)
    && Used(dest, 1, 3, s.inDest, j, now)
    && (s.outStart.Some? <==> op(s.inSrc, s.inDest))
    && OutputOk(s, now)
    && ExactBefore(op, src, dest, s, now)
  }

  /** No endpoint of the list lies strictly between `now` and `t`. */
  lemma UsedUpTo(list: seq<Interval>, keyStart: nat, keyEnd: nat, inside: bool, n: nat, now: int, t: int)
    requires Chain(list) && Used(list, keyStart, keyEnd, inside, n, now) && now <= t
    requires n < 2 * |list| ==> t < Decorate(list, keyStart, keyEnd)[n].ts
    ensures In(list, t) <==> inside
  {
    InByParity(list, keyStart, keyEnd, n, t);
  }

  lemma InAppend(list: seq<Interval>, x: Interval, t: int)
    ensures In(list + [x], t) <==> In(list, t) || x.0 <= t < x.1
  {
    if In(list, t) {
      var i :| 0 <= i < |list| && list[i].0 <= t < list[i].1;
      assert (list + [x])[i] == list[i];
    }
    if x.0 <= t < x.1 {
      assert (list + [x])[|list|] == x;
    }
  }

  lemma StepCovers(op: Op, s: Sweep, e: Event, t: int)
    requires s.outStart.Some? ==> s.outStart.value <= e.ts
    requires t < e.ts
    ensures Covered(Step(op, s, e), t) <==> Covered(s, t)
  {
    if s.outStart.Some? {
      InAppend(s.result, (s.outStart.value, e.ts), t);
    }
  }

  lemma StepExactBefore(op: Op, src: seq<Interval>, dest: seq<Interval>, s: Sweep, i: nat, j: nat, now: int, e: Event)
    requires Chain(src) && Chain(dest)
    requires Exact(op, src, dest, s, i, j, now) && now <= e.ts
    requires i < 2 * |src| ==> e.ts <= Decorate(src, 0, 2)[i].ts
    requires j < 2 * |dest| ==> e.ts <= Decorate(dest, 1, 3)[j].ts
    ensures ExactBefore(op, src, dest, Step(op, s, e), e.ts)
  {
    forall t | t < e.ts ensures Covered(Step(op, s, e), t) <==> op(In(src, t), In(dest, t)) {
      StepCovers(op, s, e, t);
      if now <= t {
        UsedUpTo(src, 0, 2, s.inSrc, i, now, t);
        UsedUpTo(dest, 1, 3, s.inDest, j, now, t);
        if s.outStart.None? {
          assert !In(s.result, t);
        }
      }
    }
  }

  lemma StepOutputOk(op: Op, s: Sweep, now: int, e: Event)
    requires OutputOk(s, now) && now <= e.ts
    ensures OutputOk(Step(op, s, e), e.ts)
  {
  }

  /** One step of the sweep on the next source endpoint. */
  lemma StepSource(op: Op, src: seq<Interval>, dest: seq<Interval>, s: Sweep, i: nat, j: nat, now: int, e: Event)
    requires Chain(src) && Chain(dest)
    requires Exact(op, src, dest, s, i, j, now) && now <= e.ts
    requires i < 2 * |src| && e == Decorate(src, 0, 2)[i]
    requires j < 2 * |dest| ==> e.ts <= Decorate(dest, 1, 3)[j].ts
    ensures Exact(op, src, dest, Step(op, s, e), i + 1, j, e.ts)
  {
    StepExactBefore(op, src, dest, s, i, j, now, e);
    StepOutputOk(op, s, now, e);
    DecorateKey(src, 0, 2, i);
  }

  /** One step of the sweep on the next destination endpoint. */
  lemma StepDest(op: Op, src: seq<Interval>, dest: seq<Interval>, s: Sweep, i: nat, j: nat, now: int, e: Event)
    requires Chain(src) && Chain(dest)
    requires Exact(op, src, dest, s, i, j, now) && now <= e.ts
    requires j < 2 * |dest| && e == Decorate(dest, 1, 3)[j]
    requires i < 2 * |src| ==> e.ts <= Decorate(src, 0, 2)[i].ts
    ensures Exact(op, src, dest, Step(op, s, e), i, j + 1, e.ts)
  {
    StepExactBefore(op, src, dest, s, i, j, now, e);
    StepOutputOk(op, s, now, e);
    DecorateKey(dest, 1, 3, j);
  }

  lemma DecorateKey(list: seq<Interval>, keyStart: nat, keyEnd: nat, n: nat)
    requires n < 2 * |list|
    ensures Decorate(list, keyStart, keyEnd)[n].key == if n % 2 == 0 then keyStart else keyEnd
  {
    assert n == 2 * (n / 2) + n % 2;
  }

  lemma {:induction false} ProjectIn(events: seq<Event>, parity: nat)
    requires Project(events, parity) != []
    ensures Project(events, parity)[0] in events
  {
    if events[0].key % 2 != parity {
      ProjectIn(events[1..], parity);
    }
  }

  /** Taking the first of the merged events advances its own list only, and no
      head of either list is earlier. */
  lemma ProjectStep(rest: seq<Event>, parity: nat, d: seq<Event>, n: nat)
    requires rest != [] && InOrder(rest) && n <= |d| && Project(rest, parity) == d[n..]
    ensures n < |d| ==> rest[0].ts <= d[n].ts
    ensures if rest[0].key % 2 == parity
            then n < |d| && rest[0] == d[n] && Project(rest[1..], parity) == d[n + 1..]
            else Project(rest[1..], parity) == d[n..]
  {
    if n < |d| {
      ProjectIn(rest, parity);
      assert d[n] == d[n..][0];
    }
    if rest[0].key % 2 == parity {
      assert d[n..] == [rest[0]] + Project(rest[1..], parity);
      assert d[n..][1..] == Project(rest[1..], parity);
    }
  }

  /** What is left of the merged events is what is left of the two lists. */
  ghost predicate Remaining(src: seq<Interval>, dest: seq<Interval>, i: nat, j: nat, now: int, rest: seq<Event>) {
    && i <= 2 * |src| && j <= 2 * |dest|
    && InOrder(rest) && NotBefore(rest, now)
    && Project(rest, 0) == Decorate(src, 0, 2)[i..]
    && Project(rest, 1) == Decorate(dest, 1, 3)[j..]
  }

  lemma NextExact(op: Op, src: seq<Interval>, dest: seq<Interval>, s: Sweep, i: nat, j: nat, now: int, rest: seq<Event>)
    returns (i': nat, j': nat)
    requires Chain(src) && Chain(dest) && rest != []
    requires Exact(op, src, dest, s, i, j, now) && Remaining(src, dest, i, j, now, rest)
    ensures Exact(op, src, dest, Step(op, s, rest[0]), i', j', rest[0].ts)
    ensures Remaining(src, dest, i', j', rest[0].ts, rest[1..])
  {
    var e := rest[0];
    ProjectStep(rest, 0, Decorate(src, 0, 2), i);
    ProjectStep(rest, 1, Decorate(dest, 1, 3), j);
    if e.key % 2 == 0 {
      i', j' := i + 1, j;
      StepSource(op, src, dest, s, i, j, now, e);
    } else {
      i', j' := i, j + 1;
      StepDest(op, src, dest, s, i, j, now, e);
    }
  }

  lemma {:induction false} RunExact(op: Op, src: seq<Interval>, dest: seq<Interval>,
                                    s: Sweep, i: nat, j: nat, now: int, rest: seq<Event>) returns (last: int)
    requires Chain(src) && Chain(dest)
    requires Exact(op, src, dest, s, i, j, now) && Remaining(src, dest, i, j, now, rest)
    ensures Exact(op, src, dest, RunFrom(op, s, rest), 2 * |src|, 2 * |dest|, last)
    decreases |rest|
  {
    if rest == [] {
      assert |Decorate(src, 0, 2)[i..]| == 0 && |Decorate(dest, 1, 3)[j..]| == 0;
      last := now;
    } else {
      var i', j' := NextExact(op, src, dest, s, i, j, now, rest);
      last := RunExact(op, src, dest, Step(op, s, rest[0]), i', j', rest[0].ts, rest[1..]);
    }
  }

  lemma LowerBound(events: seq<Event>) returns (t: int)
    requires InOrder(events)
    ensures NotBefore(events, t)
  {
    t := if events == [] then 0 else events[0].ts;
  }

  lemma MergedStreams(src: seq<Interval>, dest: seq<Interval>) returns (first: int)
    requires Chain(src) && Chain(dest)
    ensures var ds, dd := Decorate(src, 0, 2), Decorate(dest, 1, 3);
      && InOrder(Merge(ds, dd)) && NotBefore(Merge(ds, dd), first) && NotBefore(ds, first) && NotBefore(dd, first)
      && Project(Merge(ds, dd), 0) == ds && Project(Merge(ds, dd), 1) == dd
  {
    var ds, dd := Decorate(src, 0, 2), Decorate(dest, 1, 3);
    DecorateInOrder(src, 0, 2);
    DecorateInOrder(dest, 1, 3);
    forall n | 0 <= n < |ds| ensures ds[n].key % 2 == 0 { DecorateKey(src, 0, 2, n); }
    forall n | 0 <= n < |dd| ensures dd[n].key % 2 == 1 { DecorateKey(dest, 1, 3, n); }
    var ta := LowerBound(ds);
    var tb := LowerBound(dd);
    first := if ta < tb then ta else tb;
    MergeInOrder(ds, dd, first);
    MergeProjects(ds, dd);
  }

  lemma SweepStarts(src: seq<Interval>, dest: seq<Interval>, op: Op, first: int)
    requires Chain(src) && Chain(dest) && !op(false, false)
    requires NotBefore(Decorate(src, 0, 2), first) && NotBefore(Decorate(dest, 1, 3), first)
    ensures Exact(op, src, dest, Sweep(false, false, None, []), 0, 0, first)
  {
    DecorateInOrder(src, 0, 2);
    DecorateInOrder(dest, 1, 3);
    forall t | t < first ensures !In(src, t) && !In(dest, t) {
      InByParity(src, 0, 2, 0, t);
      InByParity(dest, 1, 3, 0, t);
    }
  }

  /** A list whose endpoints are all used covers nothing from there on. */
  lemma UsedUp(list: seq<Interval>, keyStart: nat, keyEnd: nat, inside: bool, now: int, t: int)
    requires Chain(list) && Used(list, keyStart, keyEnd, inside, 2 * |list|, now)
    ensures !inside
    ensures now <= t ==> !In(list, t)
  {
    if now <= t {
      UsedUpTo(list, keyStart, keyEnd, inside, 2 * |list|, now, t);
    }
  }

  lemma SweepEnds(src: seq<Interval>, dest: seq<Interval>, op: Op, end: Sweep, last: int, t: int)
    requires Chain(src) && Chain(dest) && !op(false, false)
    requires Exact(op, src, dest, end, 2 * |src|, 2 * |dest|, last)
    ensures In(end.result, t) <==> op(In(src, t), In(dest, t))
  {
    UsedUp(src, 0, 2, end.inSrc, last, t);
    UsedUp(dest, 1, 3, end.inDest, last, t);
    if last <= t {
      assert !In(end.result, t);
    } else {
      assert Covered(end, t) <==> In(end.result, t);
    }
  }

  /** The sweep computes the operation point by point, and its output is
      sorted, disjoint and non-empty. */
  lemma MathExact(src: seq<Interval>, dest: seq<Interval>, op: Op)
    requires Chain(src) && Chain(dest) && !op(false, false)
    ensures NonEmptyChain(Math(src, dest, op))
    ensures forall t :: In(Math(src, dest, op), t) <==> op(In(src, t), In(dest, t))
  {
    var merged := Merge(Decorate(src, 0, 2), Decorate(dest, 1, 3));
    var s := Sweep(false, false, None, []);
    var first := MergedStreams(src, dest);
    SweepStarts(src, dest, op, first);
    assert Decorate(src, 0, 2)[0..] == Decorate(src, 0, 2) && Decorate(dest, 1, 3)[0..] == Decorate(dest, 1, 3);
    var last := RunExact(op, src, dest, s, 0, 0, first, merged);
    forall t ensures In(Math(src, dest, op), t) <==> op(In(src, t), In(dest, t)) {
      SweepEnds(src, dest, op, RunFrom(op, s, merged), last, t);
    }
  }

  // ---- lengths -----------------------------------------------------------

  function TotalLength(list: seq<Interval>): int {
    if list == [] then 0 else list[0].1 - list[0].0 + TotalLength(list[1..])
  }

  /** The microseconds of [a, b). */
  function Range(a: int, b: int): (r: set<int>)
    ensures forall t :: t in r <==> a <= t < b
    ensures a <= b ==> |r| == b - a
    decreases b - a
  {
    if a >= b then {} else Range(a, b - 1) + {b - 1}
  }

  function Points(list: seq<Interval>): set<int> {
    if list == [] then {} else Range(list[0].0, list[0].1) + Points(list[1..])
  }

  lemma {:induction false} PointsAreIn(list: seq<Interval>, t: int)
    ensures t in Points(list) <==> In(list, t)
  {
    if list != [] {
      PointsAreIn(list[1..], t);
      if In(list[1..], t) {
        var i :| 0 <= i < |list[1..]| && list[1..][i].0 <= t < list[1..][i].1;
        assert list[i + 1].0 <= t < list[i + 1].1;
      }
      if In(list, t) && !(list[0].0 <= t < list[0].1) {
        var i :| 0 <= i < |list| && list[i].0 <= t < list[i].1;
        assert list[1..][i - 1] == list[i];
      }
    }
  }

  /** The length of a chain is its number of microseconds. */
  lemma {:induction false} LengthIsPoints(list: seq<Interval>)
    requires Chain(list)
    ensures TotalLength(list) == |Points(list)|
  {
    if list != [] {
      LengthIsPoints(list[1..]);
      var first := Range(list[0].0, list[0].1);
      forall t | t in first ensures t !in Points(list[1..]) {
        PointsAreIn(list[1..], t);
      }
      assert first !! Points(list[1..]);
    }
  }

  /** Difference and intersection share out the source exactly. */
  lemma LengthConserved(src: seq<Interval>, dest: seq<Interval>)
    requires Chain(src) && Chain(dest)
    ensures TotalLength(Math(src, dest, DIFFERENCE)) + TotalLength(Math(src, dest, INTERSECTION)) == TotalLength(src)
  {
    var d, n := Math(src, dest, DIFFERENCE), Math(src, dest, INTERSECTION);
    MathExact(src, dest, DIFFERENCE);
    MathExact(src, dest, INTERSECTION);
    LengthIsPoints(src);
    LengthIsPoints(d);
    LengthIsPoints(n);
    forall t ensures t in Points(src) <==> t in Points(d) || t in Points(n)
      ensures !(t in Points(d) && t in Points(n))
    {
      PointsAreIn(src, t);
      PointsAreIn(d, t);
      PointsAreIn(n, t);
    }
    assert Points(src) == Points(d) + Points(n) && Points(d) !! Points(n);
  }

  /** A copy's new and existing intervals split the source: what the
      destination lacks, and what it already has. */
  lemma CopySplitsSource(src: seq<Interval>, dest: seq<Interval>)
    requires Chain(src) && Chain(dest)
    ensures var missing := Math(src, dest, DIFFERENCE);
      var existing := Math(src, missing, DIFFERENCE);
      && NonEmptyChain(existing)
      && (forall t :: In(existing, t) <==> In(src, t) && In(dest, t))
      && TotalLength(missing) + TotalLength(existing) == TotalLength(src)
  {
    var missing := Math(src, dest, DIFFERENCE);
    var existing := Math(src, missing, DIFFERENCE);
    MathExact(src, dest, DIFFERENCE);
    MathExact(src, missing, DIFFERENCE);
    LengthIsPoints(src);
    LengthIsPoints(missing);
    LengthIsPoints(existing);
    forall t ensures t in Points(src) <==> t in Points(missing) || t in Points(existing)
      ensures !(t in Points(missing) && t in Points(existing))
    {
      PointsAreIn(src, t);
      PointsAreIn(missing, t);
      PointsAreIn(existing, t);
    }
    assert Points(src) == Points(missing) + Points(existing) && Points(missing) !! Points(existing);
  }

  // ---- gaps --------------------------------------------------------------

  /** The positive gaps between consecutive intervals. */
  function Gaps(list: seq<Interval>): seq<Interval> {
    if |list| < 2 then []
    else FirstGap(list) + Gaps(list[1..])
  }

  lemma DecorateCons(list: seq<Interval>, keyStart: nat, keyEnd: nat)
    requires list != []
    ensures Decorate(list, keyStart, keyEnd)
         == [Event(list[0].0, keyStart), Event(list[0].1, keyEnd)] + Decorate(list[1..], keyStart, keyEnd)
  {
  }

  lemma RunCons(op: Op, s: Sweep, e: Event, rest: seq<Event>)
    ensures RunFrom(op, s, [e] + rest) == RunFrom(op, Step(op, s, e), rest)
  {
    assert ([e] + rest)[1..] == rest;
  }

  /** The head of `b` is taken first. */
  lemma MergeSecond(a: Event, b: Event, rest: seq<Event>)
    requires !Leq(a, b)
    ensures Merge([a], [b] + rest) == [b] + Merge([a], rest)
  {
    assert ([b] + rest)[1..] == rest;
  }

  lemma MergeFirst(a: Event, b: Event)
    requires Leq(a, b)
    ensures Merge([a], [b]) == [a] + [b]
  {
  }

  function Inside(result: seq<Interval>): Sweep {
    Sweep(true, true, None, result)
  }

  /** From the end of one interval to the start of the next, before the end b
      of the source. */
  lemma SweepOneGap(p: int, q: int, b: int, rest: seq<Event>, result: seq<Interval>)
    requires p <= q < b
    ensures RunFrom(DIFFERENCE, Inside(result), Merge([Event(b, 2)], [Event(p, 3)] + ([Event(q, 1)] + rest)))
         == RunFrom(DIFFERENCE, Inside(result + (if p < q then [(p, q)] else [])), Merge([Event(b, 2)], rest))
  {
    var end, first, second := Event(b, 2), Event(p, 3), Event(q, 1);
    MergeSecond(end, first, [second] + rest);
    MergeSecond(end, second, rest);
    var s1 := Step(DIFFERENCE, Inside(result), first);
    RunCons(DIFFERENCE, Inside(result), first, [second] + Merge([end], rest));
    RunCons(DIFFERENCE, s1, second, Merge([end], rest));
    assert result + [] == result;
  }

  lemma SweepLast(b: int, result: seq<Interval>)
    ensures RunFrom(DIFFERENCE, Inside(result), Merge([Event(b, 2)], [Event(b, 3)])).result == result
  {
    var first, second := Event(b, 2), Event(b, 3);
    MergeFirst(first, second);
    RunCons(DIFFERENCE, Inside(result), first, [second]);
    RunCons(DIFFERENCE, Step(DIFFERENCE, Inside(result), first), second, []);
    assert [second] + [] == [second];
  }

  /** The sweep from inside the first interval of `list`, with only the end
      of the source left in the source stream. */
  function GapSweep(list: seq<Interval>, b: int, result: seq<Interval>): seq<Interval>
    requires list != []
  {
    RunFrom(DIFFERENCE, Inside(result), Merge([Event(b, 2)], [Event(list[0].1, 3)] + Decorate(list[1..], 1, 3))).result
  }

  function FirstGap(list: seq<Interval>): seq<Interval>
    requires |list| >= 2
  {
    if list[0].1 < list[1].0 then [(list[0].1, list[1].0)] else []
  }

  lemma GapSweepStep(list: seq<Interval>, b: int, result: seq<Interval>)
    requires |list| >= 2 && list[0].1 <= list[1].0 < b
    ensures GapSweep(list, b, result) == GapSweep(list[1..], b, result + FirstGap(list))
  {
    var tail := list[1..];
    var rest := [Event(tail[0].1, 3)] + Decorate(tail[1..], 1, 3);
    DecorateCons(tail, 1, 3);
    assert Decorate(tail, 1, 3) == [Event(tail[0].0, 1)] + rest;
    SweepOneGap(list[0].1, tail[0].0, b, rest, result);
  }

  lemma {:induction false} SweepGaps(list: seq<Interval>, b: int, result: seq<Interval>)
    requires NonEmptyChain(list) && list != [] && list[|list| - 1].1 == b
    ensures GapSweep(list, b, result) == result + Gaps(list)
    decreases |list|
  {
    if |list| == 1 {
      assert [Event(b, 3)] + Decorate(list[1..], 1, 3) == [Event(b, 3)];
      SweepLast(b, result);
    } else {
      assert list[1].0 < list[1].1 <= b;
      GapSweepStep(list, b, result);
      SweepGaps(list[1..], b, result + FirstGap(list));
      assert result + FirstGap(list) + Gaps(list[1..]) == result + (FirstGap(list) + Gaps(list[1..]));
    }
  }

  /** Taking the intervals away from their own duration leaves exactly the
      positive gaps between them. */
  lemma {:induction false} DifferenceIsGaps(list: seq<Interval>)
    requires NonEmptyChain(list) && list != []
    ensures Math([(list[0].0, list[|list| - 1].1)], list, DIFFERENCE) == Gaps(list)
  {
    var a, b := list[0].0, list[|list| - 1].1;
    assert a < list[0].1 <= b;
    var start, end := Event(a, 0), Event(b, 2);
    var rest := [Event(list[0].1, 3)] + Decorate(list[1..], 1, 3);
    assert Decorate([(a, b)], 0, 2) == [start] + [end];
    DecorateCons(list, 1, 3);
    assert Decorate(list, 1, 3) == [Event(a, 1)] + rest;
    SweepOpening(a, b, rest);
    SweepGaps(list, b, []);
  }

  lemma SweepOpening(a: int, b: int, rest: seq<Event>)
    requires a < b
    ensures RunFrom(DIFFERENCE, Sweep(false, false, None, []),
                    Merge([Event(a, 0)] + [Event(b, 2)], [Event(a, 1)] + rest))
         == RunFrom(DIFFERENCE, Inside([]), Merge([Event(b, 2)], rest))
  {
    var start, end, first := Event(a, 0), Event(b, 2), Event(a, 1);
    assert ([start] + [end])[1..] == [end];
    assert Merge([start] + [end], [first] + rest) == [start] + Merge([end], [first] + rest);
    MergeSecond(end, first, rest);
    var s0 := Sweep(false, false, None, []);
    RunCons(DIFFERENCE, s0, start, [first] + Merge([end], rest));
    RunCons(DIFFERENCE, Step(DIFFERENCE, s0, start), first, Merge([end], rest));
  }
}
