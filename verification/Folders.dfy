/** The folders that organise streams: each has a name and, but for the root, a
    parent. */
module Folders {
  import opened Rows
  import opened Paths

  /** A folder's number is its place in the table. */
  datatype Folder = Folder(name: string, parent: Option<nat>)
  datatype Stream = Stream(name: string, folder: nat)

  type Table = seq<Folder>

  // ---- trees -------------------------------------------------------------

  /** The root is n steps up from folder x. */
  ghost predicate Reaches(t: Table, x: nat, n: nat)
    decreases n
  {
    && x < |t|
    && match t[x].parent
       case None => n == 0
       case Some(p) => n > 0 && Reaches(t, p, n - 1)
  }

  ghost predicate Climbs(t: Table, x: nat) {
    exists n: nat :: Reaches(t, x, n)
  }

  /** One root, the first folder, above all others. */
  ghost predicate Rooted(t: Table) {
    && |t| > 0 && t[0].parent.None?
    && (forall x :: 0 < x < |t| ==> t[x].parent.Some?)
    && (forall x :: 0 <= x < |t| ==> Climbs(t, x))
  }

  predicate Siblings(a: Folder, b: Folder) { a.parent.Some? && a.parent == b.parent }

  predicate NamesDiffer(t: Table) {
    && (forall x, y :: 0 <= x < y < |t| && Siblings(t[x], t[y]) ==> t[x].name != t[y].name)
    && (forall x :: 0 < x < |t| ==> GoodName(t[x].name))
  }

  ghost predicate Valid(t: Table) { Rooted(t) && NamesDiffer(t) }

  /** The names from the root down to folder x; the root's is left out. */
  ghost function Names(t: Table, x: nat, n: nat): (names: seq<string>)
    requires Reaches(t, x, n)
    ensures |names| == n
    decreases n
  {
    if n == 0 then [] else Names(t, t[x].parent.value, n - 1) + [t[x].name]
  }

  lemma {:induction false} HeightUnique(t: Table, x: nat, n: nat, m: nat)
    requires Reaches(t, x, n) && Reaches(t, x, m)
    ensures n == m
    decreases n
  {
    if n > 0 && m > 0 {
      HeightUnique(t, t[x].parent.value, n - 1, m - 1);
    }
  }

  // ---- queries -----------------------------------------------------------

  /** The first child of folder p with a name, from folder x on. */
  function ChildFrom(t: Table, p: nat, name: string, x: nat): (c: Option<nat>)
    ensures c.Some? ==> x <= c.value < |t| && t[c.value] == Folder(name, Some(p))
    decreases |t| - x
  {
    if x >= |t| then None
    else if t[x] == Folder(name, Some(p)) then Some(x)
    else ChildFrom(t, p, name, x + 1)
  }

  function Child(t: Table, p: nat, name: string): (c: Option<nat>)
    ensures c.Some? ==> c.value < |t| && t[c.value] == Folder(name, Some(p))
  {
    ChildFrom(t, p, name, 0)
  }

  function StreamFrom(streams: seq<Stream>, x: nat, name: string, i: nat): (s: Option<nat>)
    decreases |streams| - i
  {
    if i >= |streams| then None
    else if streams[i] == Stream(name, x) then Some(i)
    else StreamFrom(streams, x, name, i + 1)
  }

  function FindBySegments(t: Table, streams: seq<Stream>, x: nat, segments: seq<string>): Option<nat>
    requires segments != []
    decreases |segments|
  {
    if |segments| == 1 then StreamFrom(streams, x, segments[0], 0)
    else match Child(t, x, segments[0])
      case None => None
      case Some(c) => FindBySegments(t, streams, c, segments[1..])
  }

  function FindStreamByPath(t: Table, streams: seq<Stream>, path: string): Option<nat> {
    FindBySegments(t, streams, 0, Split(if path == "" then "" else path[1..]))
  }

  function PathUp(t: Table, x: nat, path: string, ghost n: nat): string
    requires Reaches(t, x, n)
    decreases n
  {
    match t[x].parent
    case None => "/" + path
    case Some(p) => PathUp(t, p, t[x].name + "/" + path, n - 1)
  }

  function GetStreamPath(t: Table, stream: Stream, ghost n: nat): string
    requires Reaches(t, stream.folder, n)
  {
    PathUp(t, stream.folder, stream.name, n)
  }

  // ---- a path leads back to its stream -----------------------------------

  lemma {:induction false} ChildFound(t: Table, p: nat, c: nat, x: nat)
    requires NamesDiffer(t) && x <= c < |t| && t[c].parent == Some(p)
    ensures ChildFrom(t, p, t[c].name, x) == Some(c)
    decreases c - x
  {
    if x < c {
      assert t[x].parent == Some(p) ==> Siblings(t[x], t[c]);
      ChildFound(t, p, c, x + 1);
    }
  }

  lemma {:induction false} PathUpJoins(t: Table, x: nat, tail: seq<string>, n: nat)
    requires Reaches(t, x, n) && tail != []
    ensures PathUp(t, x, Join(tail), n) == "/" + Join(Names(t, x, n) + tail)
    decreases n
  {
    if n == 0 {
      assert Names(t, x, n) + tail == tail;
    } else {
      var p, name := t[x].parent.value, t[x].name;
      var more := [name] + tail;
      assert more[1..] == tail;
      PathUpJoins(t, p, more, n - 1);
      assert Names(t, p, n - 1) + more == Names(t, x, n) + tail;
    }
  }

  lemma {:induction false} FindDown(t: Table, streams: seq<Stream>, x: nat, n: nat, tail: seq<string>)
    requires Valid(t) && Reaches(t, x, n) && tail != []
    ensures FindBySegments(t, streams, 0, Names(t, x, n) + tail) == FindBySegments(t, streams, x, tail)
    decreases n
  {
    if n == 0 {
      assert x == 0;
      assert Names(t, x, n) + tail == tail;
    } else {
      var p, name := t[x].parent.value, t[x].name;
      var more := [name] + tail;
      FindDown(t, streams, p, n - 1, more);
      assert Names(t, p, n - 1) + more == Names(t, x, n) + tail;
      ChildFound(t, p, x, 0);
      assert more[1..] == tail;
    }
  }

  lemma {:induction false} NamesAreGood(t: Table, x: nat, n: nat)
    requires Valid(t) && Reaches(t, x, n)
    ensures GoodNames(Names(t, x, n))
    decreases n
  {
    if n > 0 {
      NamesAreGood(t, t[x].parent.value, n - 1);
      assert x > 0;
    }
  }

  predicate StreamsDiffer(streams: seq<Stream>) {
    && (forall i, j :: 0 <= i < j < |streams| ==> streams[i] != streams[j])
    && (forall i :: 0 <= i < |streams| ==> GoodName(streams[i].name))
  }

  lemma {:induction false} StreamFound(streams: seq<Stream>, s: nat, i: nat)
    requires StreamsDiffer(streams) && i <= s < |streams|
    ensures StreamFrom(streams, streams[s].folder, streams[s].name, i) == Some(s)
    decreases s - i
  {
    if i < s {
      StreamFound(streams, s, i + 1);
    }
  }

  /** The path of a stream leads back to it. */
  lemma PathRoundTrip(t: Table, streams: seq<Stream>, s: nat, n: nat)
    requires Valid(t) && StreamsDiffer(streams) && s < |streams| && Reaches(t, streams[s].folder, n)
    ensures FindStreamByPath(t, streams, GetStreamPath(t, streams[s], n)) == Some(s)
  {
    var x, tail := streams[s].folder, [streams[s].name];
    PathUpJoins(t, x, tail, n);
    var names := Names(t, x, n) + tail;
    NamesAreGood(t, x, n);
    SplitJoin(names);
    assert ("/" + Join(names))[1..] == Join(names);
    FindDown(t, streams, x, n, tail);
    StreamFound(streams, s, 0);
  }

  // ---- finding and creating folders --------------------------------------

  function Lookup(t: Table, x: nat, names: seq<string>): Option<nat>
    decreases |names|
  {
    if names == [] then Some(x)
    else match Child(t, x, names[0])
      case None => None
      case Some(c) => Lookup(t, c, names[1..])
  }

  /** The folder down a path, with those created that were missing. */
  function Ensure(t: Table, x: nat, names: seq<string>): (Table, nat)
    decreases |names|
  {
    if names == [] then (t, x)
    else match Child(t, x, names[0])
      case Some(c) => Ensure(t, c, names[1..])
      case None => Ensure(t + [Folder(names[0], Some(x))], |t|, names[1..])
  }

  /** Not a path: without a slash in front, or with an empty name. */
  predicate Refused(path: string) {
    path == "" || path[0] != '/' || (path != "/" && "" in Split(path[1..]))
  }

  /** The folder at a path, with those created that were missing. */
  function EnsurePath(t: Table, path: string): (Table, nat)
    requires !Refused(path)
  {
    if path == "/" then (t, 0) else Ensure(t, 0, Split(path[1..]))
  }

  lemma {:induction false} Extended(t: Table, more: Table, x: nat, n: nat)
    requires Reaches(t, x, n)
    ensures Reaches(t + more, x, n) && Names(t + more, x, n) == Names(t, x, n)
    decreases n
  {
    if n > 0 {
      Extended(t, more, t[x].parent.value, n - 1);
    }
  }

  lemma {:induction false} NoChild(t: Table, p: nat, name: string, x: nat, y: nat)
    requires ChildFrom(t, p, name, x).None? && x <= y < |t|
    ensures t[y] != Folder(name, Some(p))
    decreases y - x
  {
    if x < y {
      NoChild(t, p, name, x + 1, y);
    }
  }

  lemma AddKeeps(t: Table, x: nat, n: nat, name: string)
    requires Valid(t) && Reaches(t, x, n) && GoodName(name) && Child(t, x, name).None?
    ensures var u := t + [Folder(name, Some(x))];
      Valid(u) && Reaches(u, |t|, n + 1) && Names(u, |t|, n + 1) == Names(t, x, n) + [name]
  {
    var more := [Folder(name, Some(x))];
    var u := t + more;
    Extended(t, more, x, n);
    assert Reaches(u, |t|, n + 1);
    forall y | 0 <= y < |u| ensures Climbs(u, y) {
      if y < |t| {
        assert Climbs(t, y);
        var m: nat :| Reaches(t, y, m);
        Extended(t, more, y, m);
      }
    }
    forall y, z | 0 <= y < z < |u| && Siblings(u[y], u[z]) ensures u[y].name != u[z].name {
      if z == |t| {
        NoChild(t, x, name, 0, y);
      } else {
        assert Siblings(t[y], t[z]);
      }
    }
  }

  /** What finding with creation promises. */
  ghost predicate Ensured(t: Table, x: nat, n: nat, names: seq<string>, u: Table, y: nat, m: nat)
    requires Reaches(t, x, n)
  {
    && Valid(u) && t <= u
    && Reaches(u, y, m) && m == n + |names| && Names(u, y, m) == Names(t, x, n) + names
    && (Lookup(t, x, names).Some? ==> u == t && Lookup(t, x, names) == Some(y))
  }

  lemma NamesOn(before: seq<string>, names: seq<string>)
    requires names != []
    ensures before + [names[0]] + names[1..] == before + names
  {
    assert names == [names[0]] + names[1..];
  }

  /** The first name leads to a child c that is there. */
  lemma EnsureDown(t: Table, x: nat, n: nat, names: seq<string>, c: nat, m: nat)
    requires Reaches(t, x, n) && names != [] && Child(t, x, names[0]) == Some(c)
    requires Reaches(t, c, n + 1)
    requires var (u, y) := Ensure(t, c, names[1..]); Ensured(t, c, n + 1, names[1..], u, y, m)
    ensures var (u, y) := Ensure(t, x, names); Ensured(t, x, n, names, u, y, m)
  {
    NamesOn(Names(t, x, n), names);
  }

  /** The first name leads to a child that is added. */
  lemma EnsureAdded(t: Table, x: nat, n: nat, names: seq<string>, m: nat)
    requires Reaches(t, x, n) && names != [] && Child(t, x, names[0]).None?
    requires var more := t + [Folder(names[0], Some(x))];
      var (u, y) := Ensure(more, |t|, names[1..]);
      && Reaches(more, |t|, n + 1) && Names(more, |t|, n + 1) == Names(t, x, n) + [names[0]]
      && Ensured(more, |t|, n + 1, names[1..], u, y, m)
    ensures var (u, y) := Ensure(t, x, names); Ensured(t, x, n, names, u, y, m)
  {
    NamesOn(Names(t, x, n), names);
  }

  /** Finding with creation keeps the tree and every folder in it, and gives the
      folder with that path: the one that was there, if it was. */
  lemma {:induction false} EnsureFinds(t: Table, x: nat, n: nat, names: seq<string>) returns (m: nat)
    requires Valid(t) && Reaches(t, x, n) && GoodNames(names)
    ensures var (u, y) := Ensure(t, x, names); Ensured(t, x, n, names, u, y, m)
    decreases |names|
  {
    if names == [] {
      m := n;
      assert Names(t, x, n) + names == Names(t, x, n);
    } else {
      match Child(t, x, names[0])
      case Some(c) =>
        m := EnsureFinds(t, c, n + 1, names[1..]);
        EnsureDown(t, x, n, names, c, m);
      case None =>
        AddKeeps(t, x, n, names[0]);
        m := EnsureFinds(t + [Folder(names[0], Some(x))], |t|, n + 1, names[1..]);
        EnsureAdded(t, x, n, names, m);
    }
  }

  // ---- moving a folder ---------------------------------------------------

  datatype Outcome = Locked | BadPath | NameTaken | Circular | Moved

  function MoveTo(t: Table, src: nat, dest: nat): Table
    requires src < |t|
  {
    t[src := t[src].(parent := Some(dest))]
  }

  /** Folder f is x or above it. */
  ghost predicate Passes(t: Table, x: nat, f: nat, n: nat)
    requires Reaches(t, x, n)
    decreases n
  {
    x == f || (n > 0 && Passes(t, t[x].parent.value, f, n - 1))
  }

  /** The checks of a move: the root is locked, as are folders that hold
      streams in use; names must differ in the destination; and the destination
      must have the folder nowhere above it. */
  ghost function Moves(t: Table, src: nat, dest: nat, held: bool, n: nat): Outcome
    requires src < |t| && Reaches(t, dest, n)
  {
    if t[src].parent.None? || held then Locked
    else if Child(t, dest, t[src].name).Some? then NameTaken
    else if n > 0 && Passes(t, t[dest].parent.value, src, n - 1) then Circular
    else Moved
  }

  ghost predicate Decided(t: Table, src: nat, dest: nat, held: bool, outcome: Outcome)
    requires src < |t|
  {
    exists n: nat :: Reaches(t, dest, n) && Moves(t, src, dest, held, n) == outcome
  }

  /** What is not below the folder moved stays where it is. */
  lemma {:induction false} OthersStay(t: Table, src: nat, dest: nat, x: nat, n: nat)
    requires src < |t| && Reaches(t, x, n) && !Passes(t, x, src, n)
    ensures Reaches(MoveTo(t, src, dest), x, n) && Names(MoveTo(t, src, dest), x, n) == Names(t, x, n)
    decreases n
  {
    if n > 0 {
      OthersStay(t, src, dest, t[x].parent.value, n - 1);
    }
  }

  /** The names from below folder f down to x. */
  ghost function Below(t: Table, x: nat, f: nat, n: nat): seq<string>
    requires Reaches(t, x, n) && Passes(t, x, f, n)
    decreases n
  {
    if x == f then [] else Below(t, t[x].parent.value, f, n - 1) + [t[x].name]
  }

  /** What is below the folder moved goes with it. */
  lemma {:induction false} RestFollows(t: Table, src: nat, dest: nat, d: nat, x: nat, n: nat) returns (m: nat)
    requires src < |t| && Reaches(t, x, n) && Passes(t, x, src, n)
    requires Reaches(t, dest, d) && !Passes(t, dest, src, d)
    ensures var u := MoveTo(t, src, dest);
      && Reaches(u, x, m)
      && Names(u, x, m) == Names(t, dest, d) + [t[src].name] + Below(t, x, src, n)
    decreases n
  {
    var u := MoveTo(t, src, dest);
    if x == src {
      OthersStay(t, src, dest, dest, d);
      m := d + 1;
      assert Names(t, dest, d) + [t[src].name] + [] == Names(t, dest, d) + [t[src].name];
    } else {
      var p := t[x].parent.value;
      var k := RestFollows(t, src, dest, d, p, n - 1);
      m := k + 1;
      assert Reaches(u, x, m);
      assert Names(t, dest, d) + [t[src].name] + Below(t, x, src, n)
          == Names(t, dest, d) + [t[src].name] + Below(t, p, src, n - 1) + [t[x].name];
    }
  }

  lemma MoveDiffers(t: Table, src: nat, dest: nat)
    requires NamesDiffer(t) && src < |t| && Child(t, dest, t[src].name).None?
    ensures NamesDiffer(MoveTo(t, src, dest))
  {
    var u := MoveTo(t, src, dest);
    forall x, y | 0 <= x < y < |u| && Siblings(u[x], u[y]) ensures u[x].name != u[y].name {
      if x == src {
        NoChild(t, dest, t[src].name, 0, y);
      } else if y == src {
        NoChild(t, dest, t[src].name, 0, x);
      } else {
        assert Siblings(t[x], t[y]);
      }
    }
  }

  /** A move that the checks let through, to a folder other than the one moved,
      keeps the tree; the folder and all below it are then found under the
      destination, and all else is where it was. */
  lemma MoveKeeps(t: Table, src: nat, dest: nat, held: bool, d: nat)
    requires Valid(t) && src < |t| && Reaches(t, dest, d) && Moves(t, src, dest, held, d) == Moved && src != dest
    ensures Valid(MoveTo(t, src, dest)) && !Passes(t, dest, src, d)
  {
    var u := MoveTo(t, src, dest);
    MoveDiffers(t, src, dest);
    forall x | 0 <= x < |u| ensures Climbs(u, x) {
      assert Climbs(t, x);
      var n: nat :| Reaches(t, x, n);
      if Passes(t, x, src, n) {
        var m := RestFollows(t, src, dest, d, x, n);
      } else {
        OthersStay(t, src, dest, x, n);
      }
    }
  }

  lemma {:induction false} NeverClimbs(t: Table, x: nat, n: nat)
    requires x < |t| && t[x].parent == Some(x)
    ensures !Reaches(t, x, n)
    decreases n
  {
    if n > 0 {
      NeverClimbs(t, x, n - 1);
    }
  }

  /** The checks let a folder be moved into itself, unless it holds a folder of
      its own name; it would then hang from nothing. So a move they let through
      keeps the tree if and only if the destination is another folder. */
  lemma MoveKeepsIff(t: Table, src: nat, dest: nat, held: bool, d: nat)
    requires Valid(t) && src < |t| && Reaches(t, dest, d) && Moves(t, src, dest, held, d) == Moved
    ensures Valid(MoveTo(t, src, dest)) <==> src != dest
  {
    if src != dest {
      MoveKeeps(t, src, dest, held, d);
    } else {
      var u := MoveTo(t, src, dest);
      forall n: nat ensures !Reaches(u, src, n) {
        NeverClimbs(u, src, n);
      }
      assert !Climbs(u, src);
    }
  }

  lemma {:induction false} NotAboveItself(t: Table, x: nat, f: nat, n: nat, m: nat)
    requires Reaches(t, x, n) && Reaches(t, f, m) && Passes(t, x, f, n)
    ensures m <= n
    decreases n
  {
    if x == f {
      HeightUnique(t, x, n, m);
    } else {
      NotAboveItself(t, t[x].parent.value, f, n - 1, m);
    }
  }

  /** For every folder but the root, not in use and without a child of its own
      name, the checks let the move into itself through. */
  lemma IntoItself(t: Table, src: nat, d: nat)
    requires Valid(t) && 0 < src && Reaches(t, src, d) && Child(t, src, t[src].name).None?
    ensures Moves(t, src, src, false, d) == Moved
  {
    var p := t[src].parent.value;
    if Passes(t, p, src, d - 1) {
      NotAboveItself(t, p, src, d - 1, d);
    }
  }

  // ---- what is there is found --------------------------------------------

  lemma {:induction false} LookupDown(t: Table, x: nat, n: nat, tail: seq<string>)
    requires Valid(t) && Reaches(t, x, n)
    ensures Lookup(t, 0, Names(t, x, n) + tail) == Lookup(t, x, tail)
    decreases n
  {
    if n == 0 {
      assert x == 0;
      assert Names(t, x, n) + tail == tail;
    } else {
      var p, name := t[x].parent.value, t[x].name;
      var more := [name] + tail;
      LookupDown(t, p, n - 1, more);
      assert Names(t, p, n - 1) + more == Names(t, x, n) + tail;
      ChildFound(t, p, x, 0);
      assert more[1..] == tail;
    }
  }

  /** A path leads to a folder, without creating any, exactly if it is the path
      of that folder. */
  lemma LookupIff(t: Table, names: seq<string>, x: nat, n: nat)
    requires Valid(t) && GoodNames(names) && Reaches(t, x, n)
    ensures Lookup(t, 0, names) == Some(x) <==> Names(t, x, n) == names
    ensures Names(t, x, n) == names ==> Ensure(t, 0, names) == (t, x)
  {
    var root: nat := 0;
    assert Reaches(t, root, 0) && Names(t, root, 0) == [];
    LookupDown(t, x, n, []);
    assert Names(t, x, n) + [] == Names(t, x, n) && [] + names == names;
    if Lookup(t, root, names) == Some(x) || Names(t, x, n) == names {
      var m := EnsureFinds(t, root, 0, names);
      HeightUnique(t, x, n, m);
    }
  }

  /** Every folder that is created lies on the path. */
  lemma {:induction false} AddedOnPath(t: Table, x: nat, n: nat, names: seq<string>, z: nat) returns (k: nat)
    requires Valid(t) && Reaches(t, x, n) && GoodNames(names)
    requires |t| <= z < |Ensure(t, x, names).0|
    ensures n < k <= n + |names| && Reaches(Ensure(t, x, names).0, z, k)
    ensures Names(Ensure(t, x, names).0, z, k) == Names(t, x, n) + names[..k - n]
    decreases |names|
  {
    var name, rest := names[0], names[1..];
    match Child(t, x, name)
    case Some(c) =>
      k := AddedOnPath(t, c, n + 1, rest, z);
      PathNext(Names(t, x, n), names, k - n);
    case None =>
      var more, y := t + [Folder(name, Some(x))], |t|;
      AddKeeps(t, x, n, name);
      if z == y {
        k := n + 1;
        var m := EnsureFinds(more, y, k, rest);
        var u := Ensure(more, y, rest).0;
        Extended(more, u[|more|..], y, k);
        assert more + u[|more|..] == u;
      } else {
        k := AddedOnPath(more, y, n + 1, rest, z);
      }
      PathNext(Names(t, x, n), names, k - n);
  }

  lemma PathNext(before: seq<string>, names: seq<string>, k: nat)
    requires 0 < k <= |names|
    ensures before + [names[0]] + names[1..][..k - 1] == before + names[..k]
  {
    assert names[..k] == [names[0]] + names[1..][..k - 1];
  }

  /** A path is refused exactly if it is neither the root's nor made of names
      that are not empty. */
  lemma RefusedIff(path: string)
    ensures !Refused(path) <==>
      path == "/"
      || (path != "" && path[0] == '/' && GoodNames(Split(path[1..])) && path == "/" + Join(Split(path[1..])))
  {
    if path != "" && path[0] == '/' {
      JoinSplit(path[1..]);
      SplitHasNoSlash(path[1..]);
      assert path == "/" + path[1..];
    }
  }

  /** The first stream of that name in that folder. */
  lemma {:induction false} StreamFromIs(streams: seq<Stream>, x: nat, name: string, i: nat)
    ensures StreamFrom(streams, x, name, i).Some? ==>
      i <= StreamFrom(streams, x, name, i).value < |streams|
      && streams[StreamFrom(streams, x, name, i).value] == Stream(name, x)
    decreases |streams| - i
  {
    if i < |streams| {
      StreamFromIs(streams, x, name, i + 1);
    }
  }

  /** A stream that is found has the last name of the path and is in the folder
      that the names before it lead to. */
  lemma {:induction false} FoundIsThere(t: Table, streams: seq<Stream>, x: nat, segments: seq<string>)
    requires segments != []
    ensures var found, n := FindBySegments(t, streams, x, segments), |segments| - 1;
      found.Some? ==> found.value < |streams| && streams[found.value].name == segments[n]
                      && Lookup(t, x, segments[..n]) == Some(streams[found.value].folder)
    decreases |segments|
  {
    if |segments| == 1 {
      StreamFromIs(streams, x, segments[0], 0);
    } else {
      var c := Child(t, x, segments[0]);
      if c.Some? {
        FoundIsThere(t, streams, c.value, segments[1..]);
        var n := |segments| - 1;
        assert segments[..n][0] == segments[0] && segments[..n][1..] == segments[1..][..n - 1];
      }
    }
  }

  // ---- which moves are let through ---------------------------------------

  /** The folder m steps up from x. */
  function Up(t: Table, x: nat, m: nat): Option<nat>
    decreases m
  {
    if m == 0 then Some(x)
    else if x >= |t| || t[x].parent.None? then None
    else Up(t, t[x].parent.value, m - 1)
  }

  /** Folder f is from lo to hi steps up from x. */
  ghost predicate UpWithin(t: Table, x: nat, f: nat, lo: nat, hi: int) {
    exists m: nat :: lo <= m <= hi && Up(t, x, m) == Some(f)
  }

  lemma UpFrom(t: Table, x: nat, f: nat, n: nat)
    requires x < |t| && t[x].parent.Some?
    ensures UpWithin(t, x, f, 1, n) <==> UpWithin(t, t[x].parent.value, f, 0, n - 1)
  {
    var p := t[x].parent.value;
    if UpWithin(t, x, f, 1, n) {
      var m: nat :| 1 <= m <= n && Up(t, x, m) == Some(f);
      var k: nat := m - 1;
      assert Up(t, p, k) == Some(f);
    }
    if UpWithin(t, p, f, 0, n - 1) {
      var k: nat :| k <= n - 1 && Up(t, p, k) == Some(f);
      assert Up(t, x, k + 1) == Some(f);
    }
  }

  lemma {:induction false} PassesIff(t: Table, x: nat, f: nat, n: nat)
    requires Reaches(t, x, n)
    ensures Passes(t, x, f, n) <==> UpWithin(t, x, f, 0, n)
    decreases n
  {
    assert Up(t, x, 0) == Some(x);
    if n > 0 {
      PassesIff(t, t[x].parent.value, f, n - 1);
      UpFrom(t, x, f, n);
    }
  }

  ghost predicate NameIsTaken(t: Table, dest: nat, name: string) {
    exists c :: 0 <= c < |t| && t[c] == Folder(name, Some(dest))
  }

  lemma TakenIff(t: Table, dest: nat, name: string)
    ensures Child(t, dest, name).Some? <==> NameIsTaken(t, dest, name)
  {
    if Child(t, dest, name).None? {
      forall c: nat | c < |t| ensures t[c] != Folder(name, Some(dest)) {
        NoChild(t, dest, name, 0, c);
      }
    }
  }

  /** The folder is strictly above the destination. */
  ghost predicate IsAbove(t: Table, src: nat, dest: nat, d: nat) { UpWithin(t, dest, src, 1, d) }

  /** A move is refused exactly for the root or a folder in use, then if the
      destination holds a folder of that name, and then if the folder is above
      the destination; every other move is let through. */
  lemma MovesIff(t: Table, src: nat, dest: nat, held: bool, d: nat)
    requires Valid(t) && src < |t| && Reaches(t, dest, d)
    ensures var outcome, name := Moves(t, src, dest, held, d), t[src].name;
      && (outcome == Locked <==> src == 0 || held)
      && (outcome == NameTaken <==> src != 0 && !held && NameIsTaken(t, dest, name))
      && (outcome == Circular <==> src != 0 && !held && !NameIsTaken(t, dest, name) && IsAbove(t, src, dest, d))
      && (outcome == Moved <==> src != 0 && !held && !NameIsTaken(t, dest, name) && !IsAbove(t, src, dest, d))
  {
    TakenIff(t, dest, t[src].name);
    if d > 0 {
      PassesIff(t, t[dest].parent.value, src, d - 1);
      UpFrom(t, dest, src, d);
    }
  }

  // ---- the folders in the database ---------------------------------------

  class FolderTree {
    var folders: Table

    /** The root is created first. */
    constructor ()
      ensures Valid(folders) && folders == [Folder("root", None)]
    {
      folders := [Folder("root", None)];
      new;
      assert Reaches(folders, 0, 0);
      assert Climbs(folders, 0);
    }

    /** None when there is no such folder and none is to be created; Raised
        when the path is not one. */
    method Find(path: string, create: bool) returns (found: Result<Option<nat>>)
      requires Valid(folders)
      modifies this
      ensures Valid(folders) && old(folders) <= folders && (folders == old(folders) || create)
      ensures found.Raised? <==> Refused(path)
      ensures found.Raised? ==> folders == old(folders)
      ensures found.Ok? && create ==>
        var (t, x) := EnsurePath(old(folders), path);
        folders == t && found.value == Some(x) && Climbs(folders, x)
      ensures found.Ok? && !create ==>
        found.value == if path == "/" then Some(0) else Lookup(folders, 0, Split(path[1..]))
    {
      if path == "" || path[0] != '/' {
        return Raised;
      }
      assert Climbs(folders, 0);
      assert Reaches(folders, 0, 0);
      if path == "/" {
        return Ok(Some(0));
      }
      var names := Split(path[1..]);
      if "" in names {
        return Raised;
      }
      SplitHasNoSlash(path[1..]);
      ghost var m := EnsureFinds(folders, 0, 0, names);
      assert Climbs(Ensure(folders, 0, names).0, Ensure(folders, 0, names).1);
      var r := Descend(names, create);
      found := Ok(r);
    }

    method Descend(names: seq<string>, create: bool) returns (found: Option<nat>)
      modifies this
      ensures if create
              then folders == Ensure(old(folders), 0, names).0 && found == Some(Ensure(old(folders), 0, names).1)
              else folders == old(folders) && found == Lookup(folders, 0, names)
    {
      var x: nat := 0;
      assert names[0..] == names;
      for i := 0 to |names|
        invariant create ==> Ensure(folders, x, names[i..]) == Ensure(old(folders), 0, names)
        invariant !create ==> folders == old(folders) && Lookup(folders, x, names[i..]) == Lookup(folders, 0, names)
      {
        assert names[i..][1..] == names[i + 1..];
        var c := Child(folders, x, names[i]);
        if c.Some? {
          x := c.value;
        } else if create {
          folders := folders + [Folder(names[i], Some(x))];
          x := |folders| - 1;
        } else {
          return None;
        }
      }
      return Some(x);
    }

    /** `held` says whether the folder or one below it has streams in use. */
    method Move(src: nat, dest: nat, held: bool, ghost d: nat) returns (outcome: Outcome)
      requires Valid(folders) && src < |folders| && Reaches(folders, dest, d)
      modifies this
      ensures outcome == Moves(old(folders), src, dest, held, d)
      ensures folders == if outcome == Moved then MoveTo(old(folders), src, dest) else old(folders)
      ensures Valid(folders) <==> outcome != Moved || src != dest
    {
      if folders[src].parent.None? || held {
        return Locked;
      }
      if Child(folders, dest, folders[src].name).Some? {
        return NameTaken;
      }
      var parent := folders[dest].parent;
      ghost var n := d;
      while parent.Some?
        invariant n >= 0 && (parent.Some? <==> n > 0) && (parent.Some? ==> Reaches(folders, parent.value, n - 1))
        invariant d > 0 ==> (Passes(folders, folders[dest].parent.value, src, d - 1)
                             <==> parent.Some? && Passes(folders, parent.value, src, n - 1))
        invariant d == 0 ==> parent.None?
        decreases n
      {
        if parent.value == src {
          return Circular;
        }
        parent, n := folders[parent.value].parent, n - 1;
      }
      MoveKeepsIff(folders, src, dest, held, d);
      folders := MoveTo(folders, src, dest);
      return Moved;
    }

    /** The destination is found or created first; if the move is then refused,
        what was created is rolled back. */
    method MoveToPath(src: nat, path: string, held: bool) returns (outcome: Outcome)
      requires Valid(folders) && src < |folders|
      modifies this
      ensures outcome == Locked <==> old(folders)[src].parent.None? || held
      ensures outcome == BadPath <==> outcome != Locked && Refused(path)
      ensures outcome != Moved ==> folders == old(folders)
      ensures outcome != Locked && !Refused(path) ==>
        var (t, dest) := EnsurePath(old(folders), path);
        && src < |t| && Decided(t, src, dest, held, outcome)
        && (outcome == Moved ==> folders == MoveTo(t, src, dest) && (Valid(folders) <==> src != dest))
    {
      if folders[src].parent.None? || held {
        return Locked;
      }
      ghost var before := folders;
      var was := folders;
      var found := Find(path, true);
      if found.Raised? {
        return BadPath;
      }
      var dest := found.value.value;
      ghost var d: nat :| Reaches(folders, dest, d);
      assert folders[src] == before[src];
      outcome := Move(src, dest, held, d);
      if outcome != Moved {
        folders := was;
      }
    }
  }
}
