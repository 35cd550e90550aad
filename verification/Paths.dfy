/** Paths are names joined by slashes. */
module Paths {

  function Join(names: seq<string>): string {
    if names == [] then ""
    else if |names| == 1 then names[0]
    else names[0] + "/" + Join(names[1..])
  }

  function Split(path: string): (names: seq<string>)
    ensures names != []
  {
    if path == "" then [""]
    else
      var rest := Split(path[1..]);
      if path[0] == '/' then [""] + rest else [[path[0]] + rest[0]] + rest[1..]
  }

  /** A name that may be given to a folder or a stream. */
  predicate GoodName(name: string) {
    name != "" && '/' !in name
  }

  predicate GoodNames(names: seq<string>) {
    forall i :: 0 <= i < |names| ==> GoodName(names[i])
  }

  lemma {:induction false} SplitName(name: string, rest: string)
    requires '/' !in name
    ensures Split(name) == [name]
    ensures Split(name + "/" + rest) == [name] + Split(rest)
  {
    var path := name + "/" + rest;
    if name == "" {
      assert path[1..] == rest;
    } else {
      SplitName(name[1..], rest);
      assert path[1..] == name[1..] + "/" + rest;
      assert [name[0]] + name[1..] == name;
    }
  }

  lemma {:induction false} SplitJoin(names: seq<string>)
    requires names != [] && GoodNames(names)
    ensures Split(Join(names)) == names
  {
    SplitName(names[0], Join(names[1..]));
    if |names| == 1 {
      assert names == [names[0]];
    } else {
      SplitJoin(names[1..]);
      assert names == [names[0]] + names[1..];
    }
  }

  lemma {:induction false} JoinSplit(path: string)
    ensures Join(Split(path)) == path
  {
    if path != "" {
      JoinSplit(path[1..]);
      var rest := Split(path[1..]);
      var names := Split(path);
      if path[0] == '/' {
        assert names[1..] == rest;
      } else {
        assert names[1..] == rest[1..];
      }
    }
  }

  lemma {:induction false} SplitHasNoSlash(path: string)
    ensures forall i :: 0 <= i < |Split(path)| ==> '/' !in Split(path)[i]
  {
    if path != "" {
      SplitHasNoSlash(path[1..]);
    }
  }
}
