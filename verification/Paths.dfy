/** Slash-separated paths. */
module Paths {

  /** The components of a path between its slashes. */
  function Components(path: string): (r: seq<string>)
    ensures r != []
  {
    if path == [] then [""]
    else
      var rest := Components(path[1..]);
      if path[0] == '/' then [""] + rest else [[path[0]] + rest[0]] + rest[1..]
  }

  /** A component that names something and leads nowhere else. */
  predicate Plain(component: string) {
    component != "" && component != "." && component != ".."
  }

  function Name(path: string): string {
    Components(path)[|Components(path)| - 1]
  }

  /** A path without slashes is its own only component. */
  lemma {:induction false} OneComponent(name: string)
    requires '/' !in name
    ensures Components(name) == [name] && Name(name) == name
  {
    if name != [] {
      var tail := name[1..];
      assert name == [name[0]] + tail;
      OneComponent(tail);
      assert Components(name) == [[name[0]] + tail] + [tail][1..];
    }
  }

  // ---------------------------------------------------------------- components and joining

  /** The components with slashes between them. */
  function Join(parts: seq<string>): string
    requires parts != []
  {
    if |parts| == 1 then parts[0] else parts[0] + "/" + Join(parts[1..])
  }

  lemma {:induction false} JoinComponents(path: string)
    ensures Join(Components(path)) == path
    ensures forall part <- Components(path) :: '/' !in part
  {
    if path != [] {
      JoinComponents(path[1..]);
      var rest := Components(path[1..]);
      if path[0] == '/' {
        assert ([""] + rest)[1..] == rest;
        assert Join([""] + rest) == "/" + Join(rest);
      } else {
        var parts := [[path[0]] + rest[0]] + rest[1..];
        assert parts[1..] == rest[1..];
        assert Join(parts) == [path[0]] + Join(rest);
      }
      assert path == [path[0]] + path[1..];
    }
  }

  lemma {:induction false} ComponentsSplit(path: string, i: nat)
    requires i < |path| && path[i] == '/'
    ensures Components(path) == Components(path[..i]) + Components(path[i + 1..])
  {
    if i > 0 {
      var tail := path[1..];
      ComponentsSplit(tail, i - 1);
      assert tail[..i - 1] == path[..i][1..] && tail[i..] == path[i + 1..];
      HeadOfSum(path[0], Components(tail[..i - 1]), Components(tail[i..]));
    }
  }

  lemma HeadOfSum(c: char, a: seq<string>, b: seq<string>)
    requires a != []
    ensures [[c] + (a + b)[0]] + (a + b)[1..] == [[c] + a[0]] + a[1..] + b
    ensures [""] + (a + b) == [""] + a + b
  {
  }

  lemma ComponentsAppend(a: string, b: string)
    ensures Components(a + "/" + b) == Components(a) + Components(b)
  {
    var path := a + "/" + b;
    ComponentsSplit(path, |a|);
    assert path[..|a|] == a && path[|a| + 1..] == b;
  }

  /** A name in a directory has two components. */
  lemma TwoComponents(directory: string, name: string)
    requires '/' !in directory && '/' !in name
    ensures Components(directory + "/" + name) == [directory, name] && Name(directory + "/" + name) == name
  {
    OneComponent(directory);
    OneComponent(name);
    ComponentsAppend(directory, name);
  }

  lemma {:induction false} ComponentsJoin(parts: seq<string>)
    requires parts != [] && forall part <- parts :: '/' !in part
    ensures Components(Join(parts)) == parts
  {
    OneComponent(parts[0]);
    if |parts| == 1 {
      assert parts == [parts[0]];
    } else {
      ComponentsJoin(parts[1..]);
      ComponentsAppend(parts[0], Join(parts[1..]));
      assert parts == [parts[0]] + parts[1..];
    }
  }

  /** The components of a path are the one way to write it as slash-free parts with slashes between. */
  lemma ComponentsIff(path: string, parts: seq<string>)
    ensures parts == Components(path) <==> parts != [] && (forall part <- parts :: '/' !in part) && Join(parts) == path
  {
    JoinComponents(path);
    if parts != [] && (forall part <- parts :: '/' !in part) && Join(parts) == path {
      ComponentsJoin(parts);
    }
  }

  lemma {:induction false} JoinLast(parts: seq<string>)
    requires |parts| > 1
    ensures Join(parts) == Join(parts[..|parts| - 1]) + "/" + parts[|parts| - 1]
  {
    var init, last := parts[..|parts| - 1], parts[|parts| - 1];
    if |parts| > 2 {
      JoinLast(parts[1..]);
      assert parts[1..][..|parts| - 2] == init[1..];
    } else {
      assert Join(parts[1..]) == last && Join(init) == parts[0];
    }
  }

  /** The name is what follows the last slash, or the whole path if there is none. */
  lemma NameIff(path: string, name: string)
    requires '/' !in name
    ensures Name(path) == name <==> path == name || exists directory :: path == directory + "/" + name
  {
    JoinComponents(path);
    var parts := Components(path);
    if Name(path) == name {
      if |parts| > 1 {
        JoinLast(parts);
        assert path == Join(parts[..|parts| - 1]) + "/" + name;
      }
    } else {
      OneComponent(name);
      if directory :| path == directory + "/" + name {
        ComponentsAppend(directory, name);
      }
    }
  }
}
