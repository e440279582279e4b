/** path.Clean on slash-separated paths, and which paths it leaves alone. */
module Paths {
  import opened Text

  /** The elements left after dropping "." and empty ones and applying "..", which a rooted
      path drops at its root and a relative one keeps in front. */
  function Resolve(fields: seq<string>, stack: seq<string>, rooted: bool): seq<string> {
    if fields == [] then stack else Resolve(fields[1..], Push(fields[0], stack, rooted), rooted)
  }

  function Push(f: string, stack: seq<string>, rooted: bool): seq<string> {
    if f == "" || f == "." then stack
    else if f == ".." && stack != [] && stack[|stack| - 1] != ".." then stack[..|stack| - 1]
    else if f == ".." && rooted then stack
    else stack + [f]
  }

  predicate IsAbs(path: string) {
    HasPrefix(path, "/")
  }

  function Clean(path: string): string {
    if IsAbs(path) then
      var stack := Resolve(Split(path[1..], '/'), [], true);
      if stack == [] then "/" else "/" + Join(stack, '/')
    else
      var stack := Resolve(Split(path, '/'), [], false);
      if stack == [] then "." else Join(stack, '/')
  }

  predicate Plain(field: string) {
    field != "" && field != "." && field != ".."
  }

  ghost predicate AllPlain(fields: seq<string>) {
    forall i :: 0 <= i < |fields| ==> Plain(fields[i])
  }

  /** What a stack of resolved elements looks like. */
  ghost predicate Resolved(stack: seq<string>, rooted: bool) {
    && (forall i :: 0 <= i < |stack| ==> stack[i] != "" && stack[i] != "." && '/' !in stack[i])
    && (rooted ==> AllPlain(stack))
    && (forall i :: 0 < i < |stack| && stack[i] == ".." ==> stack[i - 1] == "..")
  }

  lemma {:induction false} PlainFieldsResolveToThemselves(fields: seq<string>, stack: seq<string>, rooted: bool)
    requires AllPlain(fields)
    ensures Resolve(fields, stack, rooted) == stack + fields
    decreases |fields|
  {
    if fields == [] {
      assert stack + fields == stack;
    } else {
      PlainFieldsResolveToThemselves(fields[1..], stack + [fields[0]], rooted);
      assert stack + [fields[0]] + fields[1..] == stack + fields;
    }
  }

  lemma {:induction false} ResolveResolves(fields: seq<string>, stack: seq<string>, rooted: bool)
    requires forall i :: 0 <= i < |fields| ==> '/' !in fields[i]
    requires Resolved(stack, rooted)
    ensures Resolved(Resolve(fields, stack, rooted), rooted)
    decreases |fields|
  {
    if fields != [] {
      var next := Push(fields[0], stack, rooted);
      assert Resolved(next, rooted);
      ResolveResolves(fields[1..], next, rooted);
    }
  }

  /** A ".." anywhere in a resolved stack means one in front. */
  lemma {:induction false} DotsAreInFront(stack: seq<string>, rooted: bool, i: nat)
    requires Resolved(stack, rooted) && i < |stack| && stack[i] == ".."
    ensures stack[0] == ".."
    decreases i
  {
    if i > 0 {
      DotsAreInFront(stack, rooted, i - 1);
    }
  }

  /** A rooted path is its own cleaned form exactly when it is the root or all of its
      elements are proper names. */
  lemma CleanRootedPathsArePlain(path: string)
    requires IsAbs(path)
    ensures Clean(path) == path <==> path == "/" || AllPlain(Split(path[1..], '/'))
  {
    var fields := Split(path[1..], '/');
    assert path == "/" + path[1..];
    JoinOfSplit(path[1..], '/');
    if path == "/" {
      assert Resolve([""], [], true) == Resolve([], [], true);
    } else if AllPlain(fields) {
      PlainFieldsResolveToThemselves(fields, [], true);
      assert [] + fields == fields;
    } else {
      ResolveResolves(fields, [], true);
      var stack := Resolve(fields, [], true);
      if stack != [] {
        SplitOfJoin(stack, '/');
        assert ("/" + Join(stack, '/'))[1..] == Join(stack, '/');
      }
    }
  }

  /** The check a layer entry's name must pass. */
  predicate SafeName(name: string) {
    Clean(name) == name && !IsAbs(name) && name != ".." && !HasPrefix(name, "../")
  }

  /** A safe name is "." or a list of proper names: it cannot climb out of its root. */
  lemma SafeNamesStayInside(name: string)
    ensures SafeName(name) <==> name == "." || AllPlain(Split(name, '/'))
  {
    var fields := Split(name, '/');
    JoinOfSplit(name, '/');
    ExtensionIsLongerSplit(name, "..", '/');
    SplitWithoutSeparator("..", '/');
    assert ".." + "/" == "../";
    if name == "." {
      SplitWithoutSeparator(".", '/');
      assert Resolve(["."], [], false) == Resolve([], [], false);
    } else if AllPlain(fields) {
      PlainFieldsResolveToThemselves(fields, [], false);
      assert [] + fields == fields;
      PlainIsRelative(name);
    } else if SafeName(name) {
      SafeIsPlain(name);
    }
  }

  lemma PlainIsRelative(name: string)
    requires AllPlain(Split(name, '/'))
    ensures !IsAbs(name) && name != ".." && !HasPrefix(name, "../")
  {
    assert Plain(Split(name, '/')[0]);
    ExtensionIsLongerSplit(name, "..", '/');
    SplitWithoutSeparator("..", '/');
    assert ".." + "/" == "../";
  }

  lemma SafeIsPlain(name: string)
    requires SafeName(name) && name != "."
    ensures AllPlain(Split(name, '/'))
  {
    var fields := Split(name, '/');
    var stack := Resolve(fields, [], false);
    ResolveResolves(fields, [], false);
    SplitOfJoin(stack, '/');
    assert fields == stack;
    ExtensionIsLongerSplit(name, "..", '/');
    SplitWithoutSeparator("..", '/');
    assert ".." + "/" == "../";
    forall i | 0 <= i < |stack|
      ensures Plain(stack[i])
    {
      if stack[i] == ".." {
        DotsAreInFront(stack, false, i);
        FrontDots(name, stack);
      }
    }
  }

  lemma FrontDots(name: string, stack: seq<string>)
    requires Split(name, '/') == stack && stack != [] && stack[0] == ".."
    ensures name == ".." || HasPrefix(name, "../")
  {
    JoinOfSplit(name, '/');
    ExtensionIsLongerSplit(name, "..", '/');
    SplitWithoutSeparator("..", '/');
    assert ".." + "/" == "../";
    if |stack| == 1 {
      assert stack == [".."];
    } else {
      assert [".."] < stack;
    }
  }
}
