/** Lexical path handling: path.Clean and path.Join of Go, and what they do to
    lists of path elements. */
module Paths {
  import opened Text

  predicate PlainPart(p: string) { p != "" && p != "." && p != ".." && '/' !in p }
  predicate Plain(parts: seq<string>) { forall i :: 0 <= i < |parts| ==> PlainPart(parts[i]) }

  predicate Rooted(s: string) { s != [] && s[0] == '/' }

  function Push(stack: seq<string>, p: string, rooted: bool): seq<string> {
    if p == "" || p == "." then stack
    else if p != ".." then stack + [p]
    else if stack != [] && stack[|stack| - 1] != ".." then stack[..|stack| - 1]
    else if rooted then stack
    else stack + [".."]
  }

  /** The elements left after dropping empty and "." ones and resolving "..". */
  function Resolve(parts: seq<string>, rooted: bool): seq<string> {
    if parts == [] then [] else Push(Resolve(parts[..|parts| - 1], rooted), parts[|parts| - 1], rooted)
  }

  /** The elements of a path. */
  function Elements(s: string): seq<string> { Resolve(Split(s, '/'), Rooted(s)) }

  function Absolute(parts: seq<string>): string { "/" + Join(parts, "/") }

  /** path.Clean. */
  function Clean(s: string): string {
    if Rooted(s) then Absolute(Elements(s))
    else if Elements(s) == [] then "."
    else Join(Elements(s), "/")
  }

  /** path.Join of two elements. */
  function PathJoin(a: string, b: string): string {
    if a == "" then (if b == "" then "" else Clean(b)) else if b == "" then Clean(a) else Clean(a + "/" + b)
  }

  lemma {:induction false} ResolveConcat(a: seq<string>, b: seq<string>, rooted: bool)
    requires Plain(b)
    ensures Resolve(a + b, rooted) == Resolve(a, rooted) + b
  {
    if b == [] {
      assert a + b == a;
    } else {
      assert (a + b)[..|a + b| - 1] == a + b[..|b| - 1];
      ResolveConcat(a, b[..|b| - 1], rooted);
    }
  }

  /** A ".." takes away the element before it, and at the root nothing. */
  lemma {:induction false} DotDotUndoes(a: seq<string>, p: string, rooted: bool)
    requires PlainPart(p)
    ensures Resolve(a + [p, ".."], rooted) == Resolve(a, rooted)
    ensures Resolve([".."], true) == [] && Resolve([".."], false) == [".."]
  {
    var s := a + [p, ".."];
    assert s[..|s| - 1] == a + [p] && (a + [p])[..|a + [p]| - 1] == a;
    assert Resolve(a + [p], rooted) == Resolve(a, rooted) + [p];
    assert [".."][..0] == [];
  }

  /** A "." and an empty element are dropped. */
  lemma {:induction false} DotIsDropped(a: seq<string>, p: string, rooted: bool)
    requires p == "." || p == ""
    ensures Resolve(a + [p], rooted) == Resolve(a, rooted)
  {
    assert (a + [p])[..|a|] == a;
  }

  lemma PlainApart(parts: seq<string>)
    requires Plain(parts)
    ensures Apart(parts, '/')
  {
  }

  /** Without a root ".." can only lead; with one there is none left. */
  lemma {:induction false} ResolvePlain(parts: seq<string>)
    requires Apart(parts, '/')
    ensures Plain(Resolve(parts, true))
  {
    if parts != [] {
      ResolvePlain(parts[..|parts| - 1]);
    }
  }

  lemma RootedElementsPlain(s: string)
    requires Rooted(s)
    ensures Plain(Elements(s))
  {
    SplitApart(s, '/');
    ResolvePlain(Split(s, '/'));
  }

  lemma AbsoluteElements(parts: seq<string>)
    requires Plain(parts)
    ensures Elements(Absolute(parts)) == parts && Clean(Absolute(parts)) == Absolute(parts)
  {
    PlainApart(parts);
    var s := Absolute(parts);
    assert s == [] + ['/'] + Join(parts, "/");
    SplitConcat([], Join(parts, "/"), '/');
    if parts == [] {
      assert Split(s, '/') == [[], []];
      assert Resolve([[], []], true) == Resolve([[]], true) == [];
    } else {
      SplitJoin(parts, '/');
      ResolveConcat([[]], parts, true);
    }
  }

  lemma AbsoluteInjective(a: seq<string>, b: seq<string>)
    requires Plain(a) && Plain(b) && Absolute(a) == Absolute(b)
    ensures a == b
  {
    AbsoluteElements(a);
    AbsoluteElements(b);
  }

  lemma RelativeElements(parts: seq<string>)
    requires Plain(parts) && parts != []
    ensures var s := Join(parts, "/"); !Rooted(s) && Elements(s) == parts && Clean(s) == s
  {
    PlainApart(parts);
    SplitJoin(parts, '/');
    ResolveConcat([], parts, false);
    assert [] + parts == parts;
    JoinFirst(parts, "/");
    assert PlainPart(parts[0]);
  }

  /** Cleaning is idempotent. */
  lemma CleanOfRooted(s: string)
    requires Rooted(s)
    ensures Rooted(Clean(s)) && Elements(Clean(s)) == Elements(s) && Clean(Clean(s)) == Clean(s)
  {
    RootedElementsPlain(s);
    AbsoluteElements(Elements(s));
  }

  lemma JoinBelow(dir: string, name: string)
    requires PlainPart(dir) && PlainPart(name)
    ensures PathJoin("/" + dir, name) == "/" + dir + "/" + name
  {
    var parts := [dir, name];
    assert parts[..1] == [dir];
    assert Join(parts, "/") == dir + "/" + name;
    AbsoluteElements(parts);
    assert "/" + dir + "/" + name == Absolute(parts);
  }
}
