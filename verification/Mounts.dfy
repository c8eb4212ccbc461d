/** The kernel's mount table (internal/storage/mounts.go): which mount point
    holds a path, and the decoding of escaped mount points. */
module Mounts {
  import opened Text
  import opened Paths

  type MountTable = seq<string>

  function TrimSlash(m: string): string {
    if m != [] && m[|m| - 1] == '/' then m[..|m| - 1] else m
  }

  /** m is the path or one of its parents, as Containing tests it. */
  predicate Holds(m: string, path: string) {
    m == path || m == "/" || HasPrefix(path, TrimSlash(m) + "/")
  }

  /** The first longest mount point of t that holds an already clean path. */
  function Best(t: MountTable, path: string): string {
    if t == [] then ""
    else
      var best, m := Best(t[..|t| - 1], path), t[|t| - 1];
      if Holds(m, path) && |m| > |best| then m else best
  }

  method Containing(t: MountTable, path: string) returns (best: string)
    ensures best == Best(t, Clean(path))
  {
    var p := Clean(path);
    best := "";
    for i := 0 to |t|
      invariant best == Best(t[..i], p)
    {
      assert t[..i + 1][..i] == t[..i];
      var m := t[i];
      if m == p || m == "/" || HasPrefix(p, TrimSlash(m) + "/") {
        if |m| > |best| {
          best := m;
        }
      }
    }
    assert t[..|t|] == t;
  }

  method IsMountPoint(t: MountTable, path: string) returns (found: bool)
    ensures found <==> Clean(path) in t
  {
    var p := Clean(path);
    for i := 0 to |t|
      invariant p !in t[..i]
    {
      if t[i] == p {
        return true;
      }
    }
    return false;
  }

  /** What the kernel writes: absolute paths without empty, "." or ".."
      elements. */
  predicate MountPoint(m: string) { Rooted(m) && Clean(m) == m }
  predicate Kernel(t: MountTable) { forall i :: 0 <= i < |t| ==> MountPoint(t[i]) }

  /** On clean paths the byte test is the ancestor relation on elements. */
  lemma HoldsIsAncestor(a: seq<string>, b: seq<string>)
    requires Plain(a) && Plain(b)
    ensures Holds(Absolute(a), Absolute(b)) <==> a <= b
  {
    if a <= b {
      AncestorHolds(a, b);
    } else if Holds(Absolute(a), Absolute(b)) {
      HeldIsDescendant(a, b);
    }
  }

  lemma AbsoluteEnd(a: seq<string>)
    requires Plain(a) && a != []
    ensures TrimSlash(Absolute(a)) == Absolute(a) && Absolute(a) != "/"
  {
    var last := a[|a| - 1];
    assert PlainPart(last);
    assert Absolute(a)[|Absolute(a)| - 1] == last[|last| - 1];
    assert |Absolute(a)| > 1;
  }

  lemma AncestorHolds(a: seq<string>, b: seq<string>)
    requires Plain(a) && Plain(b) && a <= b
    ensures Holds(Absolute(a), Absolute(b))
  {
    if a != [] && a != b {
      var c := b[|a|..];
      assert b == a + c;
      JoinConcat(a, c, "/");
      AbsoluteEnd(a);
      assert Absolute(b) == Absolute(a) + "/" + Join(c, "/");
    }
  }

  lemma HeldIsDescendant(a: seq<string>, b: seq<string>)
    requires Plain(a) && Plain(b) && Holds(Absolute(a), Absolute(b))
    ensures a <= b
  {
    if Absolute(a) == Absolute(b) {
      AbsoluteInjective(a, b);
    } else if a != [] {
      AbsoluteEnd(a);
      var rest := Absolute(b)[|Absolute(a)| + 1..];
      assert Absolute(b) == Absolute(a) + "/" + rest;
      PrefixParts(a, b, rest);
    }
  }

  lemma PrefixParts(a: seq<string>, b: seq<string>, rest: string)
    requires Plain(a) && Plain(b) && a != [] && Absolute(b) == Absolute(a) + "/" + rest
    ensures a <= b
  {
    assert b != [] by { assert |Absolute(a)| > 1; }
    AbsoluteSplit(a);
    AbsoluteSplit(b);
    SplitConcat(Absolute(a), rest, '/');
    SameTail(a, Split(rest, '/'), b);
  }

  lemma SameTail(a: seq<string>, tail: seq<string>, b: seq<string>)
    requires [[]] + b == [[]] + a + tail
    ensures b == a + tail
  {
    assert ([[]] + b)[1..] == b;
    assert ([[]] + a + tail)[1..] == a + tail;
  }

  lemma AbsoluteSplit(a: seq<string>)
    requires Plain(a)
    ensures Split(Absolute(a), '/') == [[]] + if a == [] then [[]] else a
  {
    assert Absolute(a) == [] + ['/'] + Join(a, "/");
    SplitConcat([], Join(a, "/"), '/');
    PlainApart(a);
    if a != [] {
      SplitJoin(a, '/');
    }
  }

  lemma AbsoluteLonger(a: seq<string>, b: seq<string>)
    requires Plain(a) && Plain(b) && a <= b && a != b
    ensures |Absolute(a)| < |Absolute(b)|
  {
    var c := b[|a|..];
    assert b == a + c && PlainPart(c[0]);
    JoinFirst(c, "/");
    if a != [] {
      JoinConcat(a, c, "/");
    }
  }

  lemma MountPointParts(m: string) returns (parts: seq<string>)
    requires MountPoint(m)
    ensures parts == Elements(m) && Plain(parts) && m == Absolute(parts)
  {
    parts := Elements(m);
    RootedElementsPlain(m);
  }

  /** Best in terms of the byte test. */
  lemma {:induction false} BestIsLongest(t: MountTable, path: string)
    ensures var r := Best(t, path);
            && (r == "" || (r in t && Holds(r, path)))
            && forall m :: m in t && Holds(m, path) ==> |m| <= |r|
  {
    if t != [] {
      BestIsLongest(t[..|t| - 1], path);
      assert forall x :: x in t <==> x in t[..|t| - 1] || x == t[|t| - 1];
    }
  }

  /** m is the path or an ancestor of it. */
  predicate AtOrAbove(m: string, path: string) { Elements(m) <= Elements(path) }

  /** r is a mount point at or above the path, and every other one at or above
      it is at or above r: the unique deepest. */
  ghost predicate Deepest(t: MountTable, path: string, r: string) {
    && r in t && AtOrAbove(r, path)
    && forall m :: m in t && AtOrAbove(m, path) ==> AtOrAbove(m, r)
  }

  lemma HoldsIsAtOrAbove(m: string, path: string)
    requires MountPoint(m) && Rooted(path)
    ensures Holds(m, Clean(path)) <==> AtOrAbove(m, path)
  {
    var a := MountPointParts(m);
    RootedElementsPlain(path);
    HoldsIsAncestor(a, Elements(path));
  }

  /** Two ancestors of one path are comparable, and the deeper one is longer. */
  lemma TwoAncestors(a: seq<string>, b: seq<string>, path: seq<string>)
    requires Plain(a) && Plain(b) && a <= path && b <= path && |Absolute(a)| <= |Absolute(b)|
    ensures a <= b
  {
    assert a == path[..|a|] && b == path[..|b|];
    if |b| < |a| {
      AbsoluteLonger(b, a);
    }
  }

  lemma LongestIsDeepest(path: string, m: string, r: string)
    requires Rooted(path) && MountPoint(m) && MountPoint(r) && |m| <= |r| && AtOrAbove(m, path) && AtOrAbove(r, path)
    ensures AtOrAbove(m, r)
  {
    var a := MountPointParts(m);
    var b := MountPointParts(r);
    TwoAncestors(a, b, Elements(path));
  }

  lemma SameElements(a: string, b: string)
    requires MountPoint(a) && MountPoint(b) && AtOrAbove(a, b) && AtOrAbove(b, a)
    ensures a == b
  {
    var x := MountPointParts(a);
    var y := MountPointParts(b);
    assert x == y;
  }

  lemma BestIsDeepest(t: MountTable, path: string)
    requires Kernel(t) && Rooted(path)
    ensures var r := Best(t, Clean(path));
            if r == "" then forall m :: m in t ==> !AtOrAbove(m, path) else Deepest(t, path, r)
  {
    var r := Best(t, Clean(path));
    BestIsLongest(t, Clean(path));
    forall m | m in t ensures MountPoint(m) && (Holds(m, Clean(path)) <==> AtOrAbove(m, path)) {
      HoldsIsAtOrAbove(m, path);
    }
    forall m | m in t && AtOrAbove(m, path) && r != "" ensures AtOrAbove(m, r) {
      LongestIsDeepest(path, m, r);
    }
  }

  /** Containing returns the unique deepest mount point that is the path or an
      ancestor of it, and "" only if there is none. */
  lemma {:induction false} ContainingIsDeepest(t: MountTable, path: string, r: string)
    requires Kernel(t) && Rooted(path)
    ensures r != "" ==> (Best(t, Clean(path)) == r <==> Deepest(t, path, r))
    ensures Best(t, Clean(path)) == "" <==> forall m :: m in t ==> !AtOrAbove(m, path)
  {
    BestIsDeepest(t, path);
    var best := Best(t, Clean(path));
    BestIsLongest(t, Clean(path));
    if r != "" && Deepest(t, path, r) {
      SameElements(r, best);
    }
  }

  /** Every path between that mount point and the original is held by it. */
  lemma {:induction false} ContainingBetween(t: MountTable, path: string, between: string)
    requires Kernel(t) && Rooted(path) && Rooted(between)
    requires var r := Best(t, Clean(path)); r != "" && AtOrAbove(r, between) && AtOrAbove(between, path)
    ensures Best(t, Clean(between)) == Best(t, Clean(path))
  {
    var r := Best(t, Clean(path));
    ContainingIsDeepest(t, path, r);
    forall m | m in t && AtOrAbove(m, between) ensures AtOrAbove(m, r) {
      AboveTransitive(m, between, path);
    }
    ContainingIsDeepest(t, between, r);
  }

  lemma AboveTransitive(a: string, b: string, c: string)
    requires AtOrAbove(a, b) && AtOrAbove(b, c)
    ensures AtOrAbove(a, c)
  {
  }

  // ---- escaped mount points ----

  predicate IsOctal(s: string) { |s| == 3 && forall i :: 0 <= i < 3 ==> '0' <= s[i] <= '7' }

  /** The byte of three octal digits; byte arithmetic wraps. */
  function Octal(s: string): char
    requires IsOctal(s)
  {
    (((s[0] as int - '0' as int) * 64 % 256 + (s[1] as int - '0' as int) * 8
      + (s[2] as int - '0' as int)) % 256) as char
  }

  function Unescape(s: string): string {
    if s == [] then []
    else if s[0] == '\\' && 3 < |s| && IsOctal(s[1..4]) then [Octal(s[1..4])] + Unescape(s[4..])
    else [s[0]] + Unescape(s[1..])
  }

  lemma UnescapeAt(s: string, i: nat)
    requires i < |s|
    ensures Unescape(s[i..]) ==
            if s[i] == '\\' && i + 3 < |s| && IsOctal(s[i + 1..i + 4])
            then [Octal(s[i + 1..i + 4])] + Unescape(s[i + 4..])
            else [s[i]] + Unescape(s[i + 1..])
  {
    var t := s[i..];
    if i + 3 < |s| {
      assert t[1..4] == s[i + 1..i + 4] && t[4..] == s[i + 4..];
    }
    assert t[1..] == s[i + 1..];
  }

  lemma Regroup(a: string, c: char, b: string)
    ensures (a + [c]) + b == a + ([c] + b)
  {
  }

  method UnescapeMount(s: string) returns (r: string)
    ensures r == Unescape(s)
  {
    if '\\' !in s {
      UnescapePlain(s);
      return s;
    }
    r := "";
    var i := 0;
    while i < |s|
      invariant 0 <= i <= |s|
      invariant r + Unescape(s[i..]) == Unescape(s)
    {
      if s[i] == '\\' && i + 3 < |s| && IsOctal(s[i + 1..i + 4]) {
        UnescapeAt(s, i);
        Regroup(r, Octal(s[i + 1..i + 4]), Unescape(s[i + 4..]));
        r := r + [Octal(s[i + 1..i + 4])];
        i := i + 4;
      } else {
        UnescapeAt(s, i);
        Regroup(r, s[i], Unescape(s[i + 1..]));
        r := r + [s[i]];
        i := i + 1;
      }
    }
  }

  lemma {:induction false} UnescapePlain(s: string)
    requires '\\' !in s
    ensures Unescape(s) == s
  {
    if s != [] {
      UnescapePlain(s[1..]);
    }
  }

  predicate Bytes(s: string) { forall i :: 0 <= i < |s| ==> s[i] as int < 256 }

  function OctalDigit(d: int): char
    requires 0 <= d < 8
  {
    ('0' as int + d) as char
  }

  /** The kernel's mangling of the bytes in esc. */
  function Escape(s: string, esc: set<char>): string
    requires Bytes(s)
  {
    if s == [] then []
    else
      var c := s[0] as int;
      (if s[0] in esc then ['\\', OctalDigit(c / 64), OctalDigit(c / 8 % 8), OctalDigit(c % 8)] else [s[0]])
      + Escape(s[1..], esc)
  }

  lemma OctalOfDigits(c: char)
    requires c as int < 256
    ensures var d := [OctalDigit(c as int / 64), OctalDigit(c as int / 8 % 8), OctalDigit(c as int % 8)];
            IsOctal(d) && Octal(d) == c
  {
    var x := c as int;
    assert x == x / 64 * 64 + x / 8 % 8 * 8 + x % 8;
  }

  /** Decoding inverts the kernel's escaping, for every byte string and every
      set of escaped bytes with the backslash in it; mountinfo escapes space,
      tab, newline and backslash. */
  lemma {:induction false} UnescapeInvertsEscape(s: string, esc: set<char>)
    requires Bytes(s) && '\\' in esc
    ensures Unescape(Escape(s, esc)) == s
  {
    if s != [] {
      UnescapeInvertsEscape(s[1..], esc);
      var e, rest := Escape(s, esc), Escape(s[1..], esc);
      if s[0] in esc {
        var c := s[0] as int;
        OctalOfDigits(s[0]);
        assert e[1..4] == [OctalDigit(c / 64), OctalDigit(c / 8 % 8), OctalDigit(c % 8)];
        assert e[4..] == rest;
      } else {
        assert e[1..] == rest;
      }
    }
  }

  lemma MountInfoRoundTrip(mount: string)
    requires Bytes(mount)
    ensures Unescape(Escape(mount, {' ', '\t', '\n', '\\'})) == mount
  {
    UnescapeInvertsEscape(mount, {' ', '\t', '\n', '\\'});
  }
}
