/** What a shared folder offers (internal/transfer/download.go): the listing
    by Walk against the lookup by Stat and Join. The directory tree does not
    change meanwhile and every folder in it can be read. */
module SharedFolders {
  import opened Options
  import opened Text
  import opened Paths
  import Utf8

  datatype Node = File(size: nat) | Dir(children: seq<Child>) | Symlink | Special
  datatype Child = Child(name: string, node: Node)

  datatype Found = Found(node: Node) | BadPath | NoSuch | NotPlain
  datatype Joined = Inside(path: string) | Bad | Leaves

  const MAX_PATH := 4096
  const MAX_LISTED := 20000

  /** File names are plain path elements, different within a folder. */
  ghost predicate WellFormed(n: Node) {
    n.Dir? ==>
      && (forall i :: 0 <= i < |n.children| ==> PlainPart(n.children[i].name) && WellFormed(n.children[i].node))
      && (forall i, j :: 0 <= i < j < |n.children| ==> n.children[i].name != n.children[j].name)
  }

  predicate IsPartial(name: string) { HasPrefix(name, ".vault-partial-") }

  // ---- paths ----

  function TrimLeft(s: string): string {
    if s != [] && s[0] == '/' then TrimLeft(s[1..]) else s
  }

  function TrimRight(s: string): string {
    if s != [] && s[|s| - 1] == '/' then TrimRight(s[..|s| - 1]) else s
  }

  function Trim(s: string): string { TrimRight(TrimLeft(s)) }

  /** The limits of CleanRel that do not concern the path's shape. */
  predicate Fits(s: string) { |s| <= MAX_PATH && Utf8.Valid(s) && '\0' !in s }

  /** Exactly the relative paths CleanRel returns. */
  predicate CleanPath(s: string) { s != "" && Fits(s) && Plain(Split(s, '/')) }

  method CleanRel(rel: string) returns (r: Option<string>)
    ensures r == if CleanPath(Trim(rel)) then Some(Trim(rel)) else None
  {
    var s := Trim(rel);
    if s == "" || |s| > MAX_PATH || !Utf8.Valid(s) || '\0' in s {
      return None;
    }
    var parts := Split(s, '/');
    SplitApart(s, '/');
    for i := 0 to |parts|
      invariant Plain(parts[..i])
    {
      if parts[i] == "" || parts[i] == "." || parts[i] == ".." {
        assert !PlainPart(parts[i]);
        return None;
      }
    }
    assert parts[..|parts|] == parts;
    return Some(s);
  }

  /** Trim takes the slashes from both ends, and nothing else. */
  lemma {:induction false} TrimLeftExactly(s: string) returns (k: nat)
    ensures k <= |s| && TrimLeft(s) == s[k..] && (forall i :: 0 <= i < k ==> s[i] == '/') && (k < |s| ==> s[k] != '/')
  {
    if s != [] && s[0] == '/' {
      var j := TrimLeftExactly(s[1..]);
      k := j + 1;
      forall i | 0 < i < k ensures s[i] == '/' {
        assert s[i] == s[1..][i - 1];
      }
    } else {
      k := 0;
    }
  }

  lemma {:induction false} TrimRightExactly(s: string) returns (k: nat)
    ensures k <= |s| && TrimRight(s) == s[..k]
    ensures (forall i :: k <= i < |s| ==> s[i] == '/') && (k > 0 ==> s[k - 1] != '/')
  {
    if s != [] && s[|s| - 1] == '/' {
      k := TrimRightExactly(s[..|s| - 1]);
    } else {
      k := |s|;
    }
  }

  lemma TrimExactly(s: string) returns (i: nat, j: nat)
    ensures i <= j <= |s| && Trim(s) == s[i..j]
    ensures forall k :: 0 <= k < i || j <= k < |s| ==> s[k] == '/'
    ensures i < j ==> s[i] != '/' && s[j - 1] != '/'
  {
    i := TrimLeftExactly(s);
    var t := s[i..];
    var k := TrimRightExactly(t);
    j := i + k;
    assert t[..k] == s[i..j];
    forall n | j <= n < |s| ensures s[n] == '/' {
      assert s[n] == t[n - i];
    }
    if k > 0 {
      assert t[k - 1] == s[j - 1];
    }
  }

  /** Which relative paths are taken. */
  lemma CleanPathExactly(s: string)
    ensures CleanPath(s) <==>
              && s != "" && |s| <= 4096 && Utf8.Valid(s) && (forall i :: 0 <= i < |s| ==> s[i] as int != 0)
              && forall i :: 0 <= i < |Split(s, '/')| ==> Split(s, '/')[i] !in ["", ".", ".."]
  {
    SplitApart(s, '/');
    assert (forall i :: 0 <= i < |s| ==> s[i] as int != 0) <==> '\0' !in s;
    forall i | 0 <= i < |Split(s, '/')| ensures PlainPart(Split(s, '/')[i]) <==> Split(s, '/')[i] !in ["", ".", ".."] {
    }
  }

  function JoinSpec(base: string, sub: string): Joined {
    if !CleanPath(Trim(sub)) then Bad
    else
      var full := PathJoin(base, Trim(sub));
      if HasPrefix(full, base + "/") then Inside(full) else Leaves
  }

  method JoinPath(base: string, sub: string) returns (r: Joined)
    ensures r == JoinSpec(base, sub)
  {
    var s := CleanRel(sub);
    if s.None? {
      return Bad;
    }
    var full := PathJoin(base, s.value);
    if !HasPrefix(full, base + "/") {
      return Leaves;
    }
    return Inside(full);
  }

  /** Under a clean base, Join is base + "/" + the cleaned path for every path
      that CleanRel takes; it never leaves the base, whatever the base is. */
  lemma JoinStaysInside(base: string, sub: string)
    ensures JoinSpec(base, sub).Inside? ==> HasPrefix(JoinSpec(base, sub).path, base + "/")
    ensures CleanPath(base) && CleanPath(Trim(sub)) ==>
              && JoinSpec(base, sub) == Inside(base + "/" + Trim(sub))
              && Elements(base + "/" + Trim(sub)) == Elements(base) + Elements(Trim(sub))
  {
    if CleanPath(base) && CleanPath(Trim(sub)) {
      var c := Trim(sub);
      PlainJoin(base, c);
      assert HasPrefix(base + "/" + c, base + "/");
    }
  }

  lemma PlainJoin(base: string, c: string)
    requires base != "" && c != "" && Plain(Split(base, '/')) && Plain(Split(c, '/'))
    ensures PathJoin(base, c) == base + "/" + c && Elements(base + "/" + c) == Elements(base) + Elements(c)
  {
    var a, b := Split(base, '/'), Split(c, '/');
    JoinSplit(base, '/');
    JoinSplit(c, '/');
    JoinConcat(a, b, "/");
    RelativeElements(a);
    RelativeElements(b);
    RelativeElements(a + b);
  }

  // ---- Stat ----

  function Lookup(children: seq<Child>, name: string): Option<Node> {
    if children == [] then None
    else if children[0].name == name then Some(children[0].node)
    else Lookup(children[1..], name)
  }

  /** Lstat of a path below a folder: no symlink is followed. */
  function Lstat(n: Node, parts: seq<string>): Option<Node>
    decreases |parts|
  {
    if parts == [] then Some(n)
    else
      var dir := Lstat(n, parts[..|parts| - 1]);
      if dir.Some? && dir.value.Dir? then Lookup(dir.value.children, parts[|parts| - 1]) else None
  }

  /** What Stat answers for a path below the folder n. */
  function StatAt(n: Node, parts: seq<string>): Found
    requires parts != []
    decreases |parts|
  {
    if !n.Dir? then NoSuch
    else
      var c := Lookup(n.children, parts[0]);
      if c.None? || IsPartial(parts[0]) then NoSuch
      else if c.value.Symlink? then NotPlain
      else if |parts| == 1 then (if c.value.Special? then NotPlain else Found(c.value))
      else if !c.value.Dir? then NoSuch
      else StatAt(c.value, parts[1..])
  }

  function StatSpec(root: Node, rel: string): Found {
    if CleanPath(Trim(rel)) then StatAt(root, Split(Trim(rel), '/')) else BadPath
  }

  method Stat(root: Node, rel: string) returns (r: Found)
    requires root.Dir?
    ensures r == StatSpec(root, rel)
  {
    var clean := CleanRel(rel);
    if clean.None? {
      return BadPath;
    }
    var parts := Split(clean.value, '/');
    var info := root;
    for i := 0 to |parts|
      invariant i < |parts| ==> info.Dir? && StatAt(info, parts[i..]) == StatAt(root, parts)
      invariant i == |parts| ==> StatAt(root, parts) == Found(info)
      invariant Lstat(root, parts[..i]) == Some(info)
    {
      assert parts[..i + 1][..i] == parts[..i];
      assert parts[i..][1..] == parts[i + 1..];
      var next := Lstat(root, parts[..i + 1]);
      if next.None? {
        return NoSuch;
      }
      if IsPartial(parts[i]) {
        return NoSuch;
      }
      var last := i == |parts| - 1;
      if next.value.Symlink? {
        return NotPlain;
      } else if !last && !next.value.Dir? {
        return NoSuch;
      } else if last && !next.value.Dir? && !next.value.File? {
        return NotPlain;
      }
      info := next.value;
    }
    return Found(info);
  }

  /** The size of the regular file Stat finds, if it finds one. */
  function FileAt(n: Node, parts: seq<string>): Option<nat>
    decreases |parts|
  {
    if parts == [] then (if n.File? then Some(n.size) else None)
    else if !n.Dir? || IsPartial(parts[0]) || Lookup(n.children, parts[0]).None? then None
    else FileAt(Lookup(n.children, parts[0]).value, parts[1..])
  }

  lemma {:induction false} StatIsFileAt(n: Node, parts: seq<string>)
    requires parts != []
    ensures FileAt(n, parts) ==
              if StatAt(n, parts).Found? && StatAt(n, parts).node.File? then Some(StatAt(n, parts).node.size) else None
    decreases |parts|
  {
    if n.Dir? && !IsPartial(parts[0]) && Lookup(n.children, parts[0]).Some? {
      var c := Lookup(n.children, parts[0]).value;
      if |parts| > 1 {
        if c.Dir? { StatIsFileAt(c, parts[1..]); }
      } else {
        assert parts[1..] == [];
      }
    }
  }

  lemma {:induction false} StatBelow(n: Node, a: seq<string>, b: seq<string>)
    requires a != [] && b != [] && StatAt(n, a).Found? && StatAt(n, a).node.Dir?
    ensures StatAt(n, a + b) == StatAt(StatAt(n, a).node, b)
    decreases |a|
  {
    var c := Lookup(n.children, a[0]).value;
    if |a| == 1 {
      assert (a + b)[1..] == b;
    } else {
      assert (a + b)[1..] == a[1..] + b;
      StatBelow(c, a[1..], b);
    }
  }
}
