/** Adding Vault's load line to a Hyprland config and taking it out again
    (internal/shortcuts/install.go for hyprland.conf, internal/shortcuts/lua.go
    for hyprland.lua). Text is a sequence of decoded characters. */
module ConfigText {
  import opened Options
  import opened Text

  /** What Vault adds, a comment and the line that loads its file; the header
      of that file; which lines of a config load it, and which are Vault's. */
  datatype Format = Format(note: string, line: string, header: string, loads: string -> bool, ours: string -> bool)

  const SOURCE_NOTE := "# Omarchy Vault shortcuts " + "(remove with: vaultctl " + "shortcuts remove)"
  const SOURCE_LINE := "source = " + "~/.config/hypr" + "/omarchy-vault.conf"
  const LUA_NOTE := "-- Omarchy Vault shortcuts " + "(remove with: vaultctl " + "shortcuts remove)"
  const LUA_LINE := "pcall(dofile, (os.getenv(" + "\"HOME\") or \"\") .. " + "\"/.config/hypr/" + "omarchy_vault.lua\")"
  const FILE_HEADER := "# Omarchy Vault shortcuts. " +
    ("Managed by " + "`vaultctl shortcuts`; ") + ("remove with `vaultctl " + "shortcuts remove`.")
  const LUA_HEADER := "-- Omarchy Vault shortcuts. " +
    ("Managed by " + "`vaultctl shortcuts`; ") + ("remove with `vaultctl " + "shortcuts remove`.")

  // ---- blank lines ----

  /** strings.TrimRight(s, "\n"). */
  function TrimNewlines(s: string): (r: string)
    ensures r <= s && (r != "" ==> r[|r| - 1] != '\n')
  {
    if s != "" && s[|s| - 1] == '\n' then TrimNewlines(s[..|s| - 1]) else s
  }

  predicate TripleAt(s: string, i: int) { 0 <= i < |s| - 2 && s[i] == s[i + 1] == s[i + 2] == '\n' }
  predicate HasTriple(s: string) { exists i :: 0 <= i < |s| - 2 && TripleAt(s, i) }

  function ReplaceTriples(s: string): string { ReplaceAll(s, "\n\n\n", "\n\n") }

  lemma TriplesUnfold(s: string)
    ensures ReplaceTriples(s) ==
            if s == "" then ""
            else if TripleAt(s, 0) then "\n\n" + ReplaceTriples(s[3..])
            else [s[0]] + ReplaceTriples(s[1..])
  {
    if |s| >= 3 {
      assert TripleAt(s, 0) <==> s[..3] == "\n\n\n";
    }
  }

  /** What collapsing means: no newline is kept after two others. k newlines
      have just been kept. */
  function Squeeze(k: nat, s: string): string
    requires k <= 2
    decreases |s|
  {
    if s == "" then ""
    else if s[0] != '\n' then [s[0]] + Squeeze(0, s[1..])
    else if k == 2 then Squeeze(2, s[1..])
    else ['\n'] + Squeeze(k + 1, s[1..])
  }

  /** k newlines and then s make no three in a row at the start. */
  predicate StartsOk(k: nat, s: string) {
    (k == 2 ==> s == "" || s[0] != '\n') && (k == 1 ==> |s| < 2 || s[0] != '\n' || s[1] != '\n')
  }

  lemma SqueezeNewline(k: nat, t: string)
    requires k <= 2
    ensures Squeeze(k, "\n" + t) == if k == 2 then Squeeze(2, t) else "\n" + Squeeze(k + 1, t)
  {
    assert ("\n" + t)[1..] == t;
  }

  lemma TwoOrThree(k: nat, t: string, r: string)
    requires k <= 2 && Squeeze(2, r) == Squeeze(2, t)
    ensures Squeeze(k, "\n" + ("\n" + r)) == Squeeze(k, "\n" + ("\n" + ("\n" + t)))
  {
    SqueezeNewline(2, t);
    SqueezeNewline(k, "\n" + r);
    SqueezeNewline(k, "\n" + ("\n" + t));
    var k1 := if k == 2 then 2 else k + 1;
    SqueezeNewline(k1, r);
    SqueezeNewline(k1, "\n" + t);
  }

  lemma {:induction false} SqueezeReplaced(k: nat, s: string)
    requires k <= 2
    ensures Squeeze(k, ReplaceTriples(s)) == Squeeze(k, s)
    decreases |s|
  {
    TriplesUnfold(s);
    if s == "" {
    } else if TripleAt(s, 0) {
      var t := s[3..];
      SqueezeReplaced(2, t);
      assert s == "\n" + ("\n" + ("\n" + t));
      assert "\n\n" + ReplaceTriples(t) == "\n" + ("\n" + ReplaceTriples(t));
      TwoOrThree(k, t, ReplaceTriples(t));
    } else {
      SqueezeReplaced(0, s[1..]);
      SqueezeReplaced(1, s[1..]);
      SqueezeReplaced(2, s[1..]);
      var r := ReplaceTriples(s[1..]);
      assert ([s[0]] + r)[1..] == r;
    }
  }

  lemma {:induction false} ReplaceShrinks(s: string)
    ensures |ReplaceTriples(s)| <= |s|
    ensures HasTriple(s) ==> |ReplaceTriples(s)| < |s|
    decreases |s|
  {
    TriplesUnfold(s);
    if s == "" {
    } else if TripleAt(s, 0) {
      ReplaceShrinks(s[3..]);
    } else {
      ReplaceShrinks(s[1..]);
      if i :| 0 <= i < |s| - 2 && TripleAt(s, i) {
        assert TripleAt(s[1..], i - 1);
      }
    }
  }

  lemma {:induction false} SqueezeIdentity(k: nat, s: string)
    requires k <= 2 && !HasTriple(s) && StartsOk(k, s)
    ensures Squeeze(k, s) == s
    decreases |s|
  {
    if s != "" {
      var t := s[1..];
      forall i | 0 <= i < |t| - 2 ensures !TripleAt(t, i) {
        assert TripleAt(t, i) ==> TripleAt(s, i + 1);
      }
      if s[0] == '\n' {
        assert |s| > 2 ==> !TripleAt(s, 0);
        SqueezeIdentity(k + 1, t);
      } else {
        SqueezeIdentity(0, t);
      }
    }
  }

  lemma {:induction false} SqueezeNoTriple(k: nat, s: string)
    requires k <= 2
    ensures !HasTriple(Squeeze(k, s)) && StartsOk(k, Squeeze(k, s))
    decreases |s|
  {
    if s == "" {
    } else if s[0] != '\n' {
      SqueezeNoTriple(0, s[1..]);
      Prepend(s[0], Squeeze(0, s[1..]));
    } else if k == 2 {
      SqueezeNoTriple(2, s[1..]);
    } else {
      SqueezeNoTriple(k + 1, s[1..]);
      Prepend('\n', Squeeze(k + 1, s[1..]));
    }
  }

  lemma Prepend(c: char, t: string)
    requires !HasTriple(t) && (c == '\n' ==> StartsOk(1, t))
    ensures !HasTriple([c] + t)
  {
    var s := [c] + t;
    forall i | 0 <= i < |s| - 2 ensures !TripleAt(s, i) {
      if TripleAt(s, i) && i > 0 {
        assert TripleAt(t, i - 1);
      }
    }
  }

  /** The loop that replaces three newlines by two until none are left. */
  method CollapseBlank(s: string) returns (cleaned: string)
    ensures cleaned == Squeeze(0, s) && !HasTriple(cleaned)
  {
    cleaned := s;
    while HasTriple(cleaned)
      invariant Squeeze(0, cleaned) == Squeeze(0, s)
      decreases |cleaned|
    {
      SqueezeReplaced(0, cleaned);
      ReplaceShrinks(cleaned);
      cleaned := ReplaceTriples(cleaned);
    }
    SqueezeIdentity(0, cleaned);
  }

  // ---- lines ----

  function Lines(s: string): seq<string> { Split(s, '\n') }

  lemma {:induction false} SplitPrepend(c: char, t: string, sep: char)
    requires c != sep
    ensures Split([c] + t, sep) == Longer(c, Split(t, sep))
  {
    var s := [c] + t;
    if t == "" {
      assert s == [c];
      SplitNone(s, sep);
    } else {
      var t' := t[..|t| - 1];
      SplitPrepend(c, t', sep);
      assert s[..|s| - 1] == [c] + t' && s[|s| - 1] == t[|t| - 1];
      SplitLast(s, sep);
      SplitLast(t, sep);
      ExtendLonger(Split(t', sep), c, t[|t| - 1], sep);
    }
  }

  /** The parts with a character before the first one. */
  function Longer(c: char, parts: seq<string>): seq<string>
    requires parts != []
  {
    [[c] + parts[0]] + parts[1..]
  }

  lemma ExtendLonger(r: seq<string>, c: char, x: char, sep: char)
    requires r != []
    ensures Extend(Longer(c, r), x, sep) == Longer(c, Extend(r, x, sep))
  {
    var n := |r| - 1;
    if x != sep {
      if n == 0 {
        assert [c] + r[0] + [x] == [c] + (r[0] + [x]);
      } else {
        assert Longer(c, r)[..n] == [[c] + r[0]] + r[1..n];
      }
    }
  }

  lemma NewlineFirst(t: string)
    ensures Lines("\n" + t) == [""] + Lines(t)
    ensures NonEmpty(Lines("\n" + t)) == NonEmpty(Lines(t))
  {
    assert "\n" + t == [] + ['\n'] + t;
    SplitConcat([], t, '\n');
    assert ([""] + Lines(t))[1..] == Lines(t);
  }

  /** Collapsing blank lines keeps the other lines. */
  lemma {:induction false} SqueezeLines(k: nat, s: string)
    requires k <= 2
    ensures NonEmpty(Lines(Squeeze(k, s))) == NonEmpty(Lines(s))
    ensures k == 0 ==> Lines(Squeeze(k, s))[0] == Lines(s)[0]
    decreases |s|
  {
    if s == "" {
    } else if s[0] == '\n' {
      var k1 := if k == 2 then 2 else k + 1;
      SqueezeLines(k1, s[1..]);
      assert s == "\n" + s[1..];
      NewlineFirst(s[1..]);
      NewlineFirst(Squeeze(k1, s[1..]));
    } else {
      var t := s[1..];
      SqueezeLines(0, t);
      assert s == [s[0]] + t;
      SplitPrepend(s[0], t, '\n');
      SplitPrepend(s[0], Squeeze(0, t), '\n');
      NonEmptyLonger(s[0], Lines(t), Lines(Squeeze(0, t)));
    }
  }

  lemma NonEmptyOfLonger(c: char, a: seq<string>)
    requires a != []
    ensures NonEmpty(Longer(c, a)) == [[c] + a[0]] + NonEmpty(a[1..])
  {
    assert Longer(c, a)[1..] == a[1..];
  }

  lemma SameRest(x: seq<string>, y: seq<string>, first: seq<string>)
    requires first + x == first + y
    ensures x == y
  {
    assert (first + x)[|first|..] == x && (first + y)[|first|..] == y;
  }

  lemma NonEmptyFirst(a: seq<string>) returns (first: seq<string>, rest: seq<string>)
    requires a != []
    ensures first == (if a[0] == "" then [] else [a[0]]) && rest == NonEmpty(a[1..]) && NonEmpty(a) == first + rest
  {
    first, rest := if a[0] == "" then [] else [a[0]], NonEmpty(a[1..]);
  }

  lemma NonEmptyLonger(c: char, a: seq<string>, b: seq<string>)
    requires a != [] && b != [] && a[0] == b[0] && NonEmpty(a) == NonEmpty(b)
    ensures NonEmpty(Longer(c, a)) == NonEmpty(Longer(c, b))
  {
    var f, x := NonEmptyFirst(a);
    var g, y := NonEmptyFirst(b);
    SameRest(x, y, f);
    NonEmptyOfLonger(c, a);
    NonEmptyOfLonger(c, b);
  }

  lemma {:induction false} TrimNewlinesLines(s: string)
    ensures NonEmpty(Lines(TrimNewlines(s))) == NonEmpty(Lines(s))
    ensures NonEmpty(Lines(s + "\n")) == NonEmpty(Lines(s))
  {
    NewlineLast(s);
    if s != "" && s[|s| - 1] == '\n' {
      TrimNewlinesLines(s[..|s| - 1]);
      NewlineLast(s[..|s| - 1]);
      assert s == s[..|s| - 1] + "\n";
    }
  }

  lemma NewlineLast(s: string)
    ensures Lines(s + "\n") == Lines(s) + [""]
    ensures NonEmpty(Lines(s + "\n")) == NonEmpty(Lines(s))
  {
    assert (s + "\n")[..|s|] == s;
    SplitLast(s + "\n", '\n');
    NonEmptyConcat(Lines(s), [""]);
    assert [""][1..] == [];
  }

  // ---- taking the lines out ----

  function Drop(f: Format, parts: seq<string>): seq<string> {
    if parts == [] then []
    else Drop(f, parts[..|parts| - 1]) + if f.ours(parts[|parts| - 1]) then [] else [parts[|parts| - 1]]
  }

  /** The text without Vault's lines. */
  function Cleaned(f: Format, c: string): string {
    TrimNewlines(Squeeze(0, Join(Drop(f, Lines(c)), "\n"))) + "\n"
  }

  /** writeWithout, and the same steps in Remove. */
  method Clean(f: Format, content: string) returns (cleaned: string)
    ensures cleaned == Cleaned(f, content)
  {
    var lines, out := Split(content, '\n'), [];
    for i := 0 to |lines|
      invariant out == Drop(f, lines[..i])
    {
      assert lines[..i + 1][..i] == lines[..i];
      if !f.ours(lines[i]) {
        out := out + [lines[i]];
      }
    }
    assert lines[..|lines|] == lines;
    cleaned := CollapseBlank(Join(out, "\n"));
    cleaned := TrimNewlines(cleaned) + "\n";
  }

  /** Ends in exactly one newline, has no run of three newlines and no line
      that is one of Vault's. */
  ghost predicate Normal(f: Format, c: string) {
    && c == TrimNewlines(c) + "\n" && !HasTriple(c)
    && forall i :: 0 <= i < |Lines(c)| ==> !f.ours(Lines(c)[i])
  }

  /** The lines that are neither empty nor Vault's. */
  function Own(f: Format, c: string): seq<string> { NonEmpty(Drop(f, Lines(c))) }

  lemma {:induction false} DropApart(f: Format, parts: seq<string>)
    requires Apart(parts, '\n')
    ensures Apart(Drop(f, parts), '\n')
  {
    if parts != [] {
      DropApart(f, parts[..|parts| - 1]);
    }
  }

  lemma {:induction false} DropMembers(f: Format, parts: seq<string>, l: string)
    ensures l in Drop(f, parts) <==> l in parts && !f.ours(l)
  {
    if parts != [] {
      var rest := parts[..|parts| - 1];
      DropMembers(f, rest, l);
      assert l in parts <==> l in rest || l == parts[|parts| - 1];
    }
  }

  lemma {:induction false} DropNothing(f: Format, parts: seq<string>)
    requires forall i :: 0 <= i < |parts| ==> !f.ours(parts[i])
    ensures Drop(f, parts) == parts
  {
    if parts != [] {
      DropNothing(f, parts[..|parts| - 1]);
    }
  }

  lemma {:induction false} DropConcat(f: Format, a: seq<string>, b: seq<string>)
    ensures Drop(f, a + b) == Drop(f, a) + Drop(f, b)
  {
    if b == [] {
      assert a + b == a;
    } else {
      assert (a + b)[..|a + b| - 1] == a + b[..|b| - 1];
      DropConcat(f, a, b[..|b| - 1]);
    }
  }

  /** Whatever the config was, its other lines are kept, in order and byte for
      byte. */
  lemma RemoveKeepsLines(f: Format, c: string)
    ensures NonEmpty(Lines(Cleaned(f, c))) == Own(f, c)
  {
    var out := Drop(f, Lines(c));
    var joined := Join(out, "\n");
    SplitApart(c, '\n');
    DropApart(f, Lines(c));
    if out != [] {
      SplitJoin(out, '\n');
    }
    SqueezeLines(0, joined);
    TrimNewlinesLines(Squeeze(0, joined));
    NewlineLast(TrimNewlines(Squeeze(0, joined)));
  }

  lemma {:induction false} TrimAgain(s: string)
    ensures TrimNewlines(TrimNewlines(s) + "\n") == TrimNewlines(s)
  {
    var t := TrimNewlines(s);
    assert (t + "\n")[..|t|] == t;
  }

  lemma NoTripleAtEnd(s: string, t: string)
    requires !HasTriple(s) && t <= s && (t != "" ==> t[|t| - 1] != '\n')
    ensures !HasTriple(t + "\n") && !HasTriple(t + "\n\n")
  {
    forall i, u | u in [t + "\n", t + "\n\n"] && 0 <= i < |u| - 2 ensures !TripleAt(u, i) {
      if i < |t| - 2 {
        assert TripleAt(u, i) ==> TripleAt(s, i);
      }
    }
  }

  /** What Remove leaves is always normal. */
  lemma RemoveIsNormal(f: Format, c: string)
    requires WellFormed(f)
    ensures Normal(f, Cleaned(f, c))
  {
    var s := Squeeze(0, Join(Drop(f, Lines(c)), "\n"));
    var r := Cleaned(f, c);
    TrimAgain(s);
    SqueezeNoTriple(0, Join(Drop(f, Lines(c)), "\n"));
    NoTripleAtEnd(s, TrimNewlines(s));
    RemoveKeepsLines(f, c);
    forall i | 0 <= i < |Lines(r)| ensures !f.ours(Lines(r)[i]) {
      var l := Lines(r)[i];
      if l != "" {
        NonEmptyMembers(Lines(r), l);
        NonEmptyMembers(Drop(f, Lines(c)), l);
        DropMembers(f, Lines(c), l);
      }
    }
  }

  /** Remove changes nothing in a normal config. */
  lemma NormalIsKept(f: Format, c: string)
    requires Normal(f, c)
    ensures Cleaned(f, c) == c
  {
    DropNothing(f, Lines(c));
    JoinSplit(c, '\n');
    SqueezeIdentity(0, c);
  }

  /** So Remove is idempotent, on every config. */
  lemma RemoveTwice(f: Format, c: string)
    requires WellFormed(f)
    ensures Cleaned(f, Cleaned(f, c)) == Cleaned(f, c)
  {
    RemoveIsNormal(f, c);
    NormalIsKept(f, Cleaned(f, c));
  }

  // ---- putting the lines in ----

  function StripComment(s: string): string {
    var t := ReplaceAll(s, "##", "\0HASH\0");
    var u := Split(t, '#')[0];
    ReplaceAll(u, "\0HASH\0", "#")
  }

  /** hasSourceLine's test of a line. */
  predicate LoadsConf(l: string) {
    var t := Join(FieldsFunc(StripComment(l), IsSpace), " ");
    t == SOURCE_LINE || (HasSuffix(t, "/omarchy-vault.conf") && HasPrefix(t, "source ="))
  }

  /** hasLuaLoadLine's test of a line. */
  predicate LoadsLua(l: string) {
    var t := TrimSpace(l);
    !HasPrefix(t, "--") && Contains(t, "omarchy_vault.lua")
  }

  predicate OursConf(l: string) { TrimSpace(l) == SOURCE_NOTE || TrimSpace(l) == SOURCE_LINE }
  predicate OursLua(l: string) { TrimSpace(l) == LUA_NOTE || TrimSpace(l) == LUA_LINE }

  const CONF := Format(SOURCE_NOTE, SOURCE_LINE, FILE_HEADER, LoadsConf, OursConf)
  const LUA := Format(LUA_NOTE, LUA_LINE, LUA_HEADER, LoadsLua, OursLua)

  /** What is added is two whole lines, and known as Vault's; an empty line is
      nothing. */
  ghost predicate WellFormed(f: Format) {
    '\n' !in f.note && '\n' !in f.line && f.ours(f.note) && f.ours(f.line) && !f.ours("") && !f.loads("")
  }

  lemma ConfNoteOneLine()
    ensures '\n' !in SOURCE_NOTE
  {
    assert '\n' !in "# Omarchy Vault shortcuts ";
    assert '\n' !in "(remove with: vaultctl ";
    assert '\n' !in "shortcuts remove)";
  }

  lemma ConfLineOneLine()
    ensures '\n' !in SOURCE_LINE
  {
    assert '\n' !in "source = ";
    assert '\n' !in "~/.config/hypr";
    assert '\n' !in "/omarchy-vault.conf";
  }

  lemma LuaNoteOneLine()
    ensures '\n' !in LUA_NOTE
  {
    assert '\n' !in "-- Omarchy Vault shortcuts ";
    assert '\n' !in "(remove with: vaultctl ";
    assert '\n' !in "shortcuts remove)";
  }

  lemma LuaLineOneLine()
    ensures '\n' !in LUA_LINE
  {
    assert '\n' !in "pcall(dofile, (os.getenv(";
    assert '\n' !in "\"HOME\") or \"\") .. ";
    assert '\n' !in "\"/.config/hypr/";
    assert '\n' !in "omarchy_vault.lua\")";
  }

  predicate AnyLoads(f: Format, lines: seq<string>) { exists i :: 0 <= i < |lines| && f.loads(lines[i]) }
  predicate Loaded(f: Format, c: string) { AnyLoads(f, Lines(c)) }

  method HasLoadLine(f: Format, conf: string) returns (has: bool)
    ensures has <==> Loaded(f, conf)
  {
    var lines := Split(conf, '\n');
    for i := 0 to |lines|
      invariant forall j :: 0 <= j < i ==> !f.loads(lines[j])
    {
      if f.loads(lines[i]) {
        return true;
      }
    }
    return false;
  }

  /** The config after Install. */
  function WithLine(f: Format, c: string): string {
    if Loaded(f, c) then c
    else (if HasSuffix(c, "\n") then c else c + "\n") + "\n" + f.note + "\n" + f.line + "\n"
  }

  lemma LineThen(l: string, rest: string)
    requires '\n' !in l
    ensures Lines(l + "\n" + rest) == [l] + Lines(rest)
  {
    assert l + "\n" + rest == l + ['\n'] + rest;
    SplitConcat(l, rest, '\n');
    SplitNone(l, '\n');
  }

  lemma AddedLines(f: Format)
    requires WellFormed(f)
    ensures Lines(f.note + "\n" + (f.line + "\n" + "")) == [f.note, f.line, ""]
  {
    LineThen(f.line, "");
    LineThen(f.note, f.line + "\n" + "");
  }

  lemma Regroup(base: string, note: string, line: string)
    ensures base + "\n" + note + "\n" + line + "\n" == base + ['\n'] + (note + "\n" + (line + "\n" + ""))
  {
    assert line + "\n" + "" == line + "\n";
    assert note + "\n" + (line + "\n") == note + "\n" + line + "\n";
  }

  lemma BaseLines(c: string)
    ensures Lines(if HasSuffix(c, "\n") then c else c + "\n") == Lines(c) + if HasSuffix(c, "\n") then [] else [""]
  {
    NewlineLast(c);
    assert Lines(c) + [] == Lines(c);
  }

  /** The lines of the config after Install. */
  lemma WithLineLines(f: Format, c: string)
    requires WellFormed(f) && !Loaded(f, c)
    ensures Lines(WithLine(f, c)) == Lines(c) + (if HasSuffix(c, "\n") then [] else [""]) + [f.note, f.line, ""]
  {
    var base := if HasSuffix(c, "\n") then c else c + "\n";
    var tail := f.note + "\n" + (f.line + "\n" + "");
    BaseLines(c);
    AddedLines(f);
    Regroup(base, f.note, f.line);
    SplitConcat(base, tail, '\n');
  }

  lemma DropInstalled(f: Format, c: string)
    requires WellFormed(f) && Normal(f, c) && !Loaded(f, c)
    ensures Drop(f, Lines(WithLine(f, c))) == Lines(c) + [""]
  {
    assert c[|c| - 1] == '\n' && HasSuffix(c, "\n");
    WithLineLines(f, c);
    DropConcat(f, Lines(c), [f.note, f.line, ""]);
    DropNothing(f, Lines(c));
    DropAdded(f);
    assert Lines(c) + [] + [f.note, f.line, ""] == Lines(c) + [f.note, f.line, ""];
  }

  lemma JoinBlank(c: string)
    ensures Join(Lines(c) + [""], "\n") == c + "\n"
  {
    JoinSplit(c, '\n');
    JoinLast(Lines(c), "", "\n");
  }

  lemma CollapseOneBlank(c: string)
    requires c == TrimNewlines(c) + "\n" && !HasTriple(c)
    ensures TrimNewlines(Squeeze(0, c + "\n")) + "\n" == c
  {
    var t := TrimNewlines(c);
    assert c + "\n" == t + "\n\n";
    NoTripleAtEnd(c, t);
    SqueezeIdentity(0, t + "\n\n");
    TrimTwo(t);
  }

  /** Remove undoes Install byte for byte on a normal config. */
  lemma InstallThenRemove(f: Format, c: string)
    requires WellFormed(f) && Normal(f, c)
    ensures Cleaned(f, WithLine(f, c)) == c
  {
    if Loaded(f, c) {
      NormalIsKept(f, c);
    } else {
      DropInstalled(f, c);
      JoinBlank(c);
      CollapseOneBlank(c);
    }
  }

  lemma DropAdded(f: Format)
    requires WellFormed(f)
    ensures Drop(f, [f.note, f.line, ""]) == [""]
  {
    var three := [f.note, f.line, ""];
    assert three[..2] == [f.note, f.line] && three[..2][..1] == [f.note] && [f.note][..0] == [];
    assert Drop(f, [f.note]) == [];
    assert Drop(f, three[..2]) == [];
  }

  lemma TrimTwo(t: string)
    requires t != "" ==> t[|t| - 1] != '\n'
    ensures TrimNewlines(t + "\n\n") == t
  {
    var u, w := t + "\n\n", t + "\n";
    assert u[..|u| - 1] == w && w[..|w| - 1] == t;
    assert TrimNewlines(w) == TrimNewlines(t) == t;
  }

  /** Exactly on these, for every config whatever. */
  lemma RemoveUndoesInstall(f: Format, c: string)
    requires WellFormed(f)
    ensures Cleaned(f, WithLine(f, c)) == c <==> Normal(f, c)
  {
    RemoveIsNormal(f, WithLine(f, c));
    if Normal(f, c) {
      InstallThenRemove(f, c);
    }
  }

  /** A config without a last newline does not come back as it was. */
  lemma UnendedIsNotRestored()
    ensures Cleaned(CONF, WithLine(CONF, "a")) != "a"
  {
    BothFormats();
    RemoveIsNormal(CONF, WithLine(CONF, "a"));
  }

  lemma NoHash()
    ensures '#' !in SOURCE_LINE && '\0' !in SOURCE_LINE
  {
    assert '#' !in "source = " && '\0' !in "source = ";
    assert '#' !in "~/.config/hypr" && '\0' !in "~/.config/hypr";
    assert '#' !in "/omarchy-vault.conf" && '\0' !in "/omarchy-vault.conf";
  }

  lemma NoComment(s: string)
    requires '#' !in s && '\0' !in s
    ensures StripComment(s) == s
  {
    ReplaceNothing(s, "##", "\0HASH\0");
    SplitNone(s, '#');
    ReplaceNothing(s, "\0HASH\0", "#");
  }

  // ---- comments ----

  lemma {:induction false} ReplaceSkips(a: string, t: string, from: string, to: string)
    requires from != "" && from[0] !in a
    ensures ReplaceAll(a + t, from, to) == a + ReplaceAll(t, from, to)
  {
    var s := a + t;
    if a == "" {
      assert s == t;
    } else if |s| >= |from| {
      assert s[..|from|][0] == a[0] && s[1..] == a[1..] + t;
      ReplaceSkips(a[1..], t, from, to);
      Prefixed(a[0], a[1..], ReplaceAll(t, from, to));
      assert [a[0]] + a[1..] == a;
    } else {
      assert |t| < |from|;
    }
  }

  lemma Prefixed(c: char, a: string, r: string)
    ensures [c] + (a + r) == [c] + a + r
  {
  }

  lemma {:induction false} ReplaceHead(from: string, to: string, t: string)
    requires from != ""
    ensures ReplaceAll(from + t, from, to) == to + ReplaceAll(t, from, to)
  {
    assert (from + t)[..|from|] == from && (from + t)[|from|..] == t;
  }

  lemma FirstPart(a: string, rest: string, sep: char)
    requires sep !in a
    ensures Split(a + [sep] + rest, sep)[0] == a
  {
    SplitConcat(a, rest, sep);
    SplitNone(a, sep);
  }

  /** A single hash sign ends the line. */
  lemma {:induction false} CommentIsStripped(a: string, b: string)
    requires '#' !in a && '\0' !in a && (b == "" || b[0] != '#')
    ensures StripComment(a + ("#" + b)) == a
  {
    var hash := "\0HASH\0";
    var t := "#" + b;
    ReplaceSkips(a, t, "##", hash);
    assert |t| >= 2 ==> t[..2][1] == b[0];
    assert t[1..] == b && t[0] == '#';
    var rest := if b == "" then "" else ReplaceAll(b, "##", hash);
    assert ReplaceAll(t, "##", hash) == ['#'] + rest;
    assert a + (['#'] + rest) == a + ['#'] + rest;
    FirstPart(a, rest, '#');
    ReplaceNothing(a, hash, "#");
  }

  /** A double one stands for one. */
  lemma {:induction false} DoubleHashIsOne(a: string, b: string)
    requires '#' !in a && '\0' !in a && '#' !in b && '\0' !in b
    ensures StripComment(a + ("##" + b)) == a + ("#" + b)
  {
    var hash := "\0HASH\0";
    ReplaceSkips(a, "##" + b, "##", hash);
    ReplaceHead("##", hash, b);
    ReplaceNothing(b, "##", hash);
    var t := a + (hash + b);
    assert '#' !in hash;
    SplitNone(t, '#');
    ReplaceSkips(a, hash + b, hash, "#");
    ReplaceHead(hash, "#", b);
    ReplaceNothing(b, hash, "#");
  }

  /** A line that is a comment loads nothing. */
  lemma {:induction false} CommentLoadsNothing(b: string)
    requires b == "" || b[0] != '#'
    ensures !LoadsConf("#" + b)
  {
    assert "" + ("#" + b) == "#" + b;
    CommentIsStripped("", b);
    EmptyLoadsNothing();
    NoComment("");
  }

  lemma SourceWords(path: string, words: seq<string>)
    requires words == ["source", "=", path]
    ensures "source = " + path == Join(words, " ")
  {
    assert words[..2] == ["source", "="] && words[..2][..1] == ["source"];
    assert Join(words[..1], " ") == "source";
    assert Join(words[..2], " ") == "source" + " " + "=";
  }

  lemma SourceFields(path: string)
    requires Word(path, IsSpace)
    ensures Join(FieldsFunc("source = " + path, IsSpace), " ") == "source = " + path
  {
    var words := ["source", "=", path];
    SourceWords(path, words);
    assert Word("source", IsSpace) && Word("=", IsSpace);
    FieldsJoined(words, IsSpace);
  }

  lemma TildeIsWord()
    ensures Word("~/.config/hypr" + "/omarchy-vault.conf", IsSpace)
    ensures SOURCE_LINE == "source = " + ("~/.config/hypr" + "/omarchy-vault.conf")
  {
    assert Word("~/.config/hypr", IsSpace) && Word("/omarchy-vault.conf", IsSpace);
  }

  lemma SourceLineLoads()
    ensures LoadsConf(SOURCE_LINE)
  {
    NoHash();
    NoComment(SOURCE_LINE);
    TildeIsWord();
    SourceFields("~/.config/hypr" + "/omarchy-vault.conf");
  }

  lemma LuaLineLoads()
    ensures LoadsLua(LUA_LINE)
  {
    TrimNothing(LUA_LINE);
    assert OccursAt(LUA_LINE, "omarchy_vault.lua", |LUA_LINE| - 19);
  }

  lemma EmptyLoadsNothing()
    ensures !LoadsConf("") && !LoadsLua("")
  {
    NoComment("");
    assert Blank("", IsSpace) == "";
    assert [""][1..] == [];
    assert FieldsFunc("", IsSpace) == [];
  }

  lemma ConfIsWellFormed()
    ensures WellFormed(CONF)
  {
    ConfNoteOneLine();
    ConfLineOneLine();
    TrimNothing(SOURCE_NOTE);
    TrimNothing(SOURCE_LINE);
    EmptyLoadsNothing();
  }

  lemma LuaIsWellFormed()
    ensures WellFormed(LUA)
  {
    LuaNoteOneLine();
    LuaLineOneLine();
    TrimNothing(LUA_NOTE);
    TrimNothing(LUA_LINE);
    EmptyLoadsNothing();
  }

  /** What Install appends in either format is found again and is Vault's. */
  lemma BothFormats()
    ensures WellFormed(CONF) && CONF.loads(CONF.line) && WellFormed(LUA) && LUA.loads(LUA.line)
  {
    ConfIsWellFormed();
    LuaIsWellFormed();
    SourceLineLoads();
    LuaLineLoads();
  }

  /** A second Install finds the line of the first. */
  lemma InstallTwice(f: Format, c: string)
    requires WellFormed(f) && f.loads(f.line)
    ensures WithLine(f, WithLine(f, c)) == WithLine(f, c)
  {
    if !Loaded(f, c) {
      WithLineLines(f, c);
      var lines := Lines(WithLine(f, c));
      assert lines[|lines| - 2] == f.line;
    }
  }

  /** After Install the config loads Vault's file, and all that was in it still
      stands at its start. */
  lemma InstallLoads(f: Format, c: string)
    requires WellFormed(f) && f.loads(f.line)
    ensures Loaded(f, WithLine(f, c)) && c <= WithLine(f, c)
  {
    if !Loaded(f, c) {
      WithLineLines(f, c);
      var lines := Lines(WithLine(f, c));
      assert lines[|lines| - 2] == f.line;
    }
  }

  /** A line loads Vault's file exactly if, without comment and with single
      blanks, it is a source line whose path ends in the file's name. */
  lemma {:induction false} LoadsExactly(l: string)
    ensures var t := Join(FieldsFunc(StripComment(l), IsSpace), " ");
            LoadsConf(l) <==> HasPrefix(t, "source =") && HasSuffix(t, "/omarchy-vault.conf")
  {
    LineIsSource(SOURCE_LINE);
  }

  lemma LineIsSource(t: string)
    requires t == SOURCE_LINE
    ensures HasPrefix(t, "source =") && HasSuffix(t, "/omarchy-vault.conf")
  {
    assert "source = "[..8] == "source =";
    assert t[..8] == "source = "[..8];
  }

  /** Remove takes out no line but the two it adds, with white space around
      them. */
  lemma {:induction false} OnlyOursGo(c: string, l: string)
    requires l in Lines(c) && l != ""
    ensures TrimSpace(l) != SOURCE_NOTE && TrimSpace(l) != SOURCE_LINE ==> l in Lines(Cleaned(CONF, c))
    ensures TrimSpace(l) != LUA_NOTE && TrimSpace(l) != LUA_LINE ==> l in Lines(Cleaned(LUA, c))
  {
    LineStays(CONF, c, l);
    LineStays(LUA, c, l);
  }

  lemma LineStays(f: Format, c: string, l: string)
    requires l in Lines(c) && l != ""
    ensures !f.ours(l) ==> l in Lines(Cleaned(f, c))
  {
    RemoveKeepsLines(f, c);
    NonEmptyMembers(Lines(Cleaned(f, c)), l);
    NonEmptyMembers(Drop(f, Lines(c)), l);
    DropMembers(f, Lines(c), l);
  }

  // ---- what still loads Vault's file ----

  /** A line that loads Vault's file but is not one that Remove takes out. */
  predicate Stays(f: Format, c: string, l: string) { l in Lines(c) && f.loads(l) && !f.ours(l) }

  /** After Remove the config loads the file, which is gone, exactly if it held
      such a line. */
  lemma StillLoadedExactly(f: Format, c: string)
    requires WellFormed(f)
    ensures Loaded(f, Cleaned(f, c)) <==> exists l :: Stays(f, c, l)
  {
    var after := Lines(Cleaned(f, c));
    RemoveKeepsLines(f, c);
    forall l | l != "" ensures l in after <==> l in Lines(c) && !f.ours(l) {
      NonEmptyMembers(after, l);
      NonEmptyMembers(Drop(f, Lines(c)), l);
      DropMembers(f, Lines(c), l);
    }
    if i :| 0 <= i < |after| && f.loads(after[i]) {
      assert Stays(f, c, after[i]);
    }
    if l :| Stays(f, c, l) {
      var i :| 0 <= i < |after| && after[i] == l;
    }
  }

  const OWN_PATH := "/home/u/.config/hypr" + "/omarchy-vault.conf"
  const OWN_LINE := "source = " + OWN_PATH

  lemma OwnPathIsWord()
    ensures Word(OWN_PATH, IsSpace)
  {
    assert Word("/home/u/.config/hypr", IsSpace) && Word("/omarchy-vault.conf", IsSpace);
  }

  lemma OwnPathIsPlain()
    ensures '#' !in OWN_PATH && '\0' !in OWN_PATH && '\n' !in OWN_PATH
  {
    assert '#' !in "/home/u/.config/hypr" && '\0' !in "/home/u/.config/hypr" && '\n' !in "/home/u/.config/hypr";
    assert '#' !in "/omarchy-vault.conf" && '\0' !in "/omarchy-vault.conf" && '\n' !in "/omarchy-vault.conf";
  }

  lemma SourceIsPlain(path: string)
    requires '#' !in path && '\0' !in path && '\n' !in path
    ensures '#' !in "source = " + path && '\0' !in "source = " + path && '\n' !in "source = " + path
  {
    assert '#' !in "source = " && '\0' !in "source = " && '\n' !in "source = ";
  }

  lemma OwnIsNotOurs()
    ensures !OursConf(OWN_LINE)
  {
    TrimNothing(OWN_LINE);
    assert OWN_LINE[9] == '/' && SOURCE_LINE[9] == '~';
    assert OWN_LINE[0] == 's' && SOURCE_NOTE[0] == '#';
  }

  lemma {:induction false} OneLineStays(f: Format, l: string)
    requires WellFormed(f) && '\n' !in l && f.loads(l) && !f.ours(l)
    ensures WithLine(f, l) == l && Loaded(f, Cleaned(f, l))
  {
    SplitNone(l, '\n');
    assert Lines(l)[0] == l;
    assert Stays(f, l, l);
    StillLoadedExactly(f, l);
  }

  lemma {:induction false} OwnLineLoads()
    ensures LoadsConf(OWN_LINE) && '\n' !in OWN_LINE
  {
    OwnPathIsPlain();
    SourceIsPlain(OWN_PATH);
    NoComment(OWN_LINE);
    OwnPathIsWord();
    SourceFields(OWN_PATH);
  }

  /** A line with the whole path is found by Install and not taken out by
      Remove. */
  lemma {:induction false} WholePathStaysLoaded()
    ensures WithLine(CONF, OWN_LINE) == OWN_LINE && Loaded(CONF, Cleaned(CONF, OWN_LINE))
  {
    ConfIsWellFormed();
    OwnLineLoads();
    OwnIsNotOurs();
    OneLineStays(CONF, OWN_LINE);
  }

  // ---- the files ----

  /** The main config, Vault's file beside it, and for a Lua config the Vault
      file of an older hyprland.conf install. Unless the disk is reliable a
      write or a removal may fail; a failed one changes nothing. */
  class Home {
    var conf: Option<string>
    var vaultFile: Option<string>
    var older: Option<string>
    const reliable: bool

    constructor (conf: Option<string>, vaultFile: Option<string>, older: Option<string>, reliable: bool)
      ensures this.conf == conf && this.vaultFile == vaultFile && this.older == older && this.reliable == reliable
    {
      this.conf, this.vaultFile, this.older, this.reliable := conf, vaultFile, older, reliable;
    }

    predicate Foreign(header: string) reads this { vaultFile.Some? && !HasPrefix(vaultFile.value, header) }

    method Fails() returns (err: bool)
      ensures reliable ==> !err
    {
      err := *;
      err := err && !reliable;
    }

    method WriteConf(content: string) returns (err: bool)
      modifies this`conf
      ensures conf == if err then old(conf) else Some(content)
      ensures reliable ==> !err
    {
      err := Fails();
      if !err {
        conf := Some(content);
      }
    }

    /** Install and installLua. An error leaves the config as it was, and a file
        that Vault did not write is never replaced. */
    method Install(f: Format, rendered: string) returns (changed: bool, err: bool)
      modifies this`conf, this`vaultFile
      ensures !err ==> old(conf).Some? && conf == Some(WithLine(f, old(conf).value)) && vaultFile == Some(rendered)
      ensures !err ==> (changed <==> conf != old(conf))
      ensures err ==> conf == old(conf)
      ensures old(conf).None? || old(Foreign(f.header)) ==> err && vaultFile == old(vaultFile)
      ensures reliable ==> (err <==> old(conf).None? || old(Foreign(f.header)))
    {
      if conf.None? {
        return false, true;
      }
      if vaultFile.Some? && !HasPrefix(vaultFile.value, f.header) {
        return false, true;
      }
      err := Fails();
      if err {
        return false, true;
      }
      vaultFile := Some(rendered);
      var has := HasLoadLine(f, conf.value);
      if has {
        return false, false;
      }
      var c := conf.value;
      if !HasSuffix(c, "\n") {
        c := c + "\n";
      }
      c := c + "\n" + f.note + "\n" + f.line + "\n";
      err := WriteConf(c);
      changed := true;
    }

    /** The steps Remove and removeLua share. */
    method TakeOut(f: Format) returns (err: bool)
      modifies this`conf, this`vaultFile
      ensures !err ==> vaultFile.None? && conf == if old(conf).None? then None else Some(Cleaned(f, old(conf).value))
      ensures err ==> conf == old(conf)
      ensures old(Foreign(f.header)) ==> err && vaultFile == old(vaultFile)
      ensures reliable ==> (err <==> old(Foreign(f.header)))
    {
      if vaultFile.Some? {
        if !HasPrefix(vaultFile.value, f.header) {
          return true;
        }
        err := Fails();
        if err {
          return true;
        }
        vaultFile := None;
      }
      if conf.None? {
        return false;
      }
      var cleaned := Clean(f, conf.value);
      if cleaned == conf.value {
        return false;
      }
      err := WriteConf(cleaned);
    }

    method Remove(f: Format, lua: bool) returns (err: bool)
      modifies this
      ensures !err ==> vaultFile.None? && conf == if old(conf).None? then None else Some(Cleaned(f, old(conf).value))
      ensures old(Foreign(f.header)) ==> err && conf == old(conf) && vaultFile == old(vaultFile)
      ensures reliable ==> (err <==> old(Foreign(f.header)))
      ensures older == old(older)
              || (lua && old(older).Some? && HasPrefix(old(older).value, FILE_HEADER) && older.None?)
      ensures !err && lua && old(older).Some? && HasPrefix(old(older).value, FILE_HEADER) ==> older.None?
    {
      err := TakeOut(f);
      if err || !lua {
        return;
      }
      if older.Some? && HasPrefix(older.value, FILE_HEADER) {
        err := Fails();
        if !err {
          older := None;
        }
      }
    }

    /** Install and then Remove: without an error the config is back byte for
        byte exactly if it was normal, and Vault's file is gone. */
    method InstallAndRemove(f: Format, rendered: string, lua: bool) returns (err: bool)
      requires WellFormed(f) && HasPrefix(rendered, f.header)
      modifies this
      ensures !err ==> old(conf).Some? && (conf == old(conf) <==> Normal(f, old(conf).value)) && vaultFile.None?
      ensures reliable ==> (err <==> old(conf).None? || old(Foreign(f.header)))
    {
      var changed;
      changed, err := Install(f, rendered);
      if err {
        return;
      }
      RemoveUndoesInstall(f, old(conf).value);
      err := Remove(f, lua);
    }
  }
}
