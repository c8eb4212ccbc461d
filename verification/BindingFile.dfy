/** Vault's own shortcut file (Render and Line in internal/shortcuts, read back
    by Installed in internal/shortcuts/custom.go), and the combinations of the
    Lua form (luaKeys and parseLuaKeys in internal/shortcuts/lua.go). */
module BindingFile {
  import opened Options
  import opened Text
  import opened Modifiers
  import opened Bindings
  import ConfigText
  import Names

  // ---- writing ----

  /** The config line of a shortcut. */
  function Line(p: Planned): string {
    "bindd =" + (" " + Join(p.mods, " ") + "," +
      (" " + p.key + "," + (" " + p.description + "," + (" exec" + "," + (" " + p.command)))))
  }

  function AllLines(bs: seq<Planned>): seq<string> { seq(|bs|, i requires 0 <= i < |bs| => Line(bs[i])) }

  /** The text of a file: the header and the lines, each ended. */
  function Rendered(header: string, lines: seq<string>): string {
    if lines == [] then header + "\n" else Rendered(header, lines[..|lines| - 1]) + lines[|lines| - 1] + "\n"
  }

  method Render(bs: seq<Planned>) returns (text: string)
    ensures text == Rendered(ConfigText.FILE_HEADER, AllLines(bs))
  {
    text := RenderBelow(ConfigText.FILE_HEADER, bs);
  }

  method RenderBelow(header: string, bs: seq<Planned>) returns (text: string)
    ensures text == Rendered(header, AllLines(bs))
  {
    text := header + "\n";
    for i := 0 to |bs|
      invariant text == Rendered(header, AllLines(bs)[..i])
    {
      assert AllLines(bs)[..i + 1][..i] == AllLines(bs)[..i] && AllLines(bs)[i] == Line(bs[i]);
      text := text + Line(bs[i]) + "\n";
    }
    assert AllLines(bs)[..|bs|] == AllLines(bs);
  }

  /** A path that is empty or has a character special to the shell is not
      used. */
  predicate Usable(path: string) {
    path != "" && forall i :: 0 <= i < |path| ==> path[i] !in " '\"\\$`;&|<>(){}\n"
  }

  function AtPath(p: Planned, path: string): Planned {
    if HasPrefix(p.command, "vaultctl ") then p.(command := path + " " + p.command[|"vaultctl "|..]) else p
  }

  method WithCommandPath(bs: seq<Planned>, path: string) returns (out: seq<Planned>)
    ensures |out| == |bs| && forall i :: 0 <= i < |bs| ==> out[i] == if Usable(path) then AtPath(bs[i], path) else bs[i]
  {
    if path == "" || exists i :: 0 <= i < |path| && path[i] in " '\"\\$`;&|<>(){}\n" {
      return bs;
    }
    out := [];
    for i := 0 to |bs|
      invariant |out| == i && forall k :: 0 <= k < i ==> out[k] == AtPath(bs[k], path)
    {
      var b := bs[i];
      if HasPrefix(b.command, "vaultctl ") {
        b := b.(command := path + " " + b.command[|"vaultctl "|..]);
      }
      out := out + [b];
    }
  }

  /** What a shortcut runs at a path: a plain vaultctl command the program there,
      any other command what it ran before; nothing else changes. */
  lemma AtPathExactly(p: Planned, path: string, rest: string)
    ensures p.command == "vaultctl " + rest ==> AtPath(p, path) == p.(command := path + " " + rest)
    ensures !HasPrefix(p.command, "vaultctl ") ==> AtPath(p, path) == p
  {
    if p.command == "vaultctl " + rest {
      assert p.command[|"vaultctl "|..] == rest;
    }
  }

  // ---- reading ----

  /** The shortcuts of the plan a command starts, with these keys. */
  function Matching(plan: seq<Planned>, cmd: string, mods: seq<string>, key: string): seq<Planned> {
    if plan == [] then []
    else
      var p := plan[|plan| - 1];
      Matching(plan[..|plan| - 1], cmd, mods, key) +
        if HasSuffix(cmd, "vaultctl " + p.id) then [p.(mods := mods, key := key)] else []
  }

  /** What follows the "=" of a bindd line. */
  function Value(l: string): Option<string> {
    var t := TrimSpace(l);
    var i := IndexOf(t, '=');
    if !HasPrefix(t, "bindd") || i == |t| then None else Some(t[i + 1..])
  }

  function ReadParts(parts: seq<string>, plan: seq<Planned>): seq<Planned> {
    if |parts| != 5 then [] else Matching(plan, TrimSpace(parts[4]), Mods(parts[0]), TrimSpace(parts[1]))
  }

  function ReadLine(l: string, plan: seq<Planned>): seq<Planned> {
    var v := Value(l);
    if v.None? then [] else ReadParts(SplitN(v.value, ',', 5), plan)
  }

  function ReadLines(lines: seq<string>, read: string -> seq<Planned>): seq<Planned> {
    if lines == [] then [] else ReadLines(lines[..|lines| - 1], read) + read(lines[|lines| - 1])
  }

  function Reader(plan: seq<Planned>): string -> seq<Planned> { (l: string) => ReadLine(l, plan) }

  /** Bytes of the longest line bufio.Scanner reads. */
  const MAX_LINE := 65535

  predicate Short(l: string) { Names.ByteLen(l) <= MAX_LINE }

  /** The lines the scanner gives; it stops at one that is too long. */
  function Scanned(lines: seq<string>): (r: seq<string>)
    ensures r <= lines && (forall i :: 0 <= i < |r| ==> Short(r[i]))
    ensures |r| < |lines| ==> !Short(lines[|r|])
  {
    if lines == [] || !Short(lines[0]) then [] else [lines[0]] + Scanned(lines[1..])
  }

  /** The shortcuts in a file. */
  function Read(text: string, plan: seq<Planned>): seq<Planned> {
    ReadLines(Scanned(Split(text, '\n')), Reader(plan))
  }

  method Scan(text: string, plan: seq<Planned>) returns (out: seq<Planned>)
    ensures out == Read(text, plan)
  {
    ghost var read := Reader(plan);
    var lines := Split(text, '\n');
    out := [];
    for i := 0 to |lines|
      invariant out == ReadLines(lines[..i], read)
      invariant i <= |Scanned(lines)|
    {
      if !Short(lines[i]) {
        assert lines[..i] == Scanned(lines);
        return;
      }
      var more := ReadOne(lines[i], plan);
      ReadLinesStep(lines, i, read);
      out := out + more;
    }
    assert lines[..|lines|] == lines == Scanned(lines);
  }

  lemma ReadLinesStep(lines: seq<string>, i: nat, read: string -> seq<Planned>)
    requires i < |lines|
    ensures ReadLines(lines[..i + 1], read) == ReadLines(lines[..i], read) + read(lines[i])
  {
    assert lines[..i + 1][..i] == lines[..i];
  }

  method CutValue(l: string) returns (v: Option<string>)
    ensures v == Value(l)
  {
    var line := TrimSpace(l);
    if !HasPrefix(line, "bindd") {
      return None;
    }
    var at := IndexOf(line, '=');
    if at == |line| {
      return None;
    }
    v := Some(line[at + 1..]);
  }

  method ReadOne(l: string, plan: seq<Planned>) returns (out: seq<Planned>)
    ensures out == Reader(plan)(l)
  {
    var v := CutValue(l);
    if v.None? {
      return [];
    }
    out := MatchParts(SplitN(v.value, ',', 5), plan);
  }

  method MatchParts(parts: seq<string>, plan: seq<Planned>) returns (out: seq<Planned>)
    ensures out == ReadParts(parts, plan)
  {
    if |parts| != 5 {
      return [];
    }
    var mods := ParseMods(parts[0]);
    out := MatchPlan(plan, TrimSpace(parts[4]), mods, TrimSpace(parts[1]));
  }

  method MatchPlan(plan: seq<Planned>, cmd: string, mods: seq<string>, key: string) returns (out: seq<Planned>)
    ensures out == Matching(plan, cmd, mods, key)
  {
    out := [];
    for i := 0 to |plan|
      invariant out == Matching(plan[..i], cmd, mods, key)
    {
      assert plan[..i + 1][..i] == plan[..i];
      if HasSuffix(cmd, "vaultctl " + plan[i].id) {
        out := out + [plan[i].(mods := mods, key := key)];
      }
    }
    assert plan[..|plan|] == plan;
  }

  // ---- one line is read back ----

  /** No separator of a bind line, and no line end. */
  predicate Simple(s: string) { ',' !in s && '\n' !in s }

  lemma TrimBlank(s: string)
    ensures TrimSpace(" " + s) == TrimSpace(s)
  {
    assert (" " + s)[1..] == s;
  }

  lemma ModsBlank(m: string)
    ensures Mods(" " + m) == Mods(m)
  {
    FieldsBlank(m, ModSep);
  }

  lemma TwoParts(d: string, e: string)
    requires ',' !in d
    ensures SplitN(d + "," + e, ',', 2) == [d, e]
  {
    SplitNFirst(d, ',', e, 2);
  }

  lemma ThreeParts(c: string, d: string, e: string)
    requires ',' !in c && ',' !in d
    ensures SplitN(c + "," + (d + "," + e), ',', 3) == [c, d, e]
  {
    TwoParts(d, e);
    SplitNFirst(c, ',', d + "," + e, 3);
  }

  lemma FourParts(b: string, c: string, d: string, e: string)
    requires ',' !in b && ',' !in c && ',' !in d
    ensures SplitN(b + "," + (c + "," + (d + "," + e)), ',', 4) == [b, c, d, e]
  {
    ThreeParts(c, d, e);
    SplitNFirst(b, ',', c + "," + (d + "," + e), 4);
  }

  lemma FiveParts(a: string, b: string, c: string, d: string, e: string)
    requires ',' !in a && ',' !in b && ',' !in c && ',' !in d
    ensures SplitN(a + "," + (b + "," + (c + "," + (d + "," + e))), ',', 5) == [a, b, c, d, e]
  {
    FourParts(b, c, d, e);
    SplitNFirst(a, ',', b + "," + (c + "," + (d + "," + e)), 5);
  }

  lemma ValueOf(l: string, rest: string)
    requires l == "bindd =" + rest && rest != "" && !IsSpace(rest[|rest| - 1])
    ensures Value(l) == Some(rest)
  {
    TrimNothing(l);
    assert l[..6] == "bindd " && l[..5] == "bindd";
    IndexIs(l, '=', 6);
    assert l[7..] == rest;
  }

  lemma NoCommas(m: string, k: string, d: string)
    requires Simple(m) && Simple(k) && Simple(d)
    ensures ',' !in " " + m && ',' !in " " + k && ',' !in " " + d && ',' !in " exec"
  {
  }

  /** What can be written in a bind line and read back. */
  ghost predicate Writable(p: Planned) {
    && Simple(Join(p.mods, " ")) && Simple(p.key) && TrimSpace(p.key) == p.key && Simple(p.description)
    && p.command != "" && !IsSpace(p.command[|p.command| - 1]) && '\n' !in p.command
  }

  lemma ReadKnown(l: string, v: string, parts: seq<string>, plan: seq<Planned>)
    requires Value(l) == Some(v) && SplitN(v, ',', 5) == parts
    ensures ReadLine(l, plan) == ReadParts(parts, plan)
  {
  }

  lemma PartsOfLine(p: Planned, plan: seq<Planned>) returns (parts: seq<string>)
    requires Writable(p)
    ensures parts == [" " + Join(p.mods, " "), " " + p.key, " " + p.description, " exec", " " + p.command]
    ensures ReadLine(Line(p), plan) == ReadParts(parts, plan)
  {
    var m := Join(p.mods, " ");
    var rest := " " + m + "," + (" " + p.key + "," + (" " + p.description + "," + (" exec" + "," + (" " + p.command))));
    parts := [" " + m, " " + p.key, " " + p.description, " exec", " " + p.command];
    ValueOf(Line(p), rest);
    NoCommas(m, p.key, p.description);
    FiveParts(" " + m, " " + p.key, " " + p.description, " exec", " " + p.command);
    ReadKnown(Line(p), rest, parts, plan);
  }

  lemma ReadFive(parts: seq<string>, plan: seq<Planned>, cmd: string, mods: seq<string>, key: string)
    requires |parts| == 5 && TrimSpace(parts[4]) == cmd && Mods(parts[0]) == mods && TrimSpace(parts[1]) == key
    ensures ReadParts(parts, plan) == Matching(plan, cmd, mods, key)
  {
  }

  lemma ReadLineOf(p: Planned, plan: seq<Planned>)
    requires Writable(p)
    ensures ReadLine(Line(p), plan) == Matching(plan, TrimSpace(p.command), ModsOf(p.mods), p.key)
  {
    var parts := PartsOfLine(p, plan);
    ModsBlank(Join(p.mods, " "));
    TrimBlank(p.key);
    TrimBlank(p.command);
    ReadFive(parts, plan, TrimSpace(p.command), ModsOf(p.mods), p.key);
  }

  // ---- which command ----

  lemma SuffixSplit(s: string, t: string) returns (a: string)
    requires HasSuffix(s, t)
    ensures s == a + t
  {
    a := s[..|s| - |t|];
  }

  lemma SuffixOf(a: string, t: string)
    ensures HasSuffix(a + t, t)
  {
  }

  /** A command is recognised exactly when its last word is the action's and
      what is before it ends in "vaultctl". */
  lemma SuffixExactly(v: string, id: string, q: string)
    requires ' ' !in id && ' ' !in q
    ensures HasSuffix(v + " " + id, "vaultctl " + q) <==> q == id && HasSuffix(v, "vaultctl")
  {
    var s := v + " " + id;
    if HasSuffix(s, "vaultctl " + q) {
      var a := SuffixSplit(s, "vaultctl " + q);
      LastWords(v, id, a + "vaultctl", q);
      SuffixOf(a, "vaultctl");
    }
    if q == id && HasSuffix(v, "vaultctl") {
      var a := SuffixSplit(v, "vaultctl");
      assert s == a + ("vaultctl " + q);
      SuffixOf(a, "vaultctl " + q);
    }
  }

  lemma LastBlank(v: string, id: string, s: string)
    requires ' ' !in id && s == v + " " + id
    ensures |v| < |s| && s[|v|] == ' ' && forall i :: |v| < i < |s| ==> s[i] != ' '
  {
    forall i | |v| < i < |s| ensures s[i] == id[i - |v| - 1] {
    }
  }

  lemma LastWords(v: string, id: string, w: string, q: string)
    requires ' ' !in id && ' ' !in q && v + " " + id == w + " " + q
    ensures v == w && id == q
  {
    var s := v + " " + id;
    LastBlank(v, id, s);
    LastBlank(w, q, s);
    assert s[..|v|] == v && s[..|w|] == w;
    assert s[|v| + 1..] == id && s[|w| + 1..] == q;
  }

  lemma {:induction false} TrimKeepsSuffix(s: string, t: string)
    requires s != "" && !IsSpace(s[|s| - 1]) && t != "" && !IsSpace(t[0])
    ensures HasSuffix(TrimSpace(s), t) <==> HasSuffix(s, t)
  {
    if IsSpace(s[0]) {
      var u := s[1..];
      TrimKeepsSuffix(u, t);
      if |t| <= |u| {
        assert s[|s| - |t|..] == u[|u| - |t|..];
      }
    }
  }

  // ---- the whole file is read back ----

  /** Different actions, named by single words. */
  ghost predicate GoodPlan(plan: seq<Planned>) {
    && (forall i :: 0 <= i < |plan| ==> ' ' !in plan[i].id)
    && forall i, j :: 0 <= i < j < |plan| ==> plan[i].id != plan[j].id
  }

  lemma {:induction false} FindIs(plan: seq<Planned>, id: string)
    ensures Find(plan, id).Some? ==> exists i :: 0 <= i < |plan| && plan[i] == Find(plan, id).value && plan[i].id == id
  {
    if plan != [] && plan[|plan| - 1].id != id {
      var rest := plan[..|plan| - 1];
      FindIs(rest, id);
      if i :| 0 <= i < |rest| && Find(plan, id) == Some(rest[i]) && rest[i].id == id {
        assert plan[i] == rest[i];
      }
    }
  }

  /** cmd ends in "vaultctl " and the name of exactly this action, or of none. */
  ghost predicate CallsOnly(plan: seq<Planned>, cmd: string, id: string, good: bool) {
    forall i :: 0 <= i < |plan| ==> (HasSuffix(cmd, "vaultctl " + plan[i].id) <==> good && plan[i].id == id)
  }

  lemma {:induction false} MatchingExactly(plan: seq<Planned>, cmd: string, id: string, good: bool, mods: seq<string>,
                                           key: string)
    requires GoodPlan(plan) && CallsOnly(plan, cmd, id, good)
    ensures Matching(plan, cmd, mods, key) ==
            if good && Find(plan, id).Some? then [Find(plan, id).value.(mods := mods, key := key)] else []
  {
    if plan != [] {
      var rest := plan[..|plan| - 1];
      MatchingExactly(rest, cmd, id, good, mods, key);
      FindIs(rest, id);
    }
  }

  /** A command at a path, or the plain one. */
  lemma CommandNames(plan: seq<Planned>, v: string, id: string)
    requires GoodPlan(plan) && id != "" && forall i :: 0 <= i < |id| ==> !IsSpace(id[i])
    ensures CallsOnly(plan, TrimSpace(v + " " + id), id, HasSuffix(v, "vaultctl"))
  {
    var cmd := v + " " + id;
    assert ' ' !in id;
    forall i | 0 <= i < |plan|
      ensures HasSuffix(TrimSpace(cmd), "vaultctl " + plan[i].id) <==> HasSuffix(v, "vaultctl") && plan[i].id == id
    {
      SuffixExactly(v, id, plan[i].id);
      assert cmd[|cmd| - 1] == id[|id| - 1];
      TrimKeepsSuffix(cmd, "vaultctl " + plan[i].id);
    }
  }

  /** A shortcut of the plan, with keys that can be written. */
  ghost predicate Fit(p: Planned, plan: seq<Planned>) {
    && Simple(Join(p.mods, " ")) && Simple(p.key) && TrimSpace(p.key) == p.key && Simple(p.description)
    && p.id != "" && (forall i :: 0 <= i < |p.id| ==> !IsSpace(p.id[i]))
    && p.command == "vaultctl " + p.id && Find(plan, p.id).Some?
  }

  /** What is read back for a shortcut of the plan. */
  function Found(p: Planned, plan: seq<Planned>): Planned {
    var base := Find(plan, p.id);
    (if base.Some? then base.value else p).(mods := ModsOf(p.mods), key := p.key)
  }

  /** The line of a shortcut whose command is at v. */
  lemma ReadFit(p: Planned, plan: seq<Planned>, v: string)
    requires Fit(p, plan) && GoodPlan(plan) && '\n' !in v
    ensures var q := p.(command := v + " " + p.id);
            Writable(q) && ReadLine(Line(q), plan) == if HasSuffix(v, "vaultctl") then [Found(p, plan)] else []
  {
    var q := p.(command := v + " " + p.id);
    assert '\n' !in p.id by {
      assert IsSpace('\n');
    }
    assert q.command[|q.command| - 1] == p.id[|p.id| - 1];
    ReadLineOf(q, plan);
    CommandNames(plan, v, p.id);
    MatchingExactly(plan, TrimSpace(q.command), p.id, HasSuffix(v, "vaultctl"), ModsOf(p.mods), p.key);
  }

  lemma {:induction false} RenderedIsJoined(header: string, lines: seq<string>)
    ensures Rendered(header, lines) == Join([header] + lines, "\n") + "\n"
  {
    if lines == [] {
      assert [header] + lines == [header];
    } else {
      var rest, l := lines[..|lines| - 1], lines[|lines| - 1];
      RenderedIsJoined(header, rest);
      assert [header] + lines == ([header] + rest) + [l];
      JoinLast([header] + rest, l, "\n");
    }
  }

  lemma LineOneLine(p: Planned)
    requires Writable(p)
    ensures '\n' !in Line(p)
  {
    assert '\n' !in "bindd =" && '\n' !in " exec";
  }

  lemma HeadedLines(header: string, lines: seq<string>)
    requires '\n' !in header && forall i :: 0 <= i < |lines| ==> '\n' !in lines[i]
    ensures Split(Join([header] + lines, "\n") + "\n", '\n') == [header] + lines + [""]
  {
    var parts := [header] + lines;
    assert Apart(parts, '\n');
    SplitJoin(parts, '\n');
    SplitMore(Join(parts, "\n"), '\n', '\n');
  }

  /** The lines of a list give what each gives. */
  lemma {:induction false} ReadEach(lines: seq<string>, read: string -> seq<Planned>, out: seq<Planned>, good: bool)
    requires |out| == |lines| && forall i :: 0 <= i < |lines| ==> read(lines[i]) == if good then [out[i]] else []
    ensures ReadLines(lines, read) == if good then out else []
  {
    if lines != [] {
      ReadEach(lines[..|lines| - 1], read, out[..|lines| - 1], good);
    }
  }

  lemma ReadAround(header: string, lines: seq<string>, read: string -> seq<Planned>)
    requires read(header) == [] && read("") == []
    ensures ReadLines([header] + lines + [""], read) == ReadLines(lines, read)
  {
    ReadAfter(header, lines, read);
    assert ([header] + lines + [""])[..|lines| + 1] == [header] + lines;
  }

  lemma {:induction false} ReadAfter(header: string, lines: seq<string>, read: string -> seq<Planned>)
    requires read(header) == []
    ensures ReadLines([header] + lines, read) == ReadLines(lines, read)
  {
    var all := [header] + lines;
    if lines == [] {
      assert all == [header] && [header][..0] == [];
    } else {
      assert all[..|all| - 1] == [header] + lines[..|lines| - 1];
      ReadAfter(header, lines[..|lines| - 1], read);
    }
  }

  lemma {:induction false} ScannedIs(lines: seq<string>, k: nat)
    requires k <= |lines| && (forall i :: 0 <= i < k ==> Short(lines[i])) && (k < |lines| ==> !Short(lines[k]))
    ensures Scanned(lines) == lines[..k]
  {
    if k > 0 {
      ScannedIs(lines[1..], k - 1);
      assert lines[..k] == [lines[0]] + lines[1..][..k - 1];
    }
  }

  lemma ShortEmpty()
    ensures Short("")
  {
  }

  /** What the scanner gives of a file of these lines: all, and the empty one
      after the last line end, or the header and those before the first long
      one. */
  lemma {:induction false} ScannedFile(header: string, lines: seq<string>)
    requires Short(header)
    ensures Scanned([header] + lines + [""]) == [header] + Scanned(lines) + if Scanned(lines) == lines then [""] else []
  {
    var all, k := [header] + lines + [""], |Scanned(lines)|;
    ShortEmpty();
    if k == |lines| {
      ScannedIs(all, k + 2);
      assert Scanned(lines) == lines && all[..k + 2] == [header] + lines + [""];
    } else {
      assert all[k + 1] == lines[k];
      ScannedIs(all, k + 1);
      assert all[..k + 1] == [header] + Scanned(lines) + [];
    }
  }

  lemma ScannedRendered(header: string, lines: seq<string>)
    requires '\n' !in header && Short(header) && forall i :: 0 <= i < |lines| ==> '\n' !in lines[i]
    ensures var got := Scanned(lines);
            Scanned(Split(Rendered(header, lines), '\n')) == [header] + got + if got == lines then [""] else []
  {
    RenderedIsJoined(header, lines);
    HeadedLines(header, lines);
    ScannedFile(header, lines);
  }

  lemma ReadGot(header: string, got: seq<string>, read: string -> seq<Planned>, all: bool)
    requires read(header) == [] && read("") == []
    ensures ReadLines([header] + got + if all then [""] else [], read) == ReadLines(got, read)
  {
    ReadAround(header, got, read);
    ReadAfter(header, got, read);
    assert [header] + got + [] == [header] + got;
  }

  /** A file whose lines each give one shortcut or none. */
  lemma ReadRendered(header: string, lines: seq<string>, read: string -> seq<Planned>, out: seq<Planned>, good: bool)
    requires '\n' !in header && forall i :: 0 <= i < |lines| ==> '\n' !in lines[i]
    requires read(header) == [] && read("") == [] && Short(header)
    requires |out| == |lines| && forall i :: 0 <= i < |lines| ==> read(lines[i]) == if good then [out[i]] else []
    ensures ReadLines(Scanned(Split(Rendered(header, lines), '\n')), read) ==
              if good then out[..|Scanned(lines)|] else []
  {
    var got := Scanned(lines);
    ScannedRendered(header, lines);
    ReadGot(header, got, read, got == lines);
    ReadEach(got, read, out[..|got|], good);
  }

  function AllFound(bs: seq<Planned>, plan: seq<Planned>): seq<Planned> {
    seq(|bs|, i requires 0 <= i < |bs| => Found(bs[i], plan))
  }

  /** A line that is no shortcut. */
  ghost predicate NoShortcut(header: string, plan: seq<Planned>) {
    '\n' !in header && ReadLine(header, plan) == [] && Short(header)
  }

  ghost predicate AllFit(bs: seq<Planned>, plan: seq<Planned>) { forall i :: 0 <= i < |bs| ==> Fit(bs[i], plan) }

  /** The same shortcuts with their commands at v. */
  ghost predicate At(bs: seq<Planned>, v: string, out: seq<Planned>) {
    |out| == |bs| && forall i :: 0 <= i < |bs| ==> out[i] == bs[i].(command := v + " " + bs[i].id)
  }

  /** How many lines of the file the scanner gives. */
  function Reached(out: seq<Planned>): (k: nat)
    ensures k <= |out|
  {
    |Scanned(AllLines(out))|
  }

  lemma ReachedAll(out: seq<Planned>)
    ensures Reached(out) == |out| <==> forall i :: 0 <= i < |out| ==> Short(Line(out[i]))
  {
    var lines := AllLines(out);
    if Reached(out) < |out| {
      assert lines[Reached(out)] == Line(out[Reached(out)]);
    } else {
      forall i | 0 <= i < |out| ensures Short(Line(out[i])) {
        assert Scanned(lines)[i] == lines[i];
      }
    }
  }

  /** The file of shortcuts whose commands are at v is read back as these
      shortcuts, in order and up to a line that is too long, exactly if v ends
      in "vaultctl"; else nothing is. */
  lemma ReadAt(header: string, bs: seq<Planned>, plan: seq<Planned>, v: string, out: seq<Planned>)
    requires GoodPlan(plan) && '\n' !in v && NoShortcut(header, plan) && AllFit(bs, plan) && At(bs, v, out)
    ensures Read(Rendered(header, AllLines(out)), plan) ==
              if HasSuffix(v, "vaultctl") then AllFound(bs, plan)[..Reached(out)] else []
  {
    EachRead(bs, plan, v, out);
    ReadRendered(header, AllLines(out), Reader(plan), AllFound(bs, plan), HasSuffix(v, "vaultctl"));
  }

  lemma EachRead(bs: seq<Planned>, plan: seq<Planned>, v: string, out: seq<Planned>)
    requires GoodPlan(plan) && '\n' !in v && AllFit(bs, plan) && At(bs, v, out)
    ensures forall i :: 0 <= i < |bs| ==> '\n' !in AllLines(out)[i]
    ensures forall i :: 0 <= i < |bs| ==>
              Reader(plan)(AllLines(out)[i]) == if HasSuffix(v, "vaultctl") then [AllFound(bs, plan)[i]] else []
  {
    forall i | 0 <= i < |bs|
      ensures '\n' !in AllLines(out)[i]
      ensures Reader(plan)(AllLines(out)[i]) == if HasSuffix(v, "vaultctl") then [AllFound(bs, plan)[i]] else []
    {
      ReadFit(bs[i], plan, v);
      LineOneLine(out[i]);
    }
  }

  /** What WithCommandPath returns. */
  ghost predicate Moved(bs: seq<Planned>, path: string, out: seq<Planned>) {
    |out| == |bs| && forall i :: 0 <= i < |bs| ==> out[i] == if Usable(path) then AtPath(bs[i], path) else bs[i]
  }

  /** The scan of what Render wrote for the shortcuts at a path gives them, up
      to a line that is too long, when the path is not used or ends in
      "vaultctl"; at any other path it gives nothing. */
  lemma {:induction false} ReadBack(header: string, bs: seq<Planned>, plan: seq<Planned>, path: string,
                                    out: seq<Planned>)
    requires GoodPlan(plan) && NoShortcut(header, plan) && AllFit(bs, plan) && Moved(bs, path, out)
    ensures Read(Rendered(header, AllLines(out)), plan) ==
              if !Usable(path) || HasSuffix(path, "vaultctl") then AllFound(bs, plan)[..Reached(out)] else []
  {
    var v := MovedIsAt(bs, plan, path, out);
    ReadAt(header, bs, plan, v, out);
  }

  /** So the file is read back as written exactly when, unless it is empty, the
      path is not used or ends in "vaultctl" and no line is too long. */
  lemma {:induction false} ReadBackExactly(header: string, bs: seq<Planned>, plan: seq<Planned>, path: string,
                                           out: seq<Planned>)
    requires GoodPlan(plan) && NoShortcut(header, plan) && AllFit(bs, plan) && Moved(bs, path, out)
    ensures Read(Rendered(header, AllLines(out)), plan) == AllFound(bs, plan) <==>
              bs == [] || ((!Usable(path) || HasSuffix(path, "vaultctl"))
                           && forall i :: 0 <= i < |out| ==> Short(Line(out[i])))
  {
    ReadBack(header, bs, plan, path, out);
    ReachedAll(out);
  }

  lemma MovedIsAt(bs: seq<Planned>, plan: seq<Planned>, path: string, out: seq<Planned>) returns (v: string)
    requires AllFit(bs, plan) && Moved(bs, path, out)
    ensures '\n' !in v && At(bs, v, out) && (HasSuffix(v, "vaultctl") <==> !Usable(path) || HasSuffix(path, "vaultctl"))
  {
    if Usable(path) {
      v := path;
      UsableOneLine(path);
      forall i | 0 <= i < |bs| ensures out[i] == bs[i].(command := v + " " + bs[i].id) {
        CommandAt(bs[i], path);
      }
    } else {
      v := "vaultctl";
      forall i | 0 <= i < |bs| ensures out[i] == bs[i].(command := v + " " + bs[i].id) {
        PlainCommand(bs[i]);
      }
    }
  }

  lemma PlainCommand(p: Planned)
    requires p.command == "vaultctl " + p.id
    ensures p == p.(command := "vaultctl" + " " + p.id)
  {
    assert "vaultctl " + p.id == "vaultctl" + " " + p.id;
  }

  lemma UsableOneLine(path: string)
    requires Usable(path)
    ensures '\n' !in path
  {
    assert " '\"\\$`;&|<>(){}\n"[15] == '\n';
  }

  lemma CommandAt(p: Planned, path: string)
    requires p.command == "vaultctl " + p.id
    ensures AtPath(p, path) == p.(command := path + " " + p.id)
  {
    assert p.command[|"vaultctl "|..] == p.id;
  }

  /** What is read back is the same action with the same key and equivalent
      modifiers. */
  lemma FoundIsSame(p: Planned, plan: seq<Planned>)
    ensures Found(p, plan).id == p.id && Found(p, plan).key == p.key && Same(p, Found(p, plan))
  {
    FindIs(plan, p.id);
    ParseModsAgain(Join(p.mods, " "));
  }

  // ---- what Build builds can be written ----

  /** An action named by one word, with its command and a description that can
      be written. */
  ghost predicate ActionFits(p: Planned) {
    && p.command == "vaultctl " + p.id && Simple(p.description) && p.id != ""
    && forall k :: 0 <= k < |p.id| ==> !IsSpace(p.id[k])
  }

  lemma OpenFits()
    ensures ActionFits(OPEN)
  {
    assert Simple("Open Vault");
  }

  lemma UploadFits()
    ensures ActionFits(UPLOAD)
  {
    assert Simple("Upload to " + "Vault") && "Upload to Vault" == "Upload to " + "Vault";
  }

  lemma DownloadFits()
    ensures ActionFits(DOWNLOAD)
  {
    assert Simple("Download " + "from Vault") && "Download from Vault" == "Download " + "from Vault";
  }

  lemma PlanFits(i: nat)
    requires i < |PLAN|
    ensures ActionFits(PLAN[i])
  {
    OpenFits();
    UploadFits();
    DownloadFits();
  }

  lemma PlanIsGood()
    ensures GoodPlan(PLAN)
  {
    forall i | 0 <= i < |PLAN| ensures ' ' !in PLAN[i].id {
      PlanFits(i);
    }
  }

  lemma {:induction false} JoinSimple(words: seq<string>)
    requires forall i :: 0 <= i < |words| ==> Simple(words[i])
    ensures Simple(Join(words, " "))
  {
    if |words| > 1 {
      JoinSimple(words[..|words| - 1]);
    }
  }

  lemma KeyIsSimple(key: string)
    requires Offered(key)
    ensures Simple(key) && TrimSpace(key) == key
  {
    TrimNothing(key);
  }

  lemma ChoiceIsSimple(m: string)
    requires m in MOD_CHOICES
    ensures Simple(m)
  {
  }

  /** What Build accepts keeps the action's command and description, holds
      Super, Ctrl or Alt, and can be written to the file. */
  lemma BuiltIsFit(r: Request)
    requires BuildOf(r).Some?
    ensures var p := BuildOf(r).value;
            p.id == r.id && p.key == KeyOf(r.key) && ModsAllowed(p.mods) && Offered(p.key) && Fit(p, PLAN)
    ensures SameNames(BuildOf(r).value.mods, Cleaned(r.mods))
  {
    var p, mods := BuildOf(r).value, Cleaned(r.mods);
    FindIs(PLAN, r.id);
    var i :| 0 <= i < |PLAN| && PLAN[i] == Find(PLAN, r.id).value && PLAN[i].id == r.id;
    PlanFits(i);
    ListedMembers(MOD_CHOICES, mods);
    forall k | 0 <= k < |p.mods| ensures Simple(p.mods[k]) {
      ChoiceIsSimple(p.mods[k]);
    }
    JoinSimple(p.mods);
    KeyIsSimple(p.key);
  }

  lemma HeaderStart()
    ensures '\n' !in "# Omarchy Vault shortcuts. " && '\n' !in "Managed by " + "`vaultctl shortcuts`; "
  {
  }

  lemma HeaderEnd()
    ensures '\n' !in "remove with `vaultctl " + "shortcuts remove`."
  {
  }

  lemma HeaderOneLine()
    ensures '\n' !in ConfigText.FILE_HEADER
  {
    HeaderStart();
    HeaderEnd();
  }

  lemma {:induction false} FewBytes(s: string)
    ensures Names.ByteLen(s) <= 4 * |s|
  {
    if s != "" {
      FewBytes(s[..|s| - 1]);
    }
  }

  lemma {:induction false} HeaderIsNoShortcut(plan: seq<Planned>)
    ensures NoShortcut(ConfigText.FILE_HEADER, plan)
  {
    HeaderOneLine();
    FewBytes(ConfigText.FILE_HEADER);
    TrimNothing(ConfigText.FILE_HEADER);
    assert ConfigText.FILE_HEADER[0] == '#';
  }

  /** Each request is built as the shortcut of its place. */
  ghost predicate AllBuiltAs(reqs: seq<Request>, bs: seq<Planned>) {
    |bs| == |reqs| && forall i :: 0 <= i < |reqs| ==> BuildOf(reqs[i]) == Some(bs[i])
  }

  /** Read back for the requests, in order: the same actions, with the same keys
      and equivalent modifiers. */
  ghost predicate Answers(back: seq<Planned>, reqs: seq<Request>, bs: seq<Planned>) {
    |back| <= |reqs| == |bs| && forall i :: 0 <= i < |back| ==>
      back[i].id == reqs[i].id && back[i].key == bs[i].key && Same(bs[i], back[i])
  }

  lemma BuiltAllFit(reqs: seq<Request>, bs: seq<Planned>)
    requires AllBuiltAs(reqs, bs)
    ensures AllFit(bs, PLAN) && forall i :: 0 <= i < |bs| ==> bs[i].id == reqs[i].id
  {
    forall i | 0 <= i < |bs| ensures Fit(bs[i], PLAN) && bs[i].id == reqs[i].id {
      BuiltIsFit(reqs[i]);
    }
  }

  lemma FoundAnswer(reqs: seq<Request>, bs: seq<Planned>, k: nat)
    requires AllBuiltAs(reqs, bs) && k <= |bs|
    ensures Answers(AllFound(bs, PLAN)[..k], reqs, bs)
  {
    BuiltAllFit(reqs, bs);
    forall i | 0 <= i < |bs|
      ensures var b := AllFound(bs, PLAN)[i]; b.id == reqs[i].id && b.key == bs[i].key && Same(bs[i], b)
    {
      FoundIsSame(bs[i], PLAN);
    }
  }

  /** Requests that are built, written at a path ending in "vaultctl" and read
      back give the same actions in the same order, with the same keys and
      equivalent modifiers: all of them exactly if no line is too long. */
  lemma {:induction false} BuildRenderInstalled(header: string, reqs: seq<Request>, bs: seq<Planned>, path: string,
                                                out: seq<Planned>)
    requires NoShortcut(header, PLAN) && (HasSuffix(path, "vaultctl") || !Usable(path))
    requires AllBuiltAs(reqs, bs) && Moved(bs, path, out)
    ensures var back := Read(Rendered(header, AllLines(out)), PLAN);
            && Answers(back, reqs, bs)
            && (|back| == |reqs| <==> forall i :: 0 <= i < |out| ==> Short(Line(out[i])))
  {
    PlanIsGood();
    ReachedAll(out);
    BuiltAllFit(reqs, bs);
    ReadBack(header, bs, PLAN, path, out);
    FoundAnswer(reqs, bs, Reached(out));
  }

  lemma {:induction false} FindSome(plan: seq<Planned>, i: nat)
    requires i < |plan|
    ensures Find(plan, plan[i].id).Some?
  {
    if plan[|plan| - 1].id != plan[i].id {
      FindSome(plan[..|plan| - 1], i);
    }
  }

  lemma OpenIsFit()
    ensures Fit(OPEN, PLAN)
  {
    OpenFits();
    FindSome(PLAN, 0);
    ChoiceIsSimple(MOD_CHOICES[0]);
    ChoiceIsSimple(MOD_CHOICES[3]);
    JoinSimple(OPEN.mods);
    KeyIsSimple(OPEN.key);
  }

  lemma {:induction false} OtherNameFindsNothing(header: string, bs: seq<Planned>, path: string, out: seq<Planned>)
    requires NoShortcut(header, PLAN) && AllFit(bs, PLAN) && Moved(bs, path, out)
    requires Usable(path) && !HasSuffix(path, "vaultctl")
    ensures Read(Rendered(header, AllLines(out)), PLAN) == []
  {
    PlanIsGood();
    ReadBack(header, bs, PLAN, path, out);
  }

  lemma {:induction false} OpenElsewhere(header: string, path: string, out: seq<Planned>)
    requires NoShortcut(header, PLAN) && Moved([OPEN], path, out) && Usable(path) && !HasSuffix(path, "vaultctl")
    ensures Read(Rendered(header, AllLines(out)), PLAN) == []
  {
    OpenIsFit();
    OtherNameFindsNothing(header, [OPEN], path, out);
  }

  lemma VaultIsUsable()
    ensures Usable("/bin/vault") && !HasSuffix("/bin/vault", "vaultctl")
  {
  }

  /** The open shortcut written for a program called otherwise is not found in
      the file. */
  lemma {:induction false} OtherNameIsNotRead(out: seq<Planned>)
    requires Moved([OPEN], "/bin/vault", out)
    ensures Read(Rendered(ConfigText.FILE_HEADER, AllLines(out)), PLAN) == [] && |AllFound([OPEN], PLAN)| == 1
  {
    HeaderIsNoShortcut(PLAN);
    VaultIsUsable();
    OpenElsewhere(ConfigText.FILE_HEADER, "/bin/vault", out);
  }

  // ---- the Lua form of a combination ----

  /** luaKeys. */
  function LuaKeys(p: Planned): string { Join(p.mods + [p.key], " + ") }

  /** parseLuaKeys; None where it gives no combination. */
  function ParseLuaKeys(s: string): Option<(seq<string>, string)> {
    var parts := Split(s, '+');
    var key := TrimSpace(parts[|parts| - 1]);
    if key == "" then None else Some((Mods(Join(parts[..|parts| - 1], " ")), key))
  }

  lemma {:induction false} PlusIsBlank(s: string)
    ensures Blank(Join(Split(s, '+'), " "), ModSep) == Blank(s, ModSep)
  {
    if s != "" {
      var init, c := s[..|s| - 1], s[|s| - 1];
      var r := Split(init, '+');
      PlusIsBlank(init);
      assert s == init + [c];
      SplitMore(init, c, '+');
      JoinExtended(r, c);
      BlankMore(init, c);
      BlankMore(Join(r, " "), if c == '+' then ' ' else c);
    }
  }

  lemma JoinExtended(r: seq<string>, c: char)
    requires r != []
    ensures Join(Extend(r, c, '+'), " ") == Join(r, " ") + [if c == '+' then ' ' else c]
  {
    var init, last := r[..|r| - 1], r[|r| - 1];
    assert r == init + [last];
    if c == '+' {
      JoinLast(r, "", " ");
    } else if init != [] {
      JoinLast(init, last, " ");
      JoinLast(init, last + [c], " ");
    }
  }

  lemma BlankMore(s: string, c: char)
    ensures Blank(s + [c], ModSep) == Blank(s, ModSep) + [if ModSep(c) then ' ' else c]
  {
  }

  lemma FieldsConcat(a: string, c: char, b: string)
    requires ModSep(c)
    ensures FieldsFunc(a + [c] + b, ModSep) == FieldsFunc(a, ModSep) + FieldsFunc(b, ModSep)
  {
    var x, y := Blank(a, ModSep), Blank(b, ModSep);
    assert Blank(a + [c] + b, ModSep) == x + [' '] + y;
    SplitConcat(x, y, ' ');
    NonEmptyConcat(Split(x, ' '), Split(y, ' '));
  }

  /** Modifiers may stand apart by a blank, an underscore, a plus or a tab. */
  lemma ModsApart(a: string, c: char, b: string)
    requires c == ' ' || c == '_' || c == '+' || c == '\t'
    ensures FieldsFunc(a + [c] + b, ModSep) == FieldsFunc(a, ModSep) + FieldsFunc(b, ModSep)
  {
    FieldsConcat(a, c, b);
  }

  lemma FieldsOfWord(w: string)
    requires Word(w, ModSep)
    ensures FieldsFunc(w, ModSep) == [w]
  {
    FieldsJoined([w], ModSep);
  }

  lemma FieldsOfNothing()
    ensures FieldsFunc("", ModSep) == []
  {
    FieldsJoined([], ModSep);
  }

  /** Words joined by " + " are read back as the words. */
  lemma {:induction false} FieldsOfPlus(mods: seq<string>)
    requires mods != [] && Words(mods, ModSep)
    ensures FieldsFunc(Join(mods, " + "), ModSep) == mods
  {
    var init, last := mods[..|mods| - 1], mods[|mods| - 1];
    FieldsOfWord(last);
    if init == [] {
      assert mods == [last];
    } else {
      var a := Join(init, " + ");
      FieldsOfPlus(init);
      FieldsOfNothing();
      assert a + " + " + last == a + [' '] + ("" + ['+'] + ("" + [' '] + last));
      FieldsConcat("", ' ', last);
      FieldsConcat("", '+', "" + [' '] + last);
      FieldsConcat(a, ' ', "" + ['+'] + ("" + [' '] + last));
      assert mods == init + [last];
    }
  }

  /** A combination written for Lua is read back with the same key and the same
      modifiers. */
  lemma LuaKeysReadBack(p: Planned)
    requires Words(p.mods, ModSep) && '+' !in p.key && p.key != "" && TrimSpace(p.key) == p.key
    ensures ParseLuaKeys(LuaKeys(p)) == Some((ModsOf(p.mods), p.key))
  {
    if p.mods == [] {
      assert p.mods + [p.key] == [p.key];
      SplitNone(p.key, '+');
    } else {
      var x := Join(p.mods, " + ");
      JoinLast(p.mods, p.key, " + ");
      assert LuaKeys(p) == (x + " ") + ['+'] + (" " + p.key);
      SplitConcat(x + " ", " " + p.key, '+');
      SplitNone(" " + p.key, '+');
      TrimBlank(p.key);
      LuaMods(p.mods, x);
      var parts := Split(LuaKeys(p), '+');
      assert parts[..|parts| - 1] == Split(x + " ", '+');
    }
  }

  lemma LuaMods(mods: seq<string>, x: string)
    requires mods != [] && Words(mods, ModSep) && x == Join(mods, " + ")
    ensures Mods(Join(Split(x + " ", '+'), " ")) == ModsOf(mods)
  {
    var joined := Join(Split(x + " ", '+'), " ");
    PlusIsBlank(x + " ");
    FieldsByBlank(joined, x + " ");
    assert FieldsFunc(x + " ", ModSep) == mods by {
      FieldsOfPlus(mods);
      FieldsOfNothing();
      assert x + " " == x + [' '] + "";
      FieldsConcat(x, ' ', "");
    }
    FieldsJoined(mods, ModSep);
    ModsByFields(joined, Join(mods, " "));
  }

  lemma FieldsByBlank(s: string, t: string)
    requires Blank(s, ModSep) == Blank(t, ModSep)
    ensures FieldsFunc(s, ModSep) == FieldsFunc(t, ModSep)
  {
  }

  lemma ModsByFields(s: string, t: string)
    requires FieldsFunc(s, ModSep) == FieldsFunc(t, ModSep)
    ensures Mods(s) == Mods(t)
  {
  }
}
