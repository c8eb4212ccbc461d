/** Vault's shortcut file for Hyprland's Lua config (RenderLua and installedLua
    in internal/shortcuts/lua.go), and Installed, which tries it first
    (internal/shortcuts/custom.go). Text is a sequence of decoded characters. */
module LuaFile {
  import opened Options
  import opened Text
  import opened Modifiers
  import opened Bindings
  import opened BindingFile
  import ConfigText

  // ---- writing ----

  /** luaQuote. */
  function LuaQuote(s: string): string {
    "\"" + ReplaceAll(ReplaceAll(ReplaceAll(s, "\\", "\\\\"), "\"", "\\\""), "\n", "\\n") + "\""
  }

  function LuaLine(p: Planned): string {
    "pcall(vault_bind, " + LuaQuote(LuaKeys(p)) + ", " + LuaQuote(p.description) + ", " + LuaQuote(p.command) + ")\n"
  }

  /** The function every line calls. */
  const FUNCTION :=
    "local function vault_bind(keys, " + "description, command)\n" +
    ("  if type(o) == \"table\" and " + "type(o.bind) == \"function\" then\n") +
    ("    o.bind(keys, description, command)\n" + "  else\n") +
    ("    hl.bind(keys, hl.dsp.exec_cmd(command))\n" + "  end\nend\n")

  const HEADER := ConfigText.LUA_HEADER + "\n" + FUNCTION

  function AllLuaLines(bs: seq<Planned>): seq<string> { seq(|bs|, i requires 0 <= i < |bs| => LuaLine(bs[i])) }

  function Concat(lines: seq<string>): string {
    if lines == [] then "" else Concat(lines[..|lines| - 1]) + lines[|lines| - 1]
  }

  function LuaLines(bs: seq<Planned>): string { Concat(AllLuaLines(bs)) }

  method RenderLua(bs: seq<Planned>) returns (text: string)
    ensures text == HEADER + LuaLines(bs)
  {
    text := RenderBelow(HEADER, bs);
  }

  method RenderBelow(header: string, bs: seq<Planned>) returns (text: string)
    ensures text == header + LuaLines(bs)
  {
    ghost var lines := AllLuaLines(bs);
    text := header;
    for i := 0 to |bs|
      invariant text == header + Concat(lines[..i])
    {
      var line := LuaLine(bs[i]);
      ConcatStep(header, lines, i, line);
      text := text + line;
    }
    assert lines[..|lines|] == lines;
  }

  lemma ConcatStep(header: string, lines: seq<string>, i: nat, line: string)
    requires i < |lines| && line == lines[i]
    ensures header + Concat(lines[..i + 1]) == header + Concat(lines[..i]) + line
  {
    assert lines[..i + 1][..i] == lines[..i];
    Regroup(header, Concat(lines[..i]), line);
  }

  lemma Regroup(a: string, b: string, c: string)
    ensures a + b + c == a + (b + c)
  {
  }

  // ---- what luaInstalledRe matches ----

  /** What a part of the expression took, and what is after it. */
  datatype Piece = Piece(text: string, rest: string)
  datatype Match = Match(keys: string, command: string, rest: string)

  const START := "pcall(vault_bind,"

  /** \s of a Go regular expression. */
  predicate ReSpace(c: char) { c == ' ' || c == '\t' || c == '\n' || c == '\r' || c as int == 0x0c }

  function SkipSpace(s: string): (r: string)
    ensures |r| <= |s|
  {
    if s != "" && ReSpace(s[0]) then SkipSpace(s[1..]) else s
  }

  /** t, white space and an opening quote; gives what is after them. */
  function Open(s: string, t: string): (r: Option<string>)
    ensures r.Some? ==> |r.value| < |s|
  {
    if !HasPrefix(s, t) then None
    else
      var a := SkipSpace(s[|t|..]);
      if a != "" && a[0] == '"' then Some(a[1..]) else None
  }

  /** At least one character that is no quote, and a quote. */
  function Keys(s: string): (r: Option<Piece>)
    ensures r.Some? ==> |r.value.rest| < |s|
  {
    var i := IndexOf(s, '"');
    if i == 0 || i == |s| then None else Some(Piece(s[..i], s[i + 1..]))
  }

  /** Characters and escaped characters up to the first quote that is not
      escaped; an escaped line end does not match. */
  function Body(s: string): (r: Option<Piece>)
    ensures r.Some? ==> |r.value.rest| < |s|
  {
    if s == "" then None
    else if s[0] == '"' then Some(Piece("", s[1..]))
    else if s[0] != '\\' then Before([s[0]], Body(s[1..]))
    else if |s| == 1 || s[1] == '\n' then None
    else Before(s[..2], Body(s[2..]))
  }

  function Before(a: string, p: Option<Piece>): (r: Option<Piece>)
    ensures r.Some? <==> p.Some?
    ensures r.Some? ==> r.value.rest == p.value.rest
  {
    if p.Some? then Some(Piece(a + p.value.text, p.value.rest)) else None
  }

  /** The match that starts at the beginning of s; there is at most one. */
  function MatchAt(s: string): (m: Option<Match>)
    ensures m.Some? ==> |m.value.rest| < |s|
  {
    var a := Open(s, START);
    if a.None? then None
    else
      var keys := Keys(a.value);
      if keys.None? then None
      else
        var b := Open(keys.value.rest, ",");
        if b.None? then None else MatchTail(keys.value.text, b.value)
  }

  /** The description, which is not kept, and the command. */
  function MatchTail(keys: string, s: string): (m: Option<Match>)
    ensures m.Some? ==> |m.value.rest| < |s|
  {
    var description := Body(s);
    if description.None? then None
    else
      var a := Open(description.value.rest, ",");
      if a.None? then None
      else
        var command := Body(a.value);
        if command.None? || !HasPrefix(command.value.rest, ")") then None
        else Some(Match(keys, command.value.text, command.value.rest[1..]))
  }

  /** FindAllStringSubmatch: the matches from left to right, without overlap. */
  function Matches(s: string): seq<Match>
    decreases |s|
  {
    if s == "" then []
    else
      var m := MatchAt(s);
      if m.Some? then [m.value] + Matches(m.value.rest) else Matches(s[1..])
  }

  // ---- reading ----

  function FromMatch(m: Match, plan: seq<Planned>): seq<Planned> {
    var k := ParseLuaKeys(m.keys);
    if k.None? then [] else Matching(plan, m.command, k.value.0, k.value.1)
  }

  function ReadMatches(ms: seq<Match>, plan: seq<Planned>): seq<Planned> {
    if ms == [] then [] else ReadMatches(ms[..|ms| - 1], plan) + FromMatch(ms[|ms| - 1], plan)
  }

  function ReadLua(text: string, plan: seq<Planned>): seq<Planned> { ReadMatches(Matches(text), plan) }

  /** The shortcuts of one match. */
  method ReadMatch(m: Match, plan: seq<Planned>) returns (out: seq<Planned>)
    ensures out == FromMatch(m, plan)
  {
    var k := ParseLuaKeys(m.keys);
    if k.None? {
      return [];
    }
    out := MatchPlan(plan, m.command, k.value.0, k.value.1);
  }

  lemma ReadMatchesStep(ms: seq<Match>, i: nat, plan: seq<Planned>, more: seq<Planned>)
    requires i < |ms| && more == FromMatch(ms[i], plan)
    ensures ReadMatches(ms[..i + 1], plan) == ReadMatches(ms[..i], plan) + more
  {
    assert ms[..i + 1][..i] == ms[..i];
  }

  method InstalledLua(text: string, plan: seq<Planned>) returns (out: seq<Planned>)
    ensures out == ReadLua(text, plan)
  {
    var ms := Matches(text);
    out := [];
    for i := 0 to |ms|
      invariant out == ReadMatches(ms[..i], plan)
    {
      var more := ReadMatch(ms[i], plan);
      ReadMatchesStep(ms, i, plan, more);
      out := out + more;
    }
    assert ms[..|ms|] == ms;
  }

  /** The shortcuts found in the two files: those of the Lua form unless there
      are none. */
  function InstalledIn(lua: Option<string>, conf: Option<string>, plan: seq<Planned>): seq<Planned> {
    if lua.Some? && ReadLua(lua.value, plan) != [] then ReadLua(lua.value, plan)
    else if conf.Some? then Read(conf.value, plan)
    else []
  }

  method Installed(lua: Option<string>, conf: Option<string>, plan: seq<Planned>) returns (out: seq<Planned>)
    ensures out == InstalledIn(lua, conf, plan)
  {
    if lua.Some? {
      out := InstalledLua(lua.value, plan);
      if out != [] {
        return;
      }
    }
    if conf.None? {
      return [];
    }
    out := Scan(conf.value, plan);
  }

  // ---- quoting ----

  function Escaped(c: char): string {
    if c == '\\' then "\\\\" else if c == '"' then "\\\"" else if c == '\n' then "\\n" else [c]
  }

  /** Every character on its own. */
  function Escape(s: string): string {
    if s == "" then "" else Escaped(s[0]) + Escape(s[1..])
  }

  lemma {:induction false} ReplaceOne(a: string, c: char, to: string, b: string)
    ensures ReplaceAll(a + b, [c], to) == ReplaceAll(a, [c], to) + ReplaceAll(b, [c], to)
  {
    if a == "" {
      assert a + b == b;
    } else {
      assert (a + b)[1..] == a[1..] + b;
      ReplaceOne(a[1..], c, to, b);
    }
  }

  function Twice(s: string): string {
    ReplaceAll(ReplaceAll(s, "\"", "\\\""), "\n", "\\n")
  }

  lemma TwiceConcat(a: string, b: string)
    ensures Twice(a + b) == Twice(a) + Twice(b)
  {
    ReplaceOne(a, '"', "\\\"", b);
    ReplaceOne(ReplaceAll(a, "\"", "\\\""), '\n', "\\n", ReplaceAll(b, "\"", "\\\""));
  }

  lemma ReplaceChar(c: char, from: char, to: string)
    ensures ReplaceAll([c], [from], to) == if c == from then to else [c]
  {
    assert [c][..1] == [c] && [c][1..] == "";
    assert [c] == [from] <==> c == from by {
      assert [c] == [from] ==> [c][0] == [from][0];
    }
    assert ReplaceAll("", [from], to) == "" && to + "" == to && [c] + "" == [c];
  }

  lemma EscapedChar(c: char)
    ensures Twice(ReplaceAll([c], "\\", "\\\\")) == Escaped(c)
  {
    ReplaceChar(c, '\\', "\\\\");
    ReplaceChar(c, '"', "\\\"");
    ReplaceChar(c, '\n', "\\n");
    if c == '\\' {
      ReplaceNothing("\\\\", "\"", "\\\"");
      ReplaceNothing("\\\\", "\n", "\\n");
    } else if c == '"' {
      ReplaceNothing("\\\"", "\n", "\\n");
    }
  }

  /** The three replacements one after the other escape every character on its
      own. */
  lemma {:induction false} QuoteEscapes(s: string)
    ensures Twice(ReplaceAll(s, "\\", "\\\\")) == Escape(s)
  {
    if s != "" {
      var t := s[1..];
      assert s == [s[0]] + t;
      ReplaceOne([s[0]], '\\', "\\\\", t);
      TwiceConcat(ReplaceAll([s[0]], "\\", "\\\\"), ReplaceAll(t, "\\", "\\\\"));
      EscapedChar(s[0]);
      QuoteEscapes(t);
    }
  }

  lemma BodyOfPair(c: char, u: string)
    requires c != '\n'
    ensures Body(['\\', c] + u) == Before(['\\', c], Body(u))
  {
    var s := ['\\', c] + u;
    assert s[..2] == ['\\', c] && s[2..] == u;
  }

  lemma BodyOfChar(c: char, u: string)
    requires c != '"' && c != '\\'
    ensures Body([c] + u) == Before([c], Body(u))
  {
    assert ([c] + u)[1..] == u;
  }

  lemma BodyOfEscaped(c: char, u: string)
    ensures Body(Escaped(c) + u) == Before(Escaped(c), Body(u))
  {
    if c == '\\' {
      BodyOfPair('\\', u);
      assert Escaped(c) == ['\\', '\\'];
    } else if c == '"' {
      BodyOfPair('"', u);
      assert Escaped(c) == ['\\', '"'];
    } else if c == '\n' {
      BodyOfPair('n', u);
      assert Escaped(c) == ['\\', 'n'];
    } else {
      BodyOfChar(c, u);
    }
  }

  /** A quoted string is read up to its end, whatever it holds. */
  lemma {:induction false} BodyOfEscape(s: string, rest: string)
    ensures Body(Escape(s) + ("\"" + rest)) == Some(Piece(Escape(s), rest))
  {
    var tail := "\"" + rest;
    if s == "" {
      assert "" + tail == tail && tail[1..] == rest;
    } else {
      Regroup(Escaped(s[0]), Escape(s[1..]), tail);
      BodyOfEscaped(s[0], Escape(s[1..]) + tail);
      BodyOfEscape(s[1..], rest);
    }
  }

  /** Nothing to escape. */
  predicate Plain(s: string) { '\\' !in s && '"' !in s && '\n' !in s }

  lemma {:induction false} EscapeNothing(s: string)
    requires Plain(s)
    ensures Escape(s) == s
  {
    if s != "" {
      EscapeNothing(s[1..]);
    }
  }

  // ---- one line is matched ----

  lemma OpenOf(t: string, rest: string)
    ensures Open(t + (" \"" + rest), t) == Some(rest)
  {
    var a := " \"" + rest;
    assert (t + a)[|t|..] == a && (t + a)[..|t|] == t;
    assert a[1..] == "\"" + rest && a[1..][1..] == rest;
    assert SkipSpace(a) == SkipSpace(a[1..]) == a[1..];
  }

  lemma KeysOf(k: string, rest: string)
    requires '"' !in k && k != ""
    ensures Keys(k + ("\"" + rest)) == Some(Piece(k, rest))
  {
    var s := k + ("\"" + rest);
    assert s[|k|] == '"' && s[..|k|] == k && s[|k| + 1..] == rest;
    IndexIs(s, '"', |k|);
  }

  /** The parts of a line, grouped from the right. */
  function Written(keys: string, description: string, command: string, rest: string): string {
    START + (" \"" + (keys + ("\"" + ("," + (" \"" + Tail(description, command, rest))))))
  }

  function Tail(description: string, command: string, rest: string): string {
    description + ("\"" + ("," + (" \"" + (command + ("\"" + (")" + rest))))))
  }

  lemma TailMatches(keys: string, description: string, command: string, rest: string)
    ensures MatchTail(keys, Tail(Escape(description), Escape(command), rest)) ==
              Some(Match(keys, Escape(command), rest))
  {
    var d := ")" + rest;
    var c := Escape(command) + ("\"" + d);
    BodyOfEscape(description, "," + (" \"" + c));
    OpenOf(",", c);
    BodyOfEscape(command, d);
    assert d[1..] == rest && d[..1] == ")";
  }

  lemma WrittenMatches(keys: string, description: string, command: string, rest: string)
    requires '"' !in keys && keys != ""
    ensures MatchAt(Written(keys, Escape(description), Escape(command), rest)) ==
              Some(Match(keys, Escape(command), rest))
  {
    var t := Tail(Escape(description), Escape(command), rest);
    var k := keys + ("\"" + ("," + (" \"" + t)));
    OpenOf(START, k);
    KeysOf(keys, "," + (" \"" + t));
    OpenOf(",", t);
    TailMatches(keys, description, command, rest);
  }

  // ---- the whole file is read back ----

  lemma QuotedIs(s: string)
    ensures LuaQuote(s) == "\"" + Escape(s) + "\""
  {
    QuoteEscapes(s);
  }

  lemma TailGroups(description: string, command: string, rest: string)
    ensures description + "\"" + ", " + ("\"" + command + "\"") + ")\n" + rest ==
              Tail(description, command, "\n" + rest)
  {
    assert ", " + "\"" == "," + " \"";
    assert ")\n" + rest == ")" + ("\n" + rest);
  }

  lemma LineGroups(keys: string, description: string, command: string, rest: string)
    ensures "pcall(vault_bind, " + ("\"" + keys + "\"") + ", " + ("\"" + description + "\"") + ", "
            + ("\"" + command + "\"") + ")\n" + rest == Written(keys, description, command, "\n" + rest)
  {
    TailGroups(description, command, rest);
    assert "pcall(vault_bind, " == START + " ";
    assert " " + "\"" == " \"" && ", " + "\"" == "," + " \"";
  }

  /** A written line is one match, of the keys as written and the escaped
      command. */
  lemma LineMatches(p: Planned, rest: string)
    requires Plain(LuaKeys(p)) && LuaKeys(p) != ""
    ensures MatchAt(LuaLine(p) + rest) == Some(Match(LuaKeys(p), Escape(p.command), "\n" + rest))
  {
    QuotedIs(LuaKeys(p));
    EscapeNothing(LuaKeys(p));
    QuotedIs(p.description);
    QuotedIs(p.command);
    LineGroups(LuaKeys(p), Escape(p.description), Escape(p.command), rest);
    WrittenMatches(LuaKeys(p), p.description, p.command, "\n" + rest);
  }

  /** Text in which START cannot begin: every p has another letter than c
      behind it. */
  predicate Calm(w: string) { forall i :: 0 <= i < |w| && w[i] == 'p' ==> i + 1 < |w| && w[i + 1] != 'c' }

  lemma CalmConcat(a: string, b: string)
    requires Calm(a) && Calm(b)
    ensures Calm(a + b)
  {
    var w := a + b;
    forall i | 0 <= i < |w| && w[i] == 'p' ensures i + 1 < |w| && w[i + 1] != 'c' {
      if i >= |a| {
        assert b[i - |a|] == 'p';
      } else {
        assert a[i] == 'p';
      }
    }
  }

  lemma StartBegins(s: string)
    requires HasPrefix(s, START)
    ensures |s| > 1 && s[0] == 'p' && s[1] == 'c'
  {
    assert s[..|START|][0] == s[0] && s[..|START|][1] == s[1];
  }

  lemma NoMatchAt(s: string)
    requires s != "" && (s[0] == 'p' ==> |s| > 1 && s[1] != 'c')
    ensures MatchAt(s).None?
  {
    if HasPrefix(s, START) {
      StartBegins(s);
      assert false;
    }
  }

  /** Calm text holds no match and begins none. */
  lemma {:induction false} CalmIsSkipped(w: string, rest: string)
    requires Calm(w)
    ensures Matches(w + rest) == Matches(rest)
    decreases |w|
  {
    if w == "" {
      assert w + rest == rest;
    } else {
      var s, t := w + rest, w[1..];
      forall i | 0 <= i < |t| && t[i] == 'p' ensures i + 1 < |t| && t[i + 1] != 'c' {
        assert w[i + 1] == 'p';
      }
      NoMatchAt(s);
      assert s[1..] == t + rest;
      CalmIsSkipped(t, rest);
    }
  }

  lemma {:induction false} ConcatFirst(l: string, lines: seq<string>)
    ensures Concat([l] + lines) == l + Concat(lines)
  {
    var all := [l] + lines;
    if lines == [] {
      assert all[..0] == [] && all[0] == l;
    } else {
      var init, last := lines[..|lines| - 1], lines[|lines| - 1];
      assert all[..|all| - 1] == [l] + init;
      ConcatFirst(l, init);
      Regroup(l, Concat(init), last);
    }
  }

  lemma RegroupFound(a: seq<Planned>, b: seq<Planned>, c: seq<Planned>)
    ensures a + b + c == a + (b + c)
  {
  }

  lemma {:induction false} ReadMatchesFirst(m: Match, ms: seq<Match>, plan: seq<Planned>, found: seq<Planned>)
    requires found == FromMatch(m, plan)
    ensures ReadMatches([m] + ms, plan) == found + ReadMatches(ms, plan)
  {
    var all := [m] + ms;
    if ms == [] {
      assert all[..0] == [] && all[0] == m;
    } else {
      var init, last := ms[..|ms| - 1], ms[|ms| - 1];
      assert all[..|all| - 1] == [m] + init;
      ReadMatchesFirst(m, init, plan, found);
      RegroupFound(found, ReadMatches(init, plan), FromMatch(last, plan));
    }
  }

  /** A shortcut of the plan whose keys can be written in the Lua form. */
  ghost predicate LuaFit(p: Planned, plan: seq<Planned>) {
    && Words(p.mods, ModSep) && '+' !in p.key && p.key != "" && TrimSpace(p.key) == p.key
    && Plain(LuaKeys(p)) && LuaKeys(p) != ""
    && Plain(p.id) && ' ' !in p.id && p.command == "vaultctl " + p.id && Find(plan, p.id).Some?
  }

  ghost predicate AllLuaFit(bs: seq<Planned>, plan: seq<Planned>) {
    forall i :: 0 <= i < |bs| ==> LuaFit(bs[i], plan)
  }

  lemma PlainConcat(a: string, b: string)
    requires Plain(a) && Plain(b)
    ensures Plain(a + " " + b)
  {
  }

  lemma SuffixNames(plan: seq<Planned>, v: string, id: string)
    requires GoodPlan(plan) && ' ' !in id
    ensures CallsOnly(plan, v + " " + id, id, HasSuffix(v, "vaultctl"))
  {
    forall i | 0 <= i < |plan|
      ensures HasSuffix(v + " " + id, "vaultctl " + plan[i].id) <==> HasSuffix(v, "vaultctl") && plan[i].id == id
    {
      SuffixExactly(v, id, plan[i].id);
    }
  }

  lemma MatchIsFound(p: Planned, plan: seq<Planned>, v: string, rest: string)
    requires LuaFit(p, plan) && GoodPlan(plan)
    ensures FromMatch(Match(LuaKeys(p), v + " " + p.id, rest), plan) ==
              if HasSuffix(v, "vaultctl") then [Found(p, plan)] else []
  {
    LuaKeysReadBack(p);
    SuffixNames(plan, v, p.id);
    MatchingExactly(plan, v + " " + p.id, p.id, HasSuffix(v, "vaultctl"), ModsOf(p.mods), p.key);
  }

  /** The line of a shortcut whose command is at v, and what follows. */
  lemma {:induction false} LineIsRead(p: Planned, plan: seq<Planned>, v: string, q: Planned, rest: string)
    requires LuaFit(p, plan) && GoodPlan(plan) && Plain(v) && q == p.(command := v + " " + p.id)
    ensures ReadLua(LuaLine(q) + rest, plan) ==
              (if HasSuffix(v, "vaultctl") then [Found(p, plan)] else []) + ReadLua(rest, plan)
  {
    var m := Match(LuaKeys(p), v + " " + p.id, "\n" + rest);
    PlainConcat(v, p.id);
    EscapeNothing(v + " " + p.id);
    LineMatches(q, rest);
    assert Matches(LuaLine(q) + rest) == [m] + Matches(m.rest);
    CalmIsSkipped("\n", rest);
    MatchIsFound(p, plan, v, m.rest);
    ReadMatchesFirst(m, Matches(rest), plan, FromMatch(m, plan));
  }

  /** A line from which f is read, or nothing, whatever follows. */
  ghost predicate LineGives(line: string, plan: seq<Planned>, f: Planned, good: bool) {
    forall rest :: ReadLua(line + rest, plan) == (if good then [f] else []) + ReadLua(rest, plan)
  }

  /** Every line gives what stands in its place. */
  ghost predicate AllGive(lines: seq<string>, plan: seq<Planned>, found: seq<Planned>, good: bool) {
    |found| == |lines| && forall i :: 0 <= i < |lines| ==> LineGives(lines[i], plan, found[i], good)
  }

  lemma AllGiveRest(lines: seq<string>, plan: seq<Planned>, found: seq<Planned>, good: bool)
    requires AllGive(lines, plan, found, good) && lines != []
    ensures LineGives(lines[0], plan, found[0], good) && AllGive(lines[1..], plan, found[1..], good)
  {
  }

  lemma GivesThen(line: string, plan: seq<Planned>, f: Planned, good: bool, rest: string, more: seq<Planned>)
    requires LineGives(line, plan, f, good) && ReadLua(rest, plan) == if good then more else []
    ensures ReadLua(line + rest, plan) == if good then [f] + more else []
  {
  }

  lemma {:induction false} ConcatIsRead(lines: seq<string>, plan: seq<Planned>, found: seq<Planned>, good: bool,
                                        text: string)
    requires AllGive(lines, plan, found, good) && text == Concat(lines)
    ensures ReadLua(text, plan) == if good then found else []
  {
    if lines != [] {
      var rest := Concat(lines[1..]);
      AllGiveRest(lines, plan, found, good);
      ConcatIsRead(lines[1..], plan, found[1..], good, rest);
      GivesThen(lines[0], plan, found[0], good, rest, found[1..]);
      ConcatFirst(lines[0], lines[1..]);
      assert lines == [lines[0]] + lines[1..] && found == [found[0]] + found[1..];
    }
  }

  lemma {:induction false} EachLineGives(bs: seq<Planned>, plan: seq<Planned>, v: string, out: seq<Planned>, i: nat)
    requires AllLuaFit(bs, plan) && GoodPlan(plan) && Plain(v) && At(bs, v, out) && i < |bs|
    ensures LineGives(LuaLine(out[i]), plan, AllFound(bs, plan)[i], HasSuffix(v, "vaultctl"))
  {
    forall rest
      ensures ReadLua(LuaLine(out[i]) + rest, plan) ==
                (if HasSuffix(v, "vaultctl") then [Found(bs[i], plan)] else []) + ReadLua(rest, plan)
    {
      LineIsRead(bs[i], plan, v, out[i], rest);
    }
  }

  lemma {:induction false} LinesAreRead(bs: seq<Planned>, plan: seq<Planned>, v: string, out: seq<Planned>)
    requires AllLuaFit(bs, plan) && GoodPlan(plan) && Plain(v) && At(bs, v, out)
    ensures ReadLua(LuaLines(out), plan) == if HasSuffix(v, "vaultctl") then AllFound(bs, plan) else []
  {
    var lines, found, good := AllLuaLines(out), AllFound(bs, plan), HasSuffix(v, "vaultctl");
    forall i | 0 <= i < |lines| ensures LineGives(lines[i], plan, found[i], good) {
      EachLineGives(bs, plan, v, out, i);
    }
    ConcatIsRead(lines, plan, found, good, LuaLines(out));
  }

  lemma LuaMovedIsAt(bs: seq<Planned>, plan: seq<Planned>, path: string, out: seq<Planned>) returns (v: string)
    requires AllLuaFit(bs, plan) && Moved(bs, path, out)
    ensures Plain(v) && At(bs, v, out) && (HasSuffix(v, "vaultctl") <==> !Usable(path) || HasSuffix(path, "vaultctl"))
  {
    if Usable(path) {
      v := path;
      UsableIsPlain(path);
    } else {
      v := "vaultctl";
    }
    forall i | 0 <= i < |bs| ensures out[i] == bs[i].(command := v + " " + bs[i].id) {
      assert LuaFit(bs[i], plan);
      CommandAt(bs[i], path);
      PlainCommand(bs[i]);
    }
  }

  lemma UsableIsPlain(path: string)
    requires Usable(path)
    ensures Plain(path)
  {
    assert " '\"\\$`;&|<>(){}\n"[15] == '\n' && " '\"\\$`;&|<>(){}\n"[2] == '"' && " '\"\\$`;&|<>(){}\n"[3] == '\\';
  }

  /** The Lua file written for the shortcuts at a path is read back as these
      shortcuts exactly when the path is not used or ends in "vaultctl"; at any
      other path nothing is found. */
  lemma {:induction false} LuaReadBack(header: string, bs: seq<Planned>, plan: seq<Planned>, path: string,
                                       out: seq<Planned>)
    requires Calm(header) && GoodPlan(plan) && AllLuaFit(bs, plan) && Moved(bs, path, out)
    ensures ReadLua(header + LuaLines(out), plan) ==
              if !Usable(path) || HasSuffix(path, "vaultctl") then AllFound(bs, plan) else []
  {
    CalmIsSkipped(header, LuaLines(out));
    var v := LuaMovedIsAt(bs, plan, path, out);
    LinesAreRead(bs, plan, v, out);
  }

  /** So with both files there, the shortcuts of the older one are not looked
      at, unless nothing is read from the Lua form. */
  lemma {:induction false} InstalledReadsBack(header: string, bs: seq<Planned>, plan: seq<Planned>, path: string,
                                              out: seq<Planned>, conf: Option<string>)
    requires Calm(header) && GoodPlan(plan) && AllLuaFit(bs, plan) && Moved(bs, path, out)
    ensures InstalledIn(Some(header + LuaLines(out)), conf, plan) ==
              if bs != [] && (!Usable(path) || HasSuffix(path, "vaultctl")) then AllFound(bs, plan)
              else InstalledIn(None, conf, plan)
  {
    LuaReadBack(header, bs, plan, path, out);
  }

  // ---- what Vault writes ----

  lemma FirstLineIsCalm()
    ensures Calm(ConfigText.LUA_HEADER + "\n")
  {
    assert Calm("-- Omarchy Vault shortcuts. ");
    assert Calm("Managed by ") && Calm("`vaultctl shortcuts`; ");
    assert Calm("remove with `vaultctl ") && Calm("shortcuts remove`.");
    CalmConcat("Managed by ", "`vaultctl shortcuts`; ");
    CalmConcat("remove with `vaultctl ", "shortcuts remove`.");
    CalmConcat("-- Omarchy Vault shortcuts. ", "Managed by " + "`vaultctl shortcuts`; ");
    CalmConcat("-- Omarchy Vault shortcuts. " + ("Managed by " + "`vaultctl shortcuts`; "),
               "remove with `vaultctl " + "shortcuts remove`.");
    CalmConcat(ConfigText.LUA_HEADER, "\n");
  }

  lemma FunctionStartIsCalm()
    ensures Calm("local function vault_bind(keys, " + "description, command)\n")
  {
    assert Calm("local function vault_bind(keys, ") && Calm("description, command)\n");
    CalmConcat("local function vault_bind(keys, ", "description, command)\n");
  }

  lemma FunctionTestIsCalm()
    ensures Calm("  if type(o) == \"table\" and " + "type(o.bind) == \"function\" then\n")
  {
    assert Calm("  if type(o) == \"table\" and ") && Calm("type(o.bind) == \"function\" then\n");
    CalmConcat("  if type(o) == \"table\" and ", "type(o.bind) == \"function\" then\n");
  }

  lemma FunctionThenIsCalm()
    ensures Calm("    o.bind(keys, description, command)\n" + "  else\n")
  {
    assert Calm("    o.bind(keys, description, command)\n") && Calm("  else\n");
    CalmConcat("    o.bind(keys, description, command)\n", "  else\n");
  }

  lemma FunctionElseIsCalm()
    ensures Calm("    hl.bind(keys, hl.dsp.exec_cmd(command))\n" + "  end\nend\n")
  {
    assert Calm("    hl.bind(keys, hl.dsp.exec_cmd(command))\n") && Calm("  end\nend\n");
    CalmConcat("    hl.bind(keys, hl.dsp.exec_cmd(command))\n", "  end\nend\n");
  }

  lemma FourCalm(a: string, b: string, c: string, d: string)
    requires Calm(a) && Calm(b) && Calm(c) && Calm(d)
    ensures Calm(a + b + c + d)
  {
    CalmConcat(a, b);
    CalmConcat(a + b, c);
    CalmConcat(a + b + c, d);
  }

  /** What stands before the lines holds no shortcut. */
  lemma HeaderIsCalm()
    ensures Calm(HEADER)
  {
    FirstLineIsCalm();
    FunctionStartIsCalm();
    FunctionTestIsCalm();
    FunctionThenIsCalm();
    FunctionElseIsCalm();
    FourCalm("local function vault_bind(keys, " + "description, command)\n",
             "  if type(o) == \"table\" and " + "type(o.bind) == \"function\" then\n",
             "    o.bind(keys, description, command)\n" + "  else\n",
             "    hl.bind(keys, hl.dsp.exec_cmd(command))\n" + "  end\nend\n");
    CalmConcat(ConfigText.LUA_HEADER + "\n", FUNCTION);
  }

  lemma {:induction false} JoinPlain(words: seq<string>)
    requires forall i :: 0 <= i < |words| ==> Plain(words[i])
    ensures Plain(Join(words, " + "))
  {
    if |words| > 1 {
      JoinPlain(words[..|words| - 1]);
    }
  }

  lemma ChoiceIsPlain(m: string)
    requires m in MOD_CHOICES
    ensures Plain(m) && Word(m, ModSep)
  {
  }

  lemma KeyIsPlain(key: string)
    requires Offered(key)
    ensures Plain(key) && '+' !in key && TrimSpace(key) == key && key != ""
  {
    TrimNothing(key);
  }

  lemma KeysNotEmpty(p: Planned)
    requires p.key != ""
    ensures LuaKeys(p) != ""
  {
    var all := p.mods + [p.key];
    assert all[|all| - 1] == p.key;
  }

  lemma IdIsPlain(i: nat)
    requires i < |PLAN|
    ensures Plain(PLAN[i].id) && ' ' !in PLAN[i].id && PLAN[i].command == "vaultctl " + PLAN[i].id
  {
    PlanFits(i);
  }

  /** What Build accepts can be written in the Lua form. */
  lemma {:induction false} BuiltIsLuaFit(r: Request)
    requires BuildOf(r).Some?
    ensures LuaFit(BuildOf(r).value, PLAN)
  {
    var p := BuildOf(r).value;
    BuiltIsFit(r);
    FindIs(PLAN, r.id);
    var i :| 0 <= i < |PLAN| && PLAN[i] == Find(PLAN, r.id).value && PLAN[i].id == r.id;
    IdIsPlain(i);
    KeyIsPlain(p.key);
    forall k | 0 <= k < |p.mods| ensures Plain(p.mods[k]) && Word(p.mods[k], ModSep) {
      ChoiceIsPlain(p.mods[k]);
    }
    JoinPlain(p.mods + [p.key]);
    KeysNotEmpty(p);
  }

  /** Requests that are built, written in the Lua form at a path ending in
      "vaultctl" and read back, whatever file of the older form there is, give
      the same actions in order, with the same keys and equivalent modifiers. */
  lemma {:induction false} BuildRenderInstalledLua(reqs: seq<Request>, bs: seq<Planned>, path: string,
                                                   out: seq<Planned>, conf: Option<string>)
    requires reqs != [] && (HasSuffix(path, "vaultctl") || !Usable(path))
    requires AllBuiltAs(reqs, bs) && Moved(bs, path, out)
    ensures var back := InstalledIn(Some(HEADER + LuaLines(out)), conf, PLAN);
            |back| == |reqs| && Answers(back, reqs, bs)
  {
    HeaderIsCalm();
    PlanIsGood();
    forall i | 0 <= i < |bs| ensures LuaFit(bs[i], PLAN) {
      BuiltIsLuaFit(reqs[i]);
    }
    InstalledReadsBack(HEADER, bs, PLAN, path, out, conf);
    FoundAnswer(reqs, bs, |bs|);
    assert AllFound(bs, PLAN)[..|bs|] == AllFound(bs, PLAN);
  }
}
