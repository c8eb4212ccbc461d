/** Key combinations in a canonical form (internal/shortcuts/shortcuts.go):
    aliases of a modifier are one, and their order does not matter. */
module Modifiers {
  import opened Text

  // ---- a canonical list of a set of names ----

  /** Strictly increasing. */
  predicate Strict(s: seq<string>) { forall i, j :: 0 <= i < j < |s| ==> Less(s[i], s[j]) }

  predicate SameNames(a: seq<string>, b: seq<string>) {
    (forall n :: n in a ==> n in b) && (forall n :: n in b ==> n in a)
  }

  function Insert(n: string, s: seq<string>): seq<string> {
    if s == [] || Less(n, s[0]) then [n] + s
    else if n == s[0] then s
    else [s[0]] + Insert(n, s[1..])
  }

  function Sorted(ns: seq<string>): seq<string> {
    if ns == [] then [] else Insert(ns[0], Sorted(ns[1..]))
  }

  /** The names of order that are in ns. */
  function Listed(order: seq<string>, ns: seq<string>): seq<string> {
    if order == [] then [] else (if order[0] in ns then [order[0]] else []) + Listed(order[1..], ns)
  }

  function Unlisted(order: seq<string>, ns: seq<string>): seq<string> {
    if ns == [] then [] else (if ns[0] in order then [] else [ns[0]]) + Unlisted(order, ns[1..])
  }

  /** The known names in their order, then the others sorted. */
  function Canon(order: seq<string>, ns: seq<string>): seq<string> { Listed(order, ns) + Sorted(Unlisted(order, ns)) }

  lemma {:induction false} InsertMembers(n: string, s: seq<string>)
    ensures forall x :: x in Insert(n, s) <==> x == n || x in s
  {
    if s != [] {
      assert s == [s[0]] + s[1..];
      InsertMembers(n, s[1..]);
    }
  }

  lemma {:induction false} InsertStrict(n: string, s: seq<string>)
    requires Strict(s)
    ensures Strict(Insert(n, s))
  {
    if s != [] {
      LessTotal(n, s[0]);
      if Less(n, s[0]) {
        forall j | 0 < j < |s| ensures Less(n, s[j]) {
          LessTransitive(n, s[0], s[j]);
        }
      } else if n != s[0] {
        var rest := Insert(n, s[1..]);
        InsertStrict(n, s[1..]);
        InsertMembers(n, s[1..]);
        forall j | 0 <= j < |rest| ensures Less(s[0], rest[j]) {
          assert rest[j] in rest;
          if rest[j] != n {
            var k :| 0 <= k < |s[1..]| && s[1..][k] == rest[j];
            assert s[1..][k] == s[k + 1];
          }
        }
      }
    }
  }

  lemma {:induction false} SortedStrict(ns: seq<string>)
    ensures Strict(Sorted(ns)) && SameNames(Sorted(ns), ns)
  {
    if ns != [] {
      assert ns == [ns[0]] + ns[1..];
      SortedStrict(ns[1..]);
      InsertStrict(ns[0], Sorted(ns[1..]));
      InsertMembers(ns[0], Sorted(ns[1..]));
    }
  }

  lemma BothEmpty(a: seq<string>, b: seq<string>)
    requires SameNames(a, b)
    ensures a == [] <==> b == []
  {
    if a != [] {
      assert a[0] in b;
    }
    if b != [] {
      assert b[0] in a;
    }
  }

  /** A strictly increasing list is determined by its names. */
  lemma {:induction false} StrictUnique(a: seq<string>, b: seq<string>)
    requires Strict(a) && Strict(b) && SameNames(a, b)
    ensures a == b
  {
    BothEmpty(a, b);
    if a != [] {
      assert a[0] in b;
      assert b[0] in a;
      FirstSame(a, b);
      TailNames(a, b);
      TailNames(b, a);
      StrictUnique(a[1..], b[1..]);
      assert a == [a[0]] + a[1..] && b == [b[0]] + b[1..];
    }
  }

  lemma FirstSame(a: seq<string>, b: seq<string>)
    requires Strict(a) && Strict(b) && a != [] && b != [] && a[0] in b && b[0] in a
    ensures a[0] == b[0]
  {
    var i :| 0 <= i < |b| && b[i] == a[0];
    var j :| 0 <= j < |a| && a[j] == b[0];
    LessTotal(a[0], b[0]);
  }

  lemma TailNames(a: seq<string>, b: seq<string>)
    requires Strict(a) && Strict(b) && a != [] && b != [] && a[0] == b[0] && SameNames(a, b)
    ensures forall n :: n in a[1..] ==> n in b[1..]
  {
    forall n | n in a[1..] ensures n in b[1..] {
      var i :| 0 <= i < |a[1..]| && a[1..][i] == n;
      assert Less(a[0], a[i + 1]);
      LessTotal(a[0], n);
      assert n in b;
    }
  }

  lemma {:induction false} ListedSame(order: seq<string>, a: seq<string>, b: seq<string>)
    requires SameNames(a, b)
    ensures Listed(order, a) == Listed(order, b)
  {
    if order != [] {
      ListedSame(order[1..], a, b);
    }
  }

  lemma {:induction false} ListedMembers(order: seq<string>, ns: seq<string>)
    ensures forall n :: n in Listed(order, ns) <==> n in order && n in ns
  {
    if order != [] {
      ListedMembers(order[1..], ns);
      assert order == [order[0]] + order[1..];
    }
  }

  lemma {:induction false} UnlistedMembers(order: seq<string>, ns: seq<string>)
    ensures forall n :: n in Unlisted(order, ns) <==> n in ns && n !in order
  {
    if ns != [] {
      UnlistedMembers(order, ns[1..]);
      assert ns == [ns[0]] + ns[1..];
    }
  }

  lemma CanonMembers(order: seq<string>, ns: seq<string>)
    ensures SameNames(Canon(order, ns), ns)
  {
    ListedMembers(order, ns);
    UnlistedMembers(order, ns);
    SortedStrict(Unlisted(order, ns));
  }

  /** The canonical list depends on the names only. */
  lemma CanonSame(order: seq<string>, a: seq<string>, b: seq<string>)
    requires SameNames(a, b)
    ensures Canon(order, a) == Canon(order, b)
  {
    ListedSame(order, a, b);
    UnlistedMembers(order, a);
    UnlistedMembers(order, b);
    SortedStrict(Unlisted(order, a));
    SortedStrict(Unlisted(order, b));
    StrictUnique(Sorted(Unlisted(order, a)), Sorted(Unlisted(order, b)));
  }

  /** Where a name stands in the order; at its end if it does not. */
  function Place(order: seq<string>, n: string): (k: nat)
    ensures k <= |order| && (k < |order| <==> n in order) && (k < |order| ==> order[k] == n)
  {
    if order == [] then 0
    else
      assert order == [order[0]] + order[1..];
      if order[0] == n then 0 else 1 + Place(order[1..], n)
  }

  predicate InPlaces(order: seq<string>, l: seq<string>) {
    forall i, j :: 0 <= i < j < |l| ==> Place(order, l[i]) < Place(order, l[j])
  }

  lemma {:induction false} ListedInOrder(order: seq<string>, ns: seq<string>)
    requires Distinct(order)
    ensures InPlaces(order, Listed(order, ns))
  {
    if order != [] {
      var rest, l := Listed(order[1..], ns), Listed(order, ns);
      ListedInOrder(order[1..], ns);
      ListedMembers(order[1..], ns);
      forall i | 0 <= i < |rest|
        ensures rest[i] in order[1..] && Place(order, rest[i]) == 1 + Place(order[1..], rest[i])
      {
        assert rest[i] in rest;
        var k :| 0 <= k < |order[1..]| && order[1..][k] == rest[i];
        assert order[k + 1] == rest[i];
      }
      LaterPlaces(order, rest);
      if order[0] in ns {
        FirstPlace(order, rest);
        assert l == [order[0]] + rest;
      } else {
        assert l == [] + rest == rest;
      }
    }
  }

  lemma LaterPlaces(order: seq<string>, rest: seq<string>)
    requires order != [] && InPlaces(order[1..], rest)
    requires forall i :: 0 <= i < |rest| ==> Place(order, rest[i]) == 1 + Place(order[1..], rest[i])
    ensures InPlaces(order, rest)
  {
  }

  lemma FirstPlace(order: seq<string>, rest: seq<string>)
    requires order != [] && InPlaces(order, rest)
    requires forall i :: 0 <= i < |rest| ==> Place(order, rest[i]) > 0
    ensures InPlaces(order, [order[0]] + rest)
  {
    assert Place(order, order[0]) == 0;
  }

  /** Known names stand in their order and before the others, which ascend. */
  lemma {:induction false} CanonInOrder(order: seq<string>, ns: seq<string>, i: nat, j: nat)
    requires Distinct(order) && i < j < |Canon(order, ns)|
    ensures var a, b := Canon(order, ns)[i], Canon(order, ns)[j];
            if b in order then Place(order, a) < Place(order, b) else a in order || Less(a, b)
  {
    var l, u := Listed(order, ns), Sorted(Unlisted(order, ns));
    ListedInOrder(order, ns);
    ListedMembers(order, ns);
    UnlistedMembers(order, ns);
    SortedStrict(Unlisted(order, ns));
    assert forall k :: 0 <= k < |u| ==> u[k] in u;
    assert forall k :: 0 <= k < |l| ==> l[k] in l;
  }

  // ---- modifiers ----

  const MOD_ORDER := ["SUPER", "CTRL", "ALT", "SHIFT", "MOD3", "MOD5"]

  /** unicode.ToUpper as far as the result is ASCII: a dotless i and a long s
      have upper cases there. */
  function Upper(c: char): char {
    if 'a' <= c <= 'z' then (c as int - 32) as char
    else if c == '\U{0131}' then 'I'
    else if c == '\U{017F}' then 'S'
    else c
  }

  function ToUpper(s: string): string { seq(|s|, i requires 0 <= i < |s| => Upper(s[i])) }

  function Alias(u: string): string {
    if u == "WIN" || u == "LOGO" || u == "MOD4" || u == "META" then "SUPER"
    else if u == "CONTROL" then "CTRL"
    else if u == "MOD1" then "ALT"
    else if u == "CAPS" || u == "MOD2" then ""
    else u
  }

  /** The canonical name; "" for a lock, which Hyprland ignores. */
  function NormalizeMod(m: string): string { Alias(ToUpper(TrimSpace(m))) }

  predicate ModSep(c: char) { c == ' ' || c == '_' || c == '+' || c == '\t' }

  function Names(words: seq<string>, norm: string -> string): seq<string> {
    NonEmpty(seq(|words|, i requires 0 <= i < |words| => norm(words[i])))
  }

  function ModNames(s: string): seq<string> { Names(FieldsFunc(s, ModSep), NormalizeMod) }
  function Mods(s: string): seq<string> { Canon(MOD_ORDER, ModNames(s)) }

  method SeenNames(f: seq<string>) returns (seen: set<string>)
    ensures forall n :: n in seen <==> n in Names(f, NormalizeMod)
  {
    seen := {};
    for i := 0 to |f|
      invariant forall n :: n in seen <==> n in Names(f[..i], NormalizeMod)
    {
      NamesStep(f, i, NormalizeMod);
      var n := NormalizeMod(f[i]);
      if n != "" {
        seen := seen + {n};
      }
    }
    assert f[..|f|] == f;
  }

  predicate Distinct(order: seq<string>) { forall i, j :: 0 <= i < j < |order| ==> order[i] != order[j] }

  lemma OrderDistinct()
    ensures Distinct(MOD_ORDER)
  {
  }

  /** The listed names move from seen to the result. */
  method TakeListed(order: seq<string>, names: set<string>, ghost ns: seq<string>)
    returns (out: seq<string>, seen: set<string>)
    requires Distinct(order) && forall n :: n in names <==> n in ns
    ensures out == Listed(order, ns)
    ensures forall n :: n in seen <==> n in ns && n !in order
  {
    out, seen := [], names;
    for i := 0 to |order|
      invariant out + Listed(order[i..], ns) == Listed(order, ns)
      invariant forall n :: n in seen <==> n in ns && n !in order[..i]
    {
      var m := order[i];
      assert order[i..][0] == m && order[i..][1..] == order[i + 1..] && order[..i + 1] == order[..i] + [m];
      if m in seen {
        out := out + [m];
        seen := seen - {m};
      }
    }
    assert order[..|order|] == order;
  }

  method InAnyOrder(names: set<string>) returns (rest: seq<string>)
    ensures forall n :: n in rest <==> n in names
  {
    rest := [];
    var todo := names;
    while todo != {}
      invariant todo <= names
      invariant forall n :: n in rest <==> n in names && n !in todo
      decreases |todo|
    {
      var m :| m in todo;
      todo := todo - {m};
      rest := rest + [m];
    }
  }

  method ParseMods(s: string) returns (out: seq<string>)
    ensures out == Mods(s)
  {
    var seen := SeenNames(FieldsFunc(s, ModSep));
    OrderDistinct();
    out, seen := TakeListed(MOD_ORDER, seen, ModNames(s));
    var rest := InAnyOrder(seen);
    UnlistedMembers(MOD_ORDER, ModNames(s));
    SortedSame(rest, Unlisted(MOD_ORDER, ModNames(s)));
    out := out + Sorted(rest);
  }

  lemma SortedSame(a: seq<string>, b: seq<string>)
    requires SameNames(a, b)
    ensures Sorted(a) == Sorted(b)
  {
    SortedStrict(a);
    SortedStrict(b);
    StrictUnique(Sorted(a), Sorted(b));
  }

  lemma NamesStep(f: seq<string>, i: nat, norm: string -> string)
    requires i < |f|
    ensures Names(f[..i + 1], norm) == Names(f[..i], norm) + if norm(f[i]) == "" then [] else [norm(f[i])]
  {
    var a := seq(|f[..i]|, k requires 0 <= k < |f[..i]| => norm(f[..i][k]));
    var b := seq(|f[..i + 1]|, k requires 0 <= k < |f[..i + 1]| => norm(f[..i + 1][k]));
    assert b == a + [norm(f[i])];
    NonEmptyConcat(a, [norm(f[i])]);
    assert [norm(f[i])][1..] == [];
  }

  // ---- canonical lists are read back ----

  /** Fixed by norm, and a word of FieldsFunc. */
  ghost predicate Settled(n: string, norm: string -> string) { norm(n) == n && Word(n, ModSep) }

  lemma UpperKeeps(c: char)
    ensures Upper(Upper(c)) == Upper(c) && (IsSpace(Upper(c)) <==> IsSpace(c)) && (ModSep(Upper(c)) <==> ModSep(c))
  {
  }

  lemma UpperAgain(s: string)
    ensures ToUpper(ToUpper(s)) == ToUpper(s)
  {
    forall i | 0 <= i < |s| ensures Upper(ToUpper(s)[i]) == ToUpper(s)[i] {
      UpperKeeps(s[i]);
    }
  }

  lemma CanonicalName(u: string)
    requires u == "SUPER" || u == "CTRL" || u == "ALT"
    ensures Settled(u, NormalizeMod)
  {
    TrimNothing(u);
    assert ToUpper(u) == u;
  }

  /** A canonical name is its own, and has no separators. */
  lemma NormalizedIsSettled(m: string)
    requires Word(m, ModSep) && NormalizeMod(m) != ""
    ensures Settled(NormalizeMod(m), NormalizeMod)
  {
    var t := TrimSpace(m);
    var u := ToUpper(t);
    if Alias(u) == u {
      UpperKeeps(t[0]);
      UpperKeeps(t[|t| - 1]);
      TrimNothing(u);
      UpperAgain(t);
      TrimSub(m);
      forall k | 0 <= k < |u| ensures !ModSep(u[k]) {
        UpperKeeps(t[k]);
        assert t[k] in m;
      }
    } else {
      CanonicalName(Alias(u));
    }
  }

  lemma NamesMembers(words: seq<string>, norm: string -> string, n: string)
    ensures n in Names(words, norm) <==> n != "" && exists i :: 0 <= i < |words| && norm(words[i]) == n
  {
    var all := seq(|words|, i requires 0 <= i < |words| => norm(words[i]));
    NonEmptyMembers(all, n);
    if i :| 0 <= i < |words| && norm(words[i]) == n {
      assert all[i] == n;
    }
  }

  lemma ModNamesSettled(s: string, n: string)
    requires n in ModNames(s)
    ensures Settled(n, NormalizeMod)
  {
    var f := FieldsFunc(s, ModSep);
    FieldsAreWords(s, ModSep);
    NamesMembers(f, NormalizeMod, n);
    var i :| 0 <= i < |f| && NormalizeMod(f[i]) == n;
    NormalizedIsSettled(f[i]);
  }

  lemma NamesOfSettled(words: seq<string>, norm: string -> string)
    requires forall i :: 0 <= i < |words| ==> Settled(words[i], norm)
    ensures Words(words, ModSep) && Names(words, norm) == words
  {
    assert seq(|words|, i requires 0 <= i < |words| => norm(words[i])) == words;
    NonEmptyAll(words);
  }

  lemma ModsSettled(s: string)
    ensures forall i :: 0 <= i < |Mods(s)| ==> Settled(Mods(s)[i], NormalizeMod)
  {
    CanonMembers(MOD_ORDER, ModNames(s));
    forall i | 0 <= i < |Mods(s)| ensures Settled(Mods(s)[i], NormalizeMod) {
      ModNamesSettled(s, Mods(s)[i]);
    }
  }

  /** A list of settled names, joined by blanks, has these names. */
  lemma SettledNames(words: seq<string>)
    requires forall i :: 0 <= i < |words| ==> Settled(words[i], NormalizeMod)
    ensures ModNames(Join(words, " ")) == words
  {
    NamesOfSettled(words, NormalizeMod);
    FieldsJoined(words, ModSep);
  }

  /** Parsing what was parsed changes nothing. */
  lemma ParseModsAgain(s: string)
    ensures Mods(Join(Mods(s), " ")) == Mods(s)
  {
    ModsSettled(s);
    SettledNames(Mods(s));
    CanonMembers(MOD_ORDER, ModNames(s));
    CanonSame(MOD_ORDER, Mods(s), ModNames(s));
  }

  // ---- combinations ----

  function ModsOf(mods: seq<string>): seq<string> { Mods(Join(mods, " ")) }
  function KeyOf(key: string): string { ToUpper(TrimSpace(key)) }

  /** One character for all that strings.EqualFold takes to equal an ASCII one:
      to s a long s, to k the Kelvin sign. */
  function Fold(c: char): char {
    if 'a' <= c <= 'z' then (c as int - 32) as char
    else if c == '\U{017F}' then 'S'
    else if c == '\U{212A}' then 'K'
    else c
  }

  function Folded(key: string): string {
    var s := TrimSpace(key);
    seq(|s|, i requires 0 <= i < |s| => Fold(s[i]))
  }

  predicate SameCombo(aMods: seq<string>, aKey: string, bMods: seq<string>, bKey: string) {
    Folded(aKey) == Folded(bKey) && Join(ModsOf(aMods), " ") == Join(ModsOf(bMods), " ")
  }

  /** Small letters have their capitals, in order; no other character has one but
      the dotless i and the long s. */
  lemma UpperExactly(c: char)
    ensures 'a' <= c <= 'z' ==> Upper(c) as int - 'A' as int == c as int - 'a' as int
    ensures Upper(c) != c <==> 'a' <= c <= 'z' || c == '\U{0131}' || c == '\U{017F}'
  {
  }

  /** The same letter but for case; k and s have a third form each. */
  predicate Alike(c: char, d: char) {
    c == d || Cased(c, d) || Cased(d, c) || Third(c, d, 'k', 'K', '\U{212A}') || Third(c, d, 's', 'S', '\U{017F}')
  }

  predicate Cased(c: char, d: char) { 'a' <= c <= 'z' && d as int == c as int - 32 }
  predicate Third(c: char, d: char, x: char, y: char, z: char) {
    (c == x || c == y || c == z) && (d == x || d == y || d == z)
  }

  lemma FoldExactly(c: char, d: char)
    ensures Fold(c) == Fold(d) <==> Alike(c, d)
  {
  }

  /** Keys are equal exactly if, without white space around them, they are alike
      in every character. */
  lemma FoldedExactly(a: string, b: string)
    ensures Folded(a) == Folded(b) <==>
              |TrimSpace(a)| == |TrimSpace(b)|
              && forall i :: 0 <= i < |TrimSpace(a)| ==> Alike(TrimSpace(a)[i], TrimSpace(b)[i])
  {
    var x, y := TrimSpace(a), TrimSpace(b);
    if |x| == |y| {
      forall i | 0 <= i < |x| ensures Folded(a)[i] == Folded(b)[i] <==> Alike(x[i], y[i]) {
        FoldExactly(x[i], y[i]);
      }
    }
  }

  const SUPERS := ["SUPER", "WIN", "LOGO", "MOD4", "META"]
  const CTRLS := ["CTRL", "CONTROL"]
  const ALTS := ["ALT", "MOD1"]
  const LOCKS := ["CAPS", "MOD2", ""]

  /** Names for the same modifier. */
  predicate SameMod(a: string, b: string) {
    || a == b || (a in SUPERS && b in SUPERS) || (a in CTRLS && b in CTRLS) || (a in ALTS && b in ALTS)
    || (a in LOCKS && b in LOCKS)
  }

  /** Two names are taken for one modifier exactly if, in upper case, they are
      names for the same; only the locks are ignored. */
  lemma AliasExactly(a: string, b: string)
    ensures Alias(a) == Alias(b) <==> SameMod(a, b)
    ensures Alias(a) == "" <==> a in LOCKS
  {
    AliasIs(a);
    AliasIs(b);
  }

  lemma AliasIs(a: string)
    ensures (Alias(a) == "SUPER" <==> a in SUPERS) && (Alias(a) == "CTRL" <==> a in CTRLS)
    ensures (Alias(a) == "ALT" <==> a in ALTS) && (Alias(a) == "" <==> a in LOCKS)
    ensures a !in SUPERS && a !in CTRLS && a !in ALTS && a !in LOCKS ==> Alias(a) == a
  {
    assert SUPERS[0] == "SUPER" && CTRLS[0] == "CTRL" && ALTS[0] == "ALT" && LOCKS[2] == "";
  }

  lemma WordsJoined(a: seq<string>, b: seq<string>)
    requires Words(a, ModSep) && Words(b, ModSep) && Join(a, " ") == Join(b, " ")
    ensures a == b
  {
    FieldsJoined(a, ModSep);
    FieldsJoined(b, ModSep);
  }

  /** Two combinations are the same exactly when the keys are equal but for case
      and the same modifiers are held, under whatever aliases and in whatever
      order. */
  lemma {:induction false} SameComboExactly(aMods: seq<string>, aKey: string, bMods: seq<string>, bKey: string)
    ensures SameCombo(aMods, aKey, bMods, bKey) <==>
              Folded(aKey) == Folded(bKey) && SameNames(ModNames(Join(aMods, " ")), ModNames(Join(bMods, " ")))
  {
    var a, b := Join(aMods, " "), Join(bMods, " ");
    CanonMembers(MOD_ORDER, ModNames(a));
    CanonMembers(MOD_ORDER, ModNames(b));
    if Join(Mods(a), " ") == Join(Mods(b), " ") {
      ModsSettled(a);
      ModsSettled(b);
      NamesOfSettled(Mods(a), NormalizeMod);
      NamesOfSettled(Mods(b), NormalizeMod);
      WordsJoined(Mods(a), Mods(b));
    }
    if SameNames(ModNames(a), ModNames(b)) {
      CanonSame(MOD_ORDER, ModNames(a), ModNames(b));
    }
  }

  lemma SameComboIsEquivalence(aMods: seq<string>, aKey: string, bMods: seq<string>, bKey: string, cMods: seq<string>,
                               cKey: string)
    ensures SameCombo(aMods, aKey, aMods, aKey)
    ensures SameCombo(aMods, aKey, bMods, bKey) ==> SameCombo(bMods, bKey, aMods, aKey)
    ensures SameCombo(aMods, aKey, bMods, bKey) && SameCombo(bMods, bKey, cMods, cKey) ==>
              SameCombo(aMods, aKey, cMods, cKey)
  {
  }

  /** So parsed modifiers stand as Super, Ctrl, Alt, Shift and the two numbered
      ones, and then whatever else there is in ascending order. */
  lemma {:induction false} ModsInOrder(s: string, i: nat, j: nat)
    requires i < j < |Mods(s)|
    ensures var order := ["SUPER", "CTRL", "ALT", "SHIFT", "MOD3", "MOD5"];
            var a, b := Mods(s)[i], Mods(s)[j];
            if b in order then Place(order, a) < Place(order, b) else a in order || Less(a, b)
  {
    OrderDistinct();
    CanonInOrder(MOD_ORDER, ModNames(s), i, j);
  }
}
