/** Go's strings package, as far as the modelled code needs it. A string is a
    sequence of chars: bytes where the code works on bytes (paths, names in a
    tree), decoded characters where it works on text (config files). */
module Text {

  predicate HasPrefix(s: string, p: string) { p <= s }

  predicate HasSuffix(s: string, p: string) { |p| <= |s| && s[|s| - |p|..] == p }

  /** strings.Split on one separator byte; "" has one empty part. */
  function Split(s: string, sep: char): (parts: seq<string>)
    ensures parts != []
  {
    if s == [] then [[]] else Extend(Split(s[..|s| - 1], sep), s[|s| - 1], sep)
  }

  /** The parts after one more byte. */
  function Extend(r: seq<string>, c: char, sep: char): (parts: seq<string>)
    requires r != []
    ensures parts != []
  {
    if c == sep then r + [[]] else r[..|r| - 1] + [r[|r| - 1] + [c]]
  }

  function Join(parts: seq<string>, sep: string): string {
    if parts == [] then []
    else if |parts| == 1 then parts[0]
    else Join(parts[..|parts| - 1], sep) + sep + parts[|parts| - 1]
  }

  /** No part holds the separator. */
  predicate Apart(parts: seq<string>, sep: char) {
    forall i :: 0 <= i < |parts| ==> sep !in parts[i]
  }

  lemma {:induction false} SplitApart(s: string, sep: char)
    ensures Apart(Split(s, sep), sep)
  {
    if s != [] {
      SplitApart(s[..|s| - 1], sep);
    }
  }

  lemma {:induction false} SplitConcat(a: string, b: string, sep: char)
    ensures Split(a + [sep] + b, sep) == Split(a, sep) + Split(b, sep)
  {
    var s := a + [sep] + b;
    if b == [] {
      assert s[..|s| - 1] == a;
    } else {
      var init, last := b[..|b| - 1], b[|b| - 1];
      SplitConcat(a, init, sep);
      assert s == (a + [sep] + init) + [last] && b == init + [last];
      SplitMore(a + [sep] + init, last, sep);
      SplitMore(init, last, sep);
      ExtendLast(Split(a, sep), Split(init, sep), last, sep);
    }
  }

  lemma SplitMore(s: string, c: char, sep: char)
    ensures Split(s + [c], sep) == Extend(Split(s, sep), c, sep)
  {
    assert (s + [c])[..|s|] == s;
  }

  lemma SplitLast(s: string, sep: char)
    requires s != []
    ensures Split(s, sep) == Extend(Split(s[..|s| - 1], sep), s[|s| - 1], sep)
  {
  }

  lemma ExtendLast(x: seq<string>, r: seq<string>, c: char, sep: char)
    requires r != []
    ensures Extend(x + r, c, sep) == x + Extend(r, c, sep)
  {
  }

  lemma {:induction false} SplitNone(s: string, sep: char)
    requires sep !in s
    ensures Split(s, sep) == [s]
  {
    if s != [] {
      var init, last := s[..|s| - 1], s[|s| - 1];
      SplitNone(init, sep);
      SplitLast(s, sep);
      assert Extend([init], last, sep) == [init + [last]];
      assert s == init + [last];
    }
  }

  lemma {:induction false} SplitJoin(parts: seq<string>, sep: char)
    requires parts != [] && Apart(parts, sep)
    ensures Split(Join(parts, [sep]), sep) == parts
  {
    var last := parts[|parts| - 1];
    SplitNone(last, sep);
    if |parts| > 1 {
      SplitJoin(parts[..|parts| - 1], sep);
      SplitConcat(Join(parts[..|parts| - 1], [sep]), last, sep);
    }
  }

  lemma {:induction false} JoinSplit(s: string, sep: char)
    ensures Join(Split(s, sep), [sep]) == s
  {
    if s != [] {
      var r, c := Split(s[..|s| - 1], sep), s[|s| - 1];
      JoinSplit(s[..|s| - 1], sep);
      assert s == s[..|s| - 1] + [c];
      if c == sep {
        assert (r + [[]])[..|r|] == r;
      } else {
        var head, last := r[..|r| - 1], r[|r| - 1];
        assert r == head + [last];
        assert (head + [last + [c]])[..|head|] == head;
      }
    }
  }

  lemma JoinLast(parts: seq<string>, last: string, sep: string)
    requires parts != []
    ensures Join(parts + [last], sep) == Join(parts, sep) + sep + last
  {
    assert (parts + [last])[..|parts|] == parts;
  }

  lemma {:induction false} JoinConcat(a: seq<string>, b: seq<string>, sep: string)
    requires a != [] && b != []
    ensures Join(a + b, sep) == Join(a, sep) + sep + Join(b, sep)
  {
    var init, last := b[..|b| - 1], b[|b| - 1];
    if init == [] {
      assert b == [last];
      JoinLast(a, last, sep);
    } else {
      JoinConcat(a, init, sep);
      assert b == init + [last] && a + b == (a + init) + [last];
      JoinLast(init, last, sep);
      JoinLast(a + init, last, sep);
      JoinRegroup(Join(a, sep), sep, Join(init, sep), last);
    }
  }

  lemma JoinRegroup(a: string, sep: string, b: string, last: string)
    ensures (a + sep + b) + sep + last == a + sep + (b + sep + last)
  {
  }

  lemma {:induction false} JoinFirst(parts: seq<string>, sep: string)
    requires parts != [] && parts[0] != []
    ensures Join(parts, sep) != [] && Join(parts, sep)[0] == parts[0][0]
  {
    if |parts| > 1 {
      JoinFirst(parts[..|parts| - 1], sep);
    }
  }

  /** Join is injective on nonempty lists of parts without the separator. */
  lemma JoinInjective(a: seq<string>, b: seq<string>, sep: char)
    requires a != [] && b != [] && Apart(a, sep) && Apart(b, sep) && Join(a, [sep]) == Join(b, [sep])
    ensures a == b
  {
    SplitJoin(a, sep);
    SplitJoin(b, sep);
  }

  // ---- cutting ----

  /** The first c in s, or its length. */
  function IndexOf(s: string, c: char): (i: nat)
    ensures i <= |s| && c !in s[..i] && (i < |s| ==> s[i] == c)
  {
    if s == "" || s[0] == c then 0
    else
      var i := 1 + IndexOf(s[1..], c);
      assert s[..i] == [s[0]] + s[1..][..i - 1];
      i
  }

  lemma {:induction false} IndexIs(s: string, c: char, k: nat)
    requires k <= |s| && c !in s[..k] && (k < |s| ==> s[k] == c)
    ensures IndexOf(s, c) == k
  {
    if k > 0 {
      assert s[..k] == [s[0]] + s[1..][..k - 1];
      IndexIs(s[1..], c, k - 1);
    }
  }

  /** strings.SplitN for a positive n. */
  function SplitN(s: string, sep: char, n: nat): seq<string> {
    if n <= 1 then [s]
    else
      var i := IndexOf(s, sep);
      if i == |s| then [s] else [s[..i]] + SplitN(s[i + 1..], sep, n - 1)
  }

  lemma SplitNFirst(a: string, sep: char, rest: string, n: nat)
    requires sep !in a && n > 1
    ensures SplitN(a + [sep] + rest, sep, n) == [a] + SplitN(rest, sep, n - 1)
  {
    var s := a + [sep] + rest;
    assert s[..|a|] == a && s[|a| + 1..] == rest;
    IndexIs(s, sep, |a|);
  }

  // ---- words and replacing ----

  function NonEmpty(parts: seq<string>): seq<string> {
    if parts == [] then [] else (if parts[0] == "" then [] else [parts[0]]) + NonEmpty(parts[1..])
  }

  lemma {:induction false} NonEmptyConcat(a: seq<string>, b: seq<string>)
    ensures NonEmpty(a + b) == NonEmpty(a) + NonEmpty(b)
  {
    if a == [] {
      assert a + b == b;
    } else {
      assert (a + b)[1..] == a[1..] + b;
      NonEmptyConcat(a[1..], b);
    }
  }

  lemma {:induction false} NonEmptyMembers(parts: seq<string>, l: string)
    ensures l in NonEmpty(parts) <==> l in parts && l != ""
  {
    if parts != [] {
      NonEmptyMembers(parts[1..], l);
      assert l in parts <==> l == parts[0] || l in parts[1..];
    }
  }

  /** strings.FieldsFunc: what is left between the separators. */
  function FieldsFunc(s: string, sep: char -> bool): seq<string> {
    NonEmpty(Split(Blank(s, sep), ' '))
  }

  lemma {:induction false} NonEmptyAll(parts: seq<string>)
    requires forall i :: 0 <= i < |parts| ==> parts[i] != ""
    ensures NonEmpty(parts) == parts
  {
    if parts != [] {
      NonEmptyAll(parts[1..]);
    }
  }

  predicate Word(w: string, sep: char -> bool) { w != "" && forall k :: 0 <= k < |w| ==> !sep(w[k]) }
  predicate Words(words: seq<string>, sep: char -> bool) { forall i :: 0 <= i < |words| ==> Word(words[i], sep) }

  /** Words joined by blanks are read back as the words. */
  lemma FieldsJoined(words: seq<string>, sep: char -> bool)
    requires Words(words, sep) && sep(' ')
    ensures FieldsFunc(Join(words, " "), sep) == words
  {
    if words != [] {
      JoinedChars(words, sep);
      BlankNothing(Join(words, " "), sep);
      assert forall i :: 0 <= i < |words| ==> Word(words[i], sep) ==> ' ' !in words[i];
      SplitJoin(words, ' ');
      NonEmptyAll(words);
    } else {
      BlankNothing("", sep);
      assert [""][1..] == [];
    }
  }

  function Blank(s: string, sep: char -> bool): string {
    seq(|s|, i requires 0 <= i < |s| => if sep(s[i]) then ' ' else s[i])
  }

  /** No separators but blanks. */
  predicate OnlyBlanks(s: string, sep: char -> bool) { forall i :: 0 <= i < |s| ==> s[i] == ' ' || !sep(s[i]) }

  lemma BlankNothing(s: string, sep: char -> bool)
    requires sep(' ') && OnlyBlanks(s, sep)
    ensures Blank(s, sep) == s
  {
    forall i | 0 <= i < |s| ensures Blank(s, sep)[i] == s[i] {
    }
  }

  lemma {:induction false} JoinedChars(words: seq<string>, sep: char -> bool)
    requires words != [] && Words(words, sep)
    ensures OnlyBlanks(Join(words, " "), sep)
  {
    var last := words[|words| - 1];
    assert Word(last, sep);
    if |words| > 1 {
      var rest := words[..|words| - 1];
      assert Words(rest, sep);
      JoinedChars(rest, sep);
      var s, n := Join(words, " "), |Join(rest, " ")|;
      forall i | 0 <= i < |s| ensures s[i] == ' ' || !sep(s[i]) {
        if i < n {
          assert s[i] == Join(rest, " ")[i];
        } else if i > n {
          assert s[i] == last[i - n - 1];
        }
      }
    } else {
      assert Join(words, " ") == last;
    }
  }

  lemma {:induction false} SplitChars(s: string, sep: char)
    ensures forall i, c :: 0 <= i < |Split(s, sep)| && c in Split(s, sep)[i] ==> c in s
  {
    if s != [] {
      var s' := s[..|s| - 1];
      SplitChars(s', sep);
      assert s == s' + [s[|s| - 1]];
    }
  }

  lemma FieldsBlank(s: string, sep: char -> bool)
    requires sep(' ')
    ensures FieldsFunc(" " + s, sep) == FieldsFunc(s, sep)
  {
    var b := Blank(s, sep);
    assert Blank(" " + s, sep) == [] + [' '] + b;
    SplitConcat([], b, ' ');
    NonEmptyConcat([""], Split(b, ' '));
    assert [""][1..] == [];
  }

  /** What FieldsFunc returns has no separators and is not empty. */
  lemma FieldsAreWords(s: string, sep: char -> bool)
    requires sep(' ')
    ensures Words(FieldsFunc(s, sep), sep)
  {
    var b := Blank(s, sep);
    var parts, f := Split(b, ' '), FieldsFunc(s, sep);
    SplitApart(b, ' ');
    SplitChars(b, ' ');
    forall i | 0 <= i < |f| ensures Word(f[i], sep) {
      NonEmptyMembers(parts, f[i]);
      var j :| 0 <= j < |parts| && parts[j] == f[i];
      forall k | 0 <= k < |f[i]| ensures !sep(f[i][k]) {
        var c := f[i][k];
        assert c in Split(b, ' ')[j] && c != ' ';
        assert c in b;
        var m :| 0 <= m < |b| && b[m] == c;
        assert b[m] == if sep(s[m]) then ' ' else s[m];
      }
    }
  }

  predicate OccursAt(s: string, sub: string, i: int) { 0 <= i <= |s| - |sub| && s[i..i + |sub|] == sub }
  predicate Contains(s: string, sub: string) { exists i :: 0 <= i <= |s| && OccursAt(s, sub, i) }

  /** strings.ReplaceAll for a nonempty from. */
  function ReplaceAll(s: string, from: string, to: string): string
    requires from != ""
  {
    if |s| < |from| then s
    else if s[..|from|] == from then to + ReplaceAll(s[|from|..], from, to)
    else [s[0]] + ReplaceAll(s[1..], from, to)
  }

  lemma {:induction false} ReplaceNothing(s: string, from: string, to: string)
    requires from != "" && from[0] !in s
    ensures ReplaceAll(s, from, to) == s
  {
    if |s| >= |from| {
      assert s[..|from|][0] == s[0];
      ReplaceNothing(s[1..], from, to);
    }
  }

  // ---- white space ----

  /** unicode.IsSpace. */
  predicate IsSpace(c: char) {
    var x := c as int;
    9 <= x <= 13 || x == 0x20 || x == 0x85 || x == 0xA0 || x == 0x1680 || 0x2000 <= x <= 0x200a
    || x == 0x2028 || x == 0x2029 || x == 0x202f || x == 0x205f || x == 0x3000
  }

  function TrimSpace(s: string): (r: string)
    ensures r != "" ==> !IsSpace(r[0]) && !IsSpace(r[|r| - 1])
  {
    if s == "" then ""
    else if IsSpace(s[0]) then TrimSpace(s[1..])
    else if IsSpace(s[|s| - 1]) then TrimSpace(s[..|s| - 1])
    else s
  }

  lemma {:induction false} TrimSub(s: string)
    ensures forall c :: c in TrimSpace(s) ==> c in s
  {
    if s == "" {
    } else if IsSpace(s[0]) {
      TrimSub(s[1..]);
    } else if IsSpace(s[|s| - 1]) {
      TrimSub(s[..|s| - 1]);
    }
  }

  lemma TrimNothing(s: string)
    requires s != "" && !IsSpace(s[0]) && !IsSpace(s[|s| - 1])
    ensures TrimSpace(s) == s
  {
  }

  // ---- order ----

  /** Go's < on strings. */
  predicate Less(a: string, b: string) {
    b != [] && (a == [] || a[0] < b[0] || (a[0] == b[0] && Less(a[1..], b[1..])))
  }

  /** Which string is the smaller: a proper prefix, or the one with the smaller
      character where they first differ. */
  lemma {:induction false} LessExactly(a: string, b: string)
    ensures Less(a, b) <==> exists k :: DiffersAt(a, b, k) && (k == |a| || (k < |b| && a[k] < b[k]))
  {
    if a == [] || b == [] || a[0] != b[0] {
      if b != [] {
        assert DiffersAt(a, b, 0);
      }
    } else {
      LessExactly(a[1..], b[1..]);
      if k :| DiffersAt(a[1..], b[1..], k) && (k == |a[1..]| || (k < |b[1..]| && a[1..][k] < b[1..][k])) {
        assert a[..k + 1] == [a[0]] + a[1..][..k] && b[..k + 1] == [b[0]] + b[1..][..k];
        assert DiffersAt(a, b, k + 1);
      }
      if k :| DiffersAt(a, b, k) && (k == |a| || (k < |b| && a[k] < b[k])) {
        assert k > 0;
        assert a[1..][..k - 1] == a[..k][1..] && b[1..][..k - 1] == b[..k][1..];
        assert DiffersAt(a[1..], b[1..], k - 1);
      }
    }
  }

  /** The strings agree up to k and no further, and are not equal. */
  predicate DiffersAt(a: string, b: string, k: int) {
    0 <= k <= |a| && k <= |b| && a[..k] == b[..k] && (k < |a| && k < |b| ==> a[k] != b[k]) && !(k == |a| && k == |b|)
  }

  lemma {:induction false} LessTotal(a: string, b: string)
    ensures Less(a, b) || Less(b, a) || a == b
    ensures !(Less(a, b) && Less(b, a)) && !(Less(a, b) && a == b)
  {
    if a != [] && b != [] && a[0] == b[0] {
      LessTotal(a[1..], b[1..]);
      assert a == [a[0]] + a[1..] && b == [b[0]] + b[1..];
    }
  }

  lemma {:induction false} LessTransitive(a: string, b: string, c: string)
    requires Less(a, b) && Less(b, c)
    ensures Less(a, c)
  {
    if a != [] && a[0] == b[0] == c[0] {
      LessTransitive(a[1..], b[1..], c[1..]);
    }
  }
}
