/** File names for uploads (internal/transfer/save.go): the cleaning of a
    phone-supplied name and the numbered candidates tried when it is taken.
    A string here is a sequence of code points; an undecodable byte of the
    original appears as U+FFFD, which is what Go's range loop yields for it.
    Sizes are in bytes of the UTF-8 encoding. */
module Names {
  import opened Text

  const MAX_NAME_BYTES := 200
  const MAX_EXT_BYTES := 16
  const TEMP_PREFIX := ".vault-partial-"

  function RuneLen(c: char): (n: nat)
    ensures 1 <= n <= 4
  {
    if c as int < 0x80 then 1 else if c as int < 0x800 then 2 else if c as int < 0x1_0000 then 3 else 4
  }

  function ByteLen(s: string): nat {
    if s == [] then 0 else ByteLen(s[..|s| - 1]) + RuneLen(s[|s| - 1])
  }

  predicate IsControl(c: char) { c as int < 0x20 || 0x7f <= c as int < 0xa0 }

  predicate IsBidiTrick(c: char) { c as int == 0x202e || c as int == 0x202d }

  /** What one rune of the raw name becomes. */
  function CleanRune(c: char): string {
    if c as int == 0xfffd || c == '/' || c as int == 0 then "_"
    else if IsControl(c) || IsBidiTrick(c) then []
    else [c]
  }

  function CleanRunes(s: string): string {
    if s == [] then [] else CleanRunes(s[..|s| - 1]) + CleanRune(s[|s| - 1])
  }

  /** How many leading runes satisfy drop. */
  function Leading(s: string, drop: char -> bool): (n: nat)
    ensures n <= |s| && (n < |s| ==> !drop(s[n]))
    ensures forall k :: 0 <= k < n ==> drop(s[k])
  {
    if s != [] && drop(s[0]) then 1 + Leading(s[1..], drop) else 0
  }

  function DropLeft(s: string, drop: char -> bool): string { s[Leading(s, drop)..] }

  function DropRight(s: string, drop: char -> bool): (r: string)
    ensures r <= s
    ensures forall k :: |r| <= k < |s| ==> drop(s[k])
    ensures r == [] || !drop(r[|r| - 1])
  {
    if s != [] && drop(s[|s| - 1]) then DropRight(s[..|s| - 1], drop) else s
  }

  function LastSlash(s: string): (k: int)
    ensures -1 <= k < |s|
    ensures k >= 0 ==> s[k] == '/'
    ensures forall j :: k < j < |s| ==> s[j] != '/'
  {
    if s == [] then -1 else if s[|s| - 1] == '/' then |s| - 1 else LastSlash(s[..|s| - 1])
  }

  /** path.Base: the last element of a slash-separated path. */
  function Base(s: string): (r: string)
    ensures r != []
  {
    if s == [] then "."
    else
      var t := DropRight(s, c => c == '/');
      var b := t[LastSlash(t) + 1..];
      if b == [] then "/" else b
  }

  function Slashes(s: string): (r: string)
    ensures |r| == |s| && forall k :: 0 <= k < |s| ==> r[k] == if s[k] == '\\' then '/' else s[k]
  {
    seq(|s|, k requires 0 <= k < |s| => if s[k] == '\\' then '/' else s[k])
  }

  /** The last dot after the last slash. */
  function LastDot(s: string): (k: int)
    ensures -1 <= k < |s|
    ensures k >= 0 ==> s[k] == '.'
    ensures forall j :: k < j < |s| ==> s[j] != '.' || k == -1
  {
    if s == [] || s[|s| - 1] == '/' then -1 else if s[|s| - 1] == '.' then |s| - 1 else LastDot(s[..|s| - 1])
  }

  /** Where path.Ext begins: the last dot of the last path element, or the
      end of the name when it has no extension. */
  function ExtAt(s: string): (k: nat)
    ensures k <= |s| && (k < |s| ==> s[k] == '.')
  {
    if LastDot(s) < 0 then |s| else LastDot(s)
  }

  function TrimLeftDots(s: string): string { DropLeft(s, c => c == '.' || c == ' ') }

  /** The name before its length is limited. */
  function Sanitized(raw: string): string { Trimmed(CleanRunes(Base(Slashes(raw)))) }

  function Trimmed(b: string): string {
    var name := TrimLeftDots(TrimSpace(b));
    if name == [] then "upload" else name
  }

  /** The longest prefix of stem that, with room bytes allowed, still fits. */
  function Fit(stem: string, room: int): (r: string)
    requires room >= 0
    ensures r <= stem && ByteLen(r) <= room
    ensures |r| < |stem| ==> ByteLen(stem[..|r| + 1]) > room
  {
    if ByteLen(stem) <= room then stem
    else
      var s' := stem[..|stem| - 1];
      var r := Fit(s', room);
      assert |r| < |s'| ==> stem[..|r| + 1] == s'[..|r| + 1];
      assert |r| == |s'| ==> stem[..|r| + 1] == stem;
      r
  }

  /** Where the extension the length limit preserves begins. */
  function KeptAt(name: string): (k: nat)
    ensures k <= |name| && ByteLen(name[k..]) <= MAX_EXT_BYTES
  {
    if ByteLen(name[ExtAt(name)..]) > MAX_EXT_BYTES then
      assert name[|name|..] == [];
      |name|
    else ExtAt(name)
  }

  function Limited(name: string): string {
    if ByteLen(name) <= MAX_NAME_BYTES then name else Shortened(name[..KeptAt(name)], name[KeptAt(name)..])
  }

  function Shortened(stem: string, ext: string): string
    requires ByteLen(ext) <= MAX_EXT_BYTES
  {
    Fit(stem, MAX_NAME_BYTES - ByteLen(ext)) + ext
  }

  /** CleanName as a function. */
  function Cleaned(raw: string): string { Limited(Sanitized(raw)) }

  // ---- byte lengths ----

  lemma {:induction false} ByteLenConcat(a: string, b: string)
    ensures ByteLen(a + b) == ByteLen(a) + ByteLen(b)
  {
    if b == [] {
      assert a + b == a;
    } else {
      assert (a + b)[..|a + b| - 1] == a + b[..|b| - 1];
      ByteLenConcat(a, b[..|b| - 1]);
    }
  }

  lemma {:induction false} AsciiByteLen(s: string)
    requires forall k :: 0 <= k < |s| ==> s[k] <= '~'
    ensures ByteLen(s) == |s|
  {
    if s != [] {
      AsciiByteLen(s[..|s| - 1]);
    }
  }

  // ---- what a cleaned name looks like ----

  /** No separator, control or bidi character, no leading dot, not empty. */
  predicate SafeRune(c: char) { c != '/' && c as int != 0xfffd && !IsControl(c) && !IsBidiTrick(c) }
  predicate AllSafe(s: string) { forall k :: 0 <= k < |s| ==> SafeRune(s[k]) }
  predicate SafeName(n: string) { n != [] && n[0] != '.' && AllSafe(n) }

  lemma {:induction false} CleanRunesSafe(s: string)
    ensures AllSafe(CleanRunes(s))
  {
    if s != [] {
      CleanRunesSafe(s[..|s| - 1]);
    }
  }

  lemma TrimSpaceSafe(s: string)
    requires AllSafe(s)
    ensures AllSafe(TrimSpace(s))
  {
  }

  lemma TrimLeftDotsSafe(s: string)
    requires AllSafe(s)
    ensures TrimLeftDots(s) == [] || SafeName(TrimLeftDots(s))
  {
  }

  lemma {:induction false} TrimmedSafe(b: string)
    requires AllSafe(b)
    ensures SafeName(Trimmed(b))
  {
    TrimSpaceSafe(b);
    TrimLeftDotsSafe(TrimSpace(b));
    assert AllSafe("upload");
  }

  lemma {:induction false} SanitizedSafe(raw: string)
    ensures SafeName(Sanitized(raw))
  {
    var base := Base(Slashes(raw));
    CleanRunesSafe(base);
    TrimmedSafe(CleanRunes(base));
  }

  lemma {:induction false} FitNotEmpty(stem: string, room: int)
    requires stem != [] && room >= 4
    ensures Fit(stem, room) != []
  {
    assert stem[..1][..0] == [];
    assert ByteLen(stem[..1]) == RuneLen(stem[0]);
  }

  lemma {:induction false} ShortenedSafe(stem: string, ext: string)
    requires SafeName(stem + ext) && ByteLen(ext) <= MAX_EXT_BYTES && stem != []
    ensures SafeName(Shortened(stem, ext)) && ByteLen(Shortened(stem, ext)) <= MAX_NAME_BYTES
  {
    var room := MAX_NAME_BYTES - ByteLen(ext);
    var fitted := Fit(stem, room);
    FitNotEmpty(stem, room);
    ByteLenConcat(fitted, ext);
    assert fitted[0] == (stem + ext)[0];
    forall k | 0 <= k < |fitted + ext| ensures SafeRune((fitted + ext)[k]) {
      var j := if k < |fitted| then k else k - |fitted| + |stem|;
      assert (fitted + ext)[k] == (stem + ext)[j];
    }
  }

  lemma {:induction false} LimitedSafe(name: string)
    requires SafeName(name)
    ensures SafeName(Limited(name)) && ByteLen(Limited(name)) <= MAX_NAME_BYTES
  {
    if ByteLen(name) > MAX_NAME_BYTES {
      var k := KeptAt(name);
      assert name[..k] + name[k..] == name;
      ShortenedSafe(name[..k], name[k..]);
    }
  }

  /** Every cleaned name is a single safe path element of at most 200 bytes,
      and keeps its extension when that has at most 16. */
  lemma {:induction false} CleanNameIsSafe(raw: string)
    ensures SafeName(Cleaned(raw)) && ByteLen(Cleaned(raw)) <= MAX_NAME_BYTES
    ensures HasSuffix(Cleaned(raw), Sanitized(raw)[KeptAt(Sanitized(raw))..])
  {
    SanitizedSafe(raw);
    LimitedSafe(Sanitized(raw));
    LimitedKeeps(Sanitized(raw));
  }

  lemma LimitedKeeps(name: string)
    ensures HasSuffix(Limited(name), name[KeptAt(name)..])
  {
    var k := KeptAt(name);
    assert name[..k] + name[k..] == name;
  }

  // ---- numbered candidates ----

  function Digit(d: nat): (c: char)
    requires d < 10
    ensures '0' <= c <= '9'
  {
    ('0' as int + d) as char
  }

  function Decimal(i: nat): (s: string)
    ensures s != [] && forall k :: 0 <= k < |s| ==> '0' <= s[k] <= '9'
  {
    if i < 10 then [Digit(i)] else Decimal(i / 10) + [Digit(i % 10)]
  }

  lemma {:induction false} DecimalLength(i: nat, digits: nat)
    requires digits >= 1 && i < Pow10(digits)
    ensures |Decimal(i)| <= digits
  {
    if i >= 10 {
      DecimalLength(i / 10, digits - 1);
    }
  }

  function Pow10(n: nat): (p: nat)
    ensures p >= 1
  {
    if n == 0 then 1 else 10 * Pow10(n - 1)
  }

  lemma {:induction false} DecimalInjective(i: nat, j: nat)
    requires Decimal(i) == Decimal(j)
    ensures i == j
  {
    var s, t := Decimal(i), Decimal(j);
    assert s[|s| - 1] == Digit(i % 10) && t[|t| - 1] == Digit(j % 10);
    if i >= 10 && j >= 10 {
      assert s[..|s| - 1] == Decimal(i / 10) && t[..|t| - 1] == Decimal(j / 10);
      DecimalInjective(i / 10, j / 10);
    }
  }

  /** Where a number is inserted: before the extension, unless the whole
      name is one. */
  function NumberAt(name: string): (k: nat)
    ensures k <= |name|
    ensures name != [] && name[0] != '.' ==> k > 0
  {
    if ExtAt(name) == 0 then |name| else ExtAt(name)
  }

  function Middle(i: nat): string { " (" + Decimal(i) + ")" }

  function Insert(name: string, k: nat, mid: string): string
    requires k <= |name|
  {
    name[..k] + mid + name[k..]
  }

  /** The i-th name tried: the plain one first, then i in brackets before the
      extension. */
  function Candidate(name: string, i: nat): string {
    if i == 0 then name else Insert(name, NumberAt(name), Middle(i))
  }

  lemma {:induction false} InsertInjective(name: string, k: nat, a: string, b: string)
    requires k <= |name| && Insert(name, k, a) == Insert(name, k, b)
    ensures a == b
  {
    var r := Insert(name, k, a);
    assert |r| == |name| + |a| == |name| + |b|;
    assert r[k..k + |a|] == a;
    assert r[k..k + |b|] == b;
  }

  lemma {:induction false} CandidateInjective(name: string, i: nat, j: nat)
    requires Candidate(name, i) == Candidate(name, j)
    ensures i == j
  {
    if i > 0 && j > 0 {
      InsertInjective(name, NumberAt(name), Middle(i), Middle(j));
      assert Middle(i)[2..|Middle(i)| - 1] == Decimal(i);
      assert Middle(j)[2..|Middle(j)| - 1] == Decimal(j);
      DecimalInjective(i, j);
    }
  }

  predicate IsTemp(n: string) { TEMP_PREFIX <= n }

  lemma {:induction false} MiddleIsPlain(i: nat)
    requires i < 10000
    ensures AllSafe(Middle(i)) && ByteLen(Middle(i)) <= 7
  {
    DecimalLength(i, 4) by { assert Pow10(4) == 10000; }
    AsciiByteLen(Middle(i));
  }

  lemma {:induction false} InsertSafe(name: string, k: nat, mid: string)
    requires SafeName(name) && 0 < k <= |name| && AllSafe(mid)
    ensures SafeName(Insert(name, k, mid))
    ensures ByteLen(Insert(name, k, mid)) == ByteLen(name) + ByteLen(mid)
  {
    assert name == name[..k] + name[k..];
    ByteLenConcat(name[..k], name[k..]);
    ByteLenConcat(name[..k], mid);
    ByteLenConcat(name[..k] + mid, name[k..]);
  }

  /** A candidate for a cleaned name is safe, short enough for any Linux
      filesystem, and never looks like a temporary file. */
  lemma {:induction false} CandidateIsSafe(raw: string, i: nat)
    requires i < 10000
    ensures var c := Candidate(Cleaned(raw), i);
            SafeName(c) && !IsTemp(c) && ByteLen(c) <= 207
  {
    CleanNameIsSafe(raw);
    if i > 0 {
      MiddleIsPlain(i);
      InsertSafe(Cleaned(raw), NumberAt(Cleaned(raw)), Middle(i));
    }
    assert TEMP_PREFIX[0] == '.';
  }

  method BuildClean(base: string) returns (b: string)
    ensures b == CleanRunes(base)
  {
    b := "";
    for k := 0 to |base|
      invariant b == CleanRunes(base[..k])
    {
      assert base[..k + 1][..k] == base[..k];
      var r := base[k];
      if r as int == 0xfffd || r == '/' || r as int == 0 {
        b := b + "_";
      } else if !IsControl(r) && !IsBidiTrick(r) {
        b := b + [r];
      }
    }
    assert base[..|base|] == base;
  }

  /** CleanName: builds the name rune by rune, then shortens the stem one
      rune at a time. */
  method CleanName(raw: string) returns (name: string)
    ensures name == Cleaned(raw)
    ensures SafeName(name) && ByteLen(name) <= MAX_NAME_BYTES
  {
    CleanNameIsSafe(raw);
    var b := BuildClean(Base(Slashes(raw)));
    name := TrimLeftDots(TrimSpace(b));
    SanitizedSafe(raw);
    if name == "" || name == "." || name == ".." {
      name := "upload";
    }
    assert name == Sanitized(raw);
    name := LimitLength(name);
  }

  lemma {:induction false} FitShrinks(stem: string, room: int)
    requires room >= 0 && ByteLen(stem) > room
    ensures stem != [] && Fit(stem, room) == Fit(stem[..|stem| - 1], room)
  {
  }

  method LimitLength(whole: string) returns (name: string)
    ensures name == Limited(whole)
  {
    if ByteLen(whole) <= MAX_NAME_BYTES {
      return whole;
    }
    var at := ExtAt(whole);
    if ByteLen(whole[at..]) > MAX_EXT_BYTES {
      at := |whole|;
    }
    assert at == KeptAt(whole);
    name := Shorten(whole[..at], whole[at..]);
  }

  method Shorten(full: string, ext: string) returns (name: string)
    requires ByteLen(ext) <= MAX_EXT_BYTES
    ensures name == Shortened(full, ext)
  {
    var stem := ShortenStem(full, ext);
    name := stem + ext;
  }

  method ShortenStem(full: string, ext: string) returns (stem: string)
    requires ByteLen(ext) <= MAX_EXT_BYTES
    ensures stem == Fit(full, MAX_NAME_BYTES - ByteLen(ext))
  {
    stem := full;
    while ByteLen(stem) + ByteLen(ext) > MAX_NAME_BYTES
      invariant Fit(stem, MAX_NAME_BYTES - ByteLen(ext)) == Fit(full, MAX_NAME_BYTES - ByteLen(ext))
      decreases |stem|
    {
      FitShrinks(stem, MAX_NAME_BYTES - ByteLen(ext));
      stem := stem[..|stem| - 1];
    }
  }

  // ---- what cleaning keeps ----

  predicate Separator(c: char) { c == '/' || c == '\\' }

  /** Control and bidi characters; NUL is replaced instead. */
  predicate Dropped(c: char) {
    var x := c as int;
    0 < x < 0x20 || 0x7f <= x < 0xa0 || x == 0x202d || x == 0x202e
  }

  function Kept(s: string): string {
    if s == [] then [] else Kept(s[..|s| - 1]) + if Dropped(s[|s| - 1]) then [] else [s[|s| - 1]]
  }

  /** A NUL, a separator or an undecodable byte becomes '_'; any other rune that
      is not dropped stays as it is, in order. */
  lemma {:induction false} RunesStay(s: string)
    ensures |CleanRunes(s)| == |Kept(s)|
    ensures forall k :: 0 <= k < |Kept(s)| ==>
              CleanRunes(s)[k] == if Kept(s)[k] as int in {0, 0x2f, 0xfffd} then '_' else Kept(s)[k]
  {
    if s != [] {
      RunesStay(s[..|s| - 1]);
    }
  }

  lemma {:induction false} CleanRunesConcat(a: string, b: string)
    ensures CleanRunes(a + b) == CleanRunes(a) + CleanRunes(b)
  {
    if b == [] {
      assert a + b == a;
    } else {
      assert (a + b)[..|a + b| - 1] == a + b[..|b| - 1];
      CleanRunesConcat(a, b[..|b| - 1]);
    }
  }

  lemma {:induction false} SafeRunesStay(s: string)
    requires AllSafe(s)
    ensures CleanRunes(s) == s
  {
    if s != [] {
      SafeRunesStay(s[..|s| - 1]);
      assert s == s[..|s| - 1] + [s[|s| - 1]];
    }
  }

  lemma LastSlashIs(s: string, k: int)
    requires -1 <= k < |s| && (k >= 0 ==> s[k] == '/') && forall j :: k < j < |s| ==> s[j] != '/'
    ensures LastSlash(s) == k
  {
  }

  lemma BaseIsLast(head: string, last: string, tail: string)
    requires last != [] && '/' !in last && (head == [] || head[|head| - 1] == '/')
    requires forall k :: 0 <= k < |tail| ==> tail[k] == '/'
    ensures Base(head + last + tail) == last
  {
    var s, t := head + last + tail, head + last;
    var r := DropRight(s, c => c == '/');
    assert t[|t| - 1] == last[|last| - 1] == s[|t| - 1];
    assert forall k :: |t| <= k < |s| ==> s[k] == tail[k - |t|] == '/';
    assert r == s[..|t|] == t;
    forall j | |head| <= j < |t| ensures t[j] != '/' {
      assert t[j] == last[j - |head|];
    }
    LastSlashIs(t, |head| - 1);
  }

  /** What is cleaned is the last part of the path, between separators of either
      kind. */
  lemma {:induction false} LastPartIsCleaned(head: string, last: string, tail: string)
    requires last != [] && (forall k :: 0 <= k < |last| ==> !Separator(last[k]))
    requires head == [] || Separator(head[|head| - 1])
    requires forall k :: 0 <= k < |tail| ==> Separator(tail[k])
    ensures Cleaned(head + last + tail) == Limited(Trimmed(CleanRunes(last)))
  {
    assert Slashes(head + last + tail) == Slashes(head) + last + Slashes(tail);
    BaseIsLast(Slashes(head), last, Slashes(tail));
  }

  lemma {:induction false} TrimSpaceIsMiddle(s: string) returns (i: nat, j: nat)
    ensures i <= j <= |s| && TrimSpace(s) == s[i..j]
    ensures forall k :: 0 <= k < i || j <= k < |s| ==> IsSpace(s[k])
  {
    if s == [] {
      i, j := 0, 0;
    } else if IsSpace(s[0]) {
      var a, b := TrimSpaceIsMiddle(s[1..]);
      i, j := a + 1, b + 1;
      assert s[1..][a..b] == s[i..j];
      forall k | 0 < k < i || j <= k < |s| ensures IsSpace(s[k]) {
        assert s[k] == s[1..][k - 1];
      }
    } else if IsSpace(s[|s| - 1]) {
      i, j := TrimSpaceIsMiddle(s[..|s| - 1]);
      assert s[..|s| - 1][i..j] == s[i..j];
      forall k | 0 <= k < i || j <= k < |s| - 1 ensures IsSpace(s[k]) {
        assert s[k] == s[..|s| - 1][k];
      }
    } else {
      i, j := 0, |s|;
    }
  }

  /** Trimming takes white space from both ends and leading dots, and nothing
      else; what is left is not empty. */
  lemma TrimmedIsMiddle(b: string) returns (i: nat, j: nat)
    ensures i <= j <= |b| && Trimmed(b) == if i == j then "upload" else b[i..j]
    ensures forall k :: 0 <= k < i ==> IsSpace(b[k]) || b[k] == '.'
    ensures forall k :: j <= k < |b| ==> IsSpace(b[k])
    ensures i < j ==> b[i] != '.' && b[i] != ' ' && !IsSpace(b[j - 1]) && (i == 0 ==> !IsSpace(b[0]))
  {
    var a, e := TrimSpaceIsMiddle(b);
    var t := TrimSpace(b);
    var n := DotsAreLeading(t);
    i, j := a + n, e;
    SliceSlice(b, a, e, n);
    MiddleStart(b, t, a, e, n);
    if i < j {
      MiddleEnds(b, t, a, e, n);
    }
  }

  lemma MiddleStart(b: string, t: string, a: nat, e: nat, n: nat)
    requires a + n <= e <= |b| && t == b[a..e] && forall k :: 0 <= k < a ==> IsSpace(b[k])
    requires forall k :: 0 <= k < n ==> t[k] == '.' || t[k] == ' '
    ensures forall k :: 0 <= k < a + n ==> IsSpace(b[k]) || b[k] == '.'
  {
    forall k | 0 <= k < a + n ensures IsSpace(b[k]) || b[k] == '.' {
      assert k < a || b[k] == t[k - a];
    }
  }

  lemma MiddleEnds(b: string, t: string, a: nat, e: nat, n: nat)
    requires a + n < e <= |b| && t == b[a..e] && t[n] != '.' && t[n] != ' ' && !IsSpace(t[0]) && !IsSpace(t[|t| - 1])
    ensures b[a + n] != '.' && b[a + n] != ' ' && !IsSpace(b[e - 1]) && !IsSpace(b[a])
  {
    assert b[a + n] == t[n] && b[e - 1] == t[|t| - 1] && b[a] == t[0];
  }

  lemma DotsAreLeading(t: string) returns (n: nat)
    ensures n <= |t| && TrimLeftDots(t) == t[n..]
    ensures (forall k :: 0 <= k < n ==> t[k] == '.' || t[k] == ' ') && (n < |t| ==> t[n] != '.' && t[n] != ' ')
  {
    n := Leading(t, c => c == '.' || c == ' ');
  }

  lemma SliceSlice(b: string, a: nat, e: nat, n: nat)
    requires a + n <= e <= |b|
    ensures b[a..e][n..] == b[a + n..e]
  {
  }

  lemma TrimmedIsSame(n: string)
    requires n != [] && n[0] != '.' && TrimSpace(n) == n
    ensures Trimmed(n) == n
  {
    assert !IsSpace(n[0]) && IsSpace(' ');
    assert Leading(n, c => c == '.' || c == ' ') == 0;
  }

  lemma {:induction false} SafeIsTrimmed(n: string)
    requires n != [] && AllSafe(n) && '\\' !in n
    ensures Cleaned(n) == Limited(Trimmed(n))
  {
    assert [] + n + [] == n;
    LastPartIsCleaned([], n, []);
    SafeRunesStay(n);
  }

  lemma SliceBytes(s: string, i: nat, j: nat)
    requires i <= j <= |s|
    ensures ByteLen(s[i..j]) <= ByteLen(s)
  {
    ByteLenConcat(s[..i], s[i..j]);
    ByteLenConcat(s[..i] + s[i..j], s[j..]);
    assert s[..i] + s[i..j] + s[j..] == s;
  }

  lemma {:induction false} TrimmedBytes(n: string)
    requires ByteLen(n) <= MAX_NAME_BYTES
    ensures ByteLen(Trimmed(n)) <= MAX_NAME_BYTES
  {
    var i, j := TrimmedIsMiddle(n);
    SliceBytes(n, i, j);
    AsciiByteLen("upload");
  }

  lemma {:induction false} TrimmedChanges(n: string)
    requires n != [] && TrimSpace(n) != n
    ensures Trimmed(n) != n
  {
    assert IsSpace(n[0]) || IsSpace(n[|n| - 1]);
    var i, j := TrimmedIsMiddle(n);
    if i == j {
      assert n[0] == '.' || IsSpace(n[0]);
      assert "upload"[0] == 'u' && !IsSpace('u');
    } else {
      assert i > 0 || j < |n|;
      assert |n[i..j]| < |n|;
    }
  }

  /** A good name, safe, without backslash and not longer than allowed, stays
      as it is exactly if there is no white space around it. */
  lemma {:induction false} GoodNameStays(n: string)
    requires SafeName(n) && '\\' !in n && ByteLen(n) <= MAX_NAME_BYTES
    ensures Cleaned(n) == n <==> TrimSpace(n) == n
  {
    SafeIsTrimmed(n);
    if TrimSpace(n) == n {
      TrimmedIsSame(n);
    } else {
      TrimmedChanges(n);
      TrimmedBytes(n);
    }
  }

  predicate NoBackslash(s: string) { forall k :: 0 <= k < |s| ==> s[k] != '\\' }

  lemma {:induction false} RunesNoBackslash(s: string)
    requires NoBackslash(s)
    ensures NoBackslash(CleanRunes(s))
  {
    if s != [] {
      RunesNoBackslash(s[..|s| - 1]);
    }
  }

  lemma BaseNoBackslash(s: string)
    requires NoBackslash(s)
    ensures NoBackslash(Base(s))
  {
    if s != [] {
      var t := DropRight(s, c => c == '/');
      var b := t[LastSlash(t) + 1..];
      forall k | 0 <= k < |b| ensures b[k] != '\\' {
        assert b[k] == s[LastSlash(t) + 1 + k];
      }
    }
  }

  lemma TrimmedNoBackslash(b: string)
    requires NoBackslash(b)
    ensures NoBackslash(Trimmed(b))
  {
    var i, j := TrimmedIsMiddle(b);
    assert NoBackslash("upload");
  }

  lemma LimitedNoBackslash(name: string)
    requires NoBackslash(name)
    ensures NoBackslash(Limited(name))
  {
  }

  lemma {:induction false} CleanedNoBackslash(raw: string)
    ensures NoBackslash(Cleaned(raw))
  {
    BaseNoBackslash(Slashes(raw));
    RunesNoBackslash(Base(Slashes(raw)));
    TrimmedNoBackslash(CleanRunes(Base(Slashes(raw))));
    LimitedNoBackslash(Sanitized(raw));
  }

  /** So cleaning again changes nothing, exactly if no white space is left at an
      end: behind leading dots, or where a long name was cut. */
  lemma {:induction false} CleanTwice(raw: string)
    ensures Cleaned(Cleaned(raw)) == Cleaned(raw) <==> TrimSpace(Cleaned(raw)) == Cleaned(raw)
  {
    CleanNameIsSafe(raw);
    CleanedNoBackslash(raw);
    GoodNameStays(Cleaned(raw));
  }

  lemma LeadingDot(n: string)
    requires n != [] && n[0] != '.' && n[0] != ' ' && !IsSpace(n[|n| - 1])
    ensures Trimmed("." + n) == n
  {
    var raw := "." + n;
    assert raw[|raw| - 1] == n[|n| - 1] && raw[0] == '.' && !IsSpace('.');
    TrimNothing(raw);
    assert raw[1..] == n;
    assert Leading(n, c => c == '.' || c == ' ') == 0;
  }

  lemma DottedIsSafe(n: string)
    requires AllSafe(n) && '\\' !in n
    ensures AllSafe("." + n) && '\\' !in "." + n && "." + n != []
  {
    assert SafeRune('.');
  }

  /** A leading dot before white space other than a blank is such a case. */
  lemma {:induction false} DottedIsCleanedTwice(n: string)
    requires SafeName(n) && '\\' !in n && ByteLen("." + n) <= MAX_NAME_BYTES
    requires IsSpace(n[0]) && n[0] != ' ' && !IsSpace(n[|n| - 1])
    ensures Cleaned("." + n) == n && Cleaned(n) != n
  {
    DottedIsSafe(n);
    SafeIsTrimmed("." + n);
    LeadingDot(n);
    ByteLenConcat(".", n);
    GoodNameStays(n);
  }

  // ---- the extension ----

  lemma {:induction false} LastDotIs(stem: string, x: string)
    requires '.' !in x && '/' !in x
    ensures LastDot(stem + "." + x) == |stem|
  {
    var s := stem + "." + x;
    if x != [] {
      assert s[..|s| - 1] == stem + "." + x[..|x| - 1] && s[|s| - 1] == x[|x| - 1];
      LastDotIs(stem, x[..|x| - 1]);
    }
  }

  /** The name before its extension starts with what can start a name. */
  predicate Starts(stem: string) { stem != [] && !IsSpace(stem[0]) && stem[0] != '.' }

  /** An extension that survives cleaning as it is. */
  predicate PlainExt(x: string) {
    AllSafe(x) && NoBackslash(x) && '.' !in x && (x != [] ==> !IsSpace(x[|x| - 1])) && ByteLen("." + x) <= MAX_EXT_BYTES
  }

  lemma TrimmedWhole(n: string)
    requires n != [] && !IsSpace(n[0]) && n[0] != '.' && !IsSpace(n[|n| - 1])
    ensures Trimmed(n) == n
  {
    TrimNothing(n);
    TrimmedIsSame(n);
  }

  lemma {:induction false} ExtensionIsLimited(stem: string, x: string)
    requires stem != [] && PlainExt(x)
    ensures Limited(stem + "." + x) == if ByteLen(stem + "." + x) <= MAX_NAME_BYTES then stem + "." + x
                                      else Fit(stem, MAX_NAME_BYTES - ByteLen("." + x)) + "." + x
  {
    var n := stem + "." + x;
    LastDotIs(stem, x);
    assert n[|stem|..] == "." + x && n[..|stem|] == stem;
    if ByteLen(n) > MAX_NAME_BYTES {
      var f := Fit(stem, MAX_NAME_BYTES - ByteLen("." + x));
      assert f + ("." + x) == f + "." + x;
    }
  }

  lemma {:induction false} ExtensionIsCleaned(stem: string, x: string)
    requires AllSafe(x)
    ensures CleanRunes(stem + "." + x) == CleanRunes(stem) + "." + x
  {
    var e := "." + x;
    CleanRunesConcat(stem, e);
    SafeRunesStay(e);
    Regroup(stem, ".", x);
    Regroup(CleanRunes(stem), ".", x);
  }

  lemma Regroup(a: string, b: string, c: string)
    ensures a + (b + c) == a + b + c
  {
  }

  lemma {:induction false} ExtensionIsTrimmed(s: string, x: string)
    requires Starts(s) && PlainExt(x)
    ensures Trimmed(s + "." + x) == s + "." + x
  {
    assert !IsSpace('.');
    TrimmedWhole(s + "." + x);
  }

  /** The extension of the raw name is kept, below whatever path, and so is all
      of the cleaned stem that fits with it into 200 bytes. */
  lemma {:induction false} ExtensionIsKept(head: string, stem: string, x: string)
    requires head == [] || Separator(head[|head| - 1])
    requires (forall k :: 0 <= k < |stem| ==> !Separator(stem[k])) && Starts(CleanRunes(stem)) && PlainExt(x)
    ensures var s := CleanRunes(stem);
            Cleaned(head + (stem + "." + x)) == if ByteLen(s + "." + x) <= MAX_NAME_BYTES then s + "." + x
                                                else Fit(s, MAX_NAME_BYTES - ByteLen("." + x)) + "." + x
  {
    var s, last := CleanRunes(stem), stem + "." + x;
    assert head + last + [] == head + last;
    LastPartIsCleaned(head, last, []);
    ExtensionIsCleaned(stem, x);
    ExtensionIsTrimmed(s, x);
    ExtensionIsLimited(s, x);
  }

  /** A numbered candidate keeps the extension at its end and the number reads
      as itself. */
  lemma {:induction false} CandidateIs(stem: string, x: string, i: nat)
    requires stem != [] && '.' !in x && '/' !in x && i > 0
    ensures Candidate(stem + "." + x, i) == stem + " (" + Decimal(i) + ")" + "." + x
  {
    var n := stem + "." + x;
    LastDotIs(stem, x);
    assert n[|stem|..] == "." + x && n[..|stem|] == stem;
    assert stem + (" (" + Decimal(i) + ")") + ("." + x) == stem + " (" + Decimal(i) + ")" + "." + x;
  }

  lemma {:induction false} NoDot(name: string)
    requires '.' !in name
    ensures LastDot(name) == -1
  {
    if name != [] {
      NoDot(name[..|name| - 1]);
    }
  }

  /** One without an extension gets the number at its end. */
  lemma {:induction false} PlainCandidateIs(name: string, i: nat)
    requires '.' !in name && i > 0
    ensures Candidate(name, i) == name + " (" + Decimal(i) + ")"
  {
    NoDot(name);
    assert name + (" (" + Decimal(i) + ")") + [] == name + " (" + Decimal(i) + ")";
  }

  /** The number a string of digits stands for. */
  function Read(s: string): int {
    if s == [] then 0 else 10 * Read(s[..|s| - 1]) + (s[|s| - 1] as int - '0' as int)
  }

  lemma {:induction false} DecimalReads(i: nat)
    ensures Read(Decimal(i)) == i && (i > 0 ==> Decimal(i)[0] != '0')
  {
    var s := Decimal(i);
    if i >= 10 {
      DecimalReads(i / 10);
      assert s[..|s| - 1] == Decimal(i / 10) && s[0] == Decimal(i / 10)[0];
    } else {
      assert s[..0] == [];
    }
  }
}
