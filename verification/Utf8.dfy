/** utf8.ValidString on a sequence of bytes. */
module Utf8 {

  predicate In(c: char, lo: int, hi: int) { lo <= c as int <= hi }
  predicate Cont(c: char) { In(c, 0x80, 0xbf) }

  /** Bytes of the encoding the string starts with, or 0 if that is invalid. */
  function First(s: string): (n: nat)
    ensures n <= |s|
  {
    if s == [] then 0
    else if In(s[0], 0, 0x7f) then 1
    else if |s| >= 2 && In(s[0], 0xc2, 0xdf) && Cont(s[1]) then 2
    else if |s| >= 3 && Cont(s[2])
            && ((In(s[0], 0xe0, 0xe0) && In(s[1], 0xa0, 0xbf)) || (In(s[0], 0xe1, 0xec) && Cont(s[1]))
                || (In(s[0], 0xed, 0xed) && In(s[1], 0x80, 0x9f)) || (In(s[0], 0xee, 0xef) && Cont(s[1]))) then 3
    else if |s| >= 4 && Cont(s[2]) && Cont(s[3])
            && ((In(s[0], 0xf0, 0xf0) && In(s[1], 0x90, 0xbf)) || (In(s[0], 0xf1, 0xf3) && Cont(s[1]))
                || (In(s[0], 0xf4, 0xf4) && In(s[1], 0x80, 0x8f))) then 4
    else 0
  }

  predicate Valid(s: string)
    decreases |s|
  {
    s == [] || (First(s) > 0 && Valid(s[First(s)..]))
  }

  lemma {:induction false} ValidConcat(a: string, b: string)
    requires Valid(a) && Valid(b)
    ensures Valid(a + b)
    decreases |a|
  {
    if a == [] {
      assert a + b == b;
    } else {
      var n := First(a);
      FirstOfConcat(a, b);
      assert (a + b)[n..] == a[n..] + b;
      ValidConcat(a[n..], b);
    }
  }

  lemma FirstOfConcat(a: string, b: string)
    requires First(a) > 0
    ensures First(a + b) == First(a)
  {
    var n := First(a);
    assert forall k :: 0 <= k < n ==> (a + b)[k] == a[k];
  }

  // ---- what is valid ----

  /** A Unicode scalar value. */
  predicate Scalar(c: int) { 0 <= c < 0xd800 || 0xe000 <= c < 0x11_0000 }

  function Byte(x: int): char
    requires 0 <= x < 256
  {
    x as char
  }

  /** Its encoding. */
  function Encode(c: int): string
    requires Scalar(c)
  {
    if c < 0x80 then [Byte(c)]
    else if c < 0x800 then [Byte(0xc0 + c / 0x40), Byte(0x80 + c % 0x40)]
    else if c < 0x1_0000 then [Byte(0xe0 + c / 0x1000), Byte(0x80 + c / 0x40 % 0x40), Byte(0x80 + c % 0x40)]
    else [Byte(0xf0 + c / 0x4_0000), Byte(0x80 + c / 0x1000 % 0x40),
          Byte(0x80 + c / 0x40 % 0x40), Byte(0x80 + c % 0x40)]
  }

  predicate Scalars(cs: seq<int>) { forall i :: 0 <= i < |cs| ==> Scalar(cs[i]) }

  function EncodeAll(cs: seq<int>): string
    requires Scalars(cs)
  {
    if cs == [] then [] else Encode(cs[0]) + EncodeAll(cs[1..])
  }

  lemma EncodedIsFirst(c: int, rest: string)
    requires Scalar(c)
    ensures First(Encode(c) + rest) == |Encode(c)|
  {
    var e := Encode(c);
    var s := e + rest;
    assert s[0] == e[0];
    if c < 0x80 {
    } else if c < 0x800 {
      assert s[1] == e[1];
    } else if c < 0x1_0000 {
      assert s[1] == e[1] && s[2] == e[2];
      ThreeAreFirst(s, c);
    } else {
      assert s[1] == e[1] && s[2] == e[2] && s[3] == e[3];
      FourAreFirst(s, c);
    }
  }

  lemma ThreeAreFirst(s: string, c: int)
    requires Scalar(c) && 0x800 <= c < 0x1_0000 && |s| >= 3
    requires s[0] == Byte(0xe0 + c / 0x1000) && s[1] == Byte(0x80 + c / 0x40 % 0x40) && s[2] == Byte(0x80 + c % 0x40)
    ensures First(s) == 3
  {
  }

  lemma FourAreFirst(s: string, c: int)
    requires 0x1_0000 <= c < 0x11_0000 && |s| >= 4
    requires s[0] == Byte(0xf0 + c / 0x4_0000) && s[1] == Byte(0x80 + c / 0x1000 % 0x40)
    requires s[2] == Byte(0x80 + c / 0x40 % 0x40) && s[3] == Byte(0x80 + c % 0x40)
    ensures First(s) == 4
  {
  }

  function Decode(s: string): (c: int)
    requires First(s) > 0
  {
    var n := First(s);
    if n == 1 then s[0] as int
    else if n == 2 then (s[0] as int - 0xc0) * 0x40 + (s[1] as int - 0x80)
    else if n == 3 then (s[0] as int - 0xe0) * 0x1000 + (s[1] as int - 0x80) * 0x40 + (s[2] as int - 0x80)
    else
      (s[0] as int - 0xf0) * 0x4_0000 + (s[1] as int - 0x80) * 0x1000
      + (s[2] as int - 0x80) * 0x40 + (s[3] as int - 0x80)
  }

  /** A number of two digits to the base of 64. */
  lemma Digits(a: nat, b: nat)
    requires b < 0x40
    ensures (a * 0x40 + b) / 0x40 == a && (a * 0x40 + b) % 0x40 == b
  {
  }

  lemma ThreeDigits(a: nat, b: nat, d: nat)
    requires b < 0x40 && d < 0x40
    ensures var c := a * 0x1000 + b * 0x40 + d; c / 0x1000 == a && c / 0x40 % 0x40 == b && c % 0x40 == d
  {
    Digits(a * 0x40 + b, d);
    Digits(a, b);
  }

  lemma FourDigits(a: nat, b: nat, d: nat, e: nat)
    requires b < 0x40 && d < 0x40 && e < 0x40
    ensures var c := a * 0x4_0000 + b * 0x1000 + d * 0x40 + e;
            c / 0x4_0000 == a && c / 0x1000 % 0x40 == b && c / 0x40 % 0x40 == d && c % 0x40 == e
  {
    Digits((a * 0x40 + b) * 0x40 + d, e);
    Digits(a * 0x40 + b, d);
    Digits(a, b);
  }

  lemma TwoBytes(s: string)
    requires First(s) == 2
    ensures Scalar(Decode(s)) && Encode(Decode(s)) == s[..2]
  {
    Digits(s[0] as int - 0xc0, s[1] as int - 0x80);
  }

  lemma ThreeBytes(s: string)
    requires First(s) == 3
    ensures Scalar(Decode(s)) && Encode(Decode(s)) == s[..3]
  {
    ThreeDigits(s[0] as int - 0xe0, s[1] as int - 0x80, s[2] as int - 0x80);
  }

  lemma FourBytes(s: string)
    requires First(s) == 4
    ensures Scalar(Decode(s)) && Encode(Decode(s)) == s[..4]
  {
    FourDigits(s[0] as int - 0xf0, s[1] as int - 0x80, s[2] as int - 0x80, s[3] as int - 0x80);
  }

  lemma FirstIsEncoded(s: string)
    requires First(s) > 0
    ensures Scalar(Decode(s)) && Encode(Decode(s)) == s[..First(s)]
  {
    if First(s) == 2 {
      TwoBytes(s);
    } else if First(s) == 3 {
      ThreeBytes(s);
    } else if First(s) == 4 {
      FourBytes(s);
    }
  }

  /** Valid are exactly the encodings of sequences of scalar values. */
  lemma {:induction false} ValidExactly(s: string)
    ensures Valid(s) <==> exists cs :: Scalars(cs) && EncodeAll(cs) == s
    decreases |s|
  {
    if Valid(s) {
      var cs := Decoded(s);
    }
    if cs :| Scalars(cs) && EncodeAll(cs) == s {
      EncodedIsValid(cs);
    }
  }

  lemma {:induction false} Decoded(s: string) returns (cs: seq<int>)
    requires Valid(s)
    ensures Scalars(cs) && EncodeAll(cs) == s
    decreases |s|
  {
    if s == [] {
      cs := [];
    } else {
      var rest := Decoded(s[First(s)..]);
      FirstIsEncoded(s);
      cs := [Decode(s)] + rest;
      assert cs[1..] == rest;
    }
  }

  lemma {:induction false} EncodedIsValid(cs: seq<int>)
    requires Scalars(cs)
    ensures Valid(EncodeAll(cs))
  {
    if cs != [] {
      var e, rest := Encode(cs[0]), EncodeAll(cs[1..]);
      EncodedIsValid(cs[1..]);
      EncodedIsFirst(cs[0], rest);
      assert (e + rest)[|e|..] == rest;
    }
  }
}
