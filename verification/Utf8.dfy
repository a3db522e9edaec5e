/** UTF-8 (RFC 3629, section 3): the bytes of a string of Unicode code points. */
module Utf8 {
  type Bytes = seq<int>

  function EncodeChar(c: char): Bytes {
    var n := c as int;
    var n6, n12, n18 := n / 0x40, n / 0x40 / 0x40, n / 0x40 / 0x40 / 0x40;
    if n < 0x80 then [n]
    else if n < 0x800 then [0xC0 + n6, 0x80 + n % 0x40]
    else if n < 0x1_0000 then [0xE0 + n12, 0x80 + n6 % 0x40, 0x80 + n % 0x40]
    else [0xF0 + n18, 0x80 + n12 % 0x40, 0x80 + n6 % 0x40, 0x80 + n % 0x40]
  }

  /** The code point a whole code stands for. */
  function DecodeChar(b: Bytes): int {
    if |b| == 1 then b[0]
    else if |b| == 2 then (b[0] - 0xC0) * 0x40 + b[1] - 0x80
    else if |b| == 3 then ((b[0] - 0xE0) * 0x40 + b[1] - 0x80) * 0x40 + b[2] - 0x80
    else if |b| == 4 then (((b[0] - 0xF0) * 0x40 + b[1] - 0x80) * 0x40 + b[2] - 0x80) * 0x40 + b[3] - 0x80
    else 0
  }

  lemma DecodeInvertsEncode(c: char)
    ensures DecodeChar(EncodeChar(c)) == c as int
  {
  }

  function Encode(s: string): Bytes {
    if s == "" then [] else EncodeChar(s[0]) + Encode(s[1..])
  }

  /** The first byte tells how many follow, so no code is a prefix of another. */
  lemma CharIsSelfDelimiting(c: char, x: Bytes, d: char, y: Bytes)
    requires EncodeChar(c) + x == EncodeChar(d) + y
    ensures c == d && x == y
  {
    var a, b := EncodeChar(c), EncodeChar(d);
    assert a[0] == (a + x)[0] == (b + y)[0] == b[0];
    assert |a| == |b|;
    forall i | 0 <= i < |a| ensures a[i] == b[i] {
      assert (a + x)[i] == (b + y)[i];
    }
    assert a == b;
    DecodeInvertsEncode(c);
    DecodeInvertsEncode(d);
    assert x == (a + x)[|a|..] && y == (b + y)[|b|..];
  }

  lemma {:induction false} EncodeIsInjective(s: string, t: string)
    requires Encode(s) == Encode(t)
    ensures s == t
  {
    if s != "" && t != "" {
      CharIsSelfDelimiting(s[0], Encode(s[1..]), t[0], Encode(t[1..]));
      EncodeIsInjective(s[1..], t[1..]);
      assert s == [s[0]] + s[1..] && t == [t[0]] + t[1..];
    }
  }

  lemma {:induction false} EncodeConcat(s: string, t: string)
    ensures Encode(s + t) == Encode(s) + Encode(t)
  {
    if s == "" {
      assert s + t == t;
    } else {
      assert (s + t)[1..] == s[1..] + t && (s + t)[0] == s[0];
      EncodeConcat(s[1..], t);
    }
  }

  lemma {:induction false} EncodeIsNotShorter(s: string)
    ensures |Encode(s)| >= |s|
  {
    if s != "" {
      EncodeIsNotShorter(s[1..]);
    }
  }

  lemma {:induction false} AsciiIsItself(s: string)
    requires forall i :: 0 <= i < |s| ==> s[i] as int < 0x80
    ensures |Encode(s)| == |s| && forall i :: 0 <= i < |s| ==> Encode(s)[i] == s[i] as int
  {
    if s != "" {
      AsciiIsItself(s[1..]);
    }
  }
}
