/** JSON string literals (RFC 8259, section 7) as encoding/json reads and writes them. */
module JsonStrings {
  import opened Wrappers

  function HexDigit(n: int): char
    requires 0 <= n < 16
  {
    if n < 10 then '0' + n as char else 'a' + (n - 10) as char
  }

  function HexValue(c: char): Option<int> {
    if '0' <= c <= '9' then Some(c as int - '0' as int)
    else if 'a' <= c <= 'f' then Some(c as int - 'a' as int + 10)
    else if 'A' <= c <= 'F' then Some(c as int - 'A' as int + 10)
    else None
  }

  function Hex4(s: string): (r: Option<int>)
    ensures r.Some? ==> 0 <= r.value < 0x1_0000
  {
    if |s| < 4 then None else
      var a, b, c, d := HexValue(s[0]), HexValue(s[1]), HexValue(s[2]), HexValue(s[3]);
      if a.None? || b.None? || c.None? || d.None? then None
      else Some(((a.value * 16 + b.value) * 16 + c.value) * 16 + d.value)
  }

  const REPLACEMENT := '\U{FFFD}'

  // ---- writing: json.Marshal of a string ----

  function UnicodeEscape(n: int): string
    requires 0 <= n < 0x1_0000
  {
    "\\u" + [HexDigit(n / 16 / 16 / 16), HexDigit(n / 16 / 16 % 16), HexDigit(n / 16 % 16), HexDigit(n % 16)]
  }

  /** Quotes, backslashes and control characters are escaped; so are <, >, & and the two line separators. */
  function EscapeChar(c: char): string {
    var n := c as int;
    if c == '"' || c == '\\' then ['\\', c]
    else if n == 8 then "\\b"
    else if n == 12 then "\\f"
    else if n == 10 then "\\n"
    else if n == 13 then "\\r"
    else if n == 9 then "\\t"
    else if n < 0x20 || c == '<' || c == '>' || c == '&' || n == 0x2028 || n == 0x2029 then UnicodeEscape(n)
    else [c]
  }

  function Escape(s: string): string {
    if s == "" then "" else EscapeChar(s[0]) + Escape(s[1..])
  }

  function Quote(s: string): string { "\"" + Escape(s) + "\"" }

  // ---- reading: json.Unmarshal of a string ----

  function Cons(c: char, rest: Option<string>): Option<string> {
    if rest.None? then None else Some([c] + rest.value)
  }

  predicate IsSurrogate(n: int) { 0xD800 <= n < 0xE000 }

  /** The text between the quotes, unescaped; None if it is not a valid JSON string. */
  function Unescape(t: string): Option<string>
    decreases |t|, 1
  {
    if t == "" then Some("")
    else if t[0] as int < 0x20 || t[0] == '"' then None
    else if t[0] != '\\' then Cons(t[0], Unescape(t[1..]))
    else if |t| < 2 then None
    else match t[1]
      case '"' => Cons('"', Unescape(t[2..]))
      case '\\' => Cons('\\', Unescape(t[2..]))
      case '/' => Cons('/', Unescape(t[2..]))
      case 'b' => Cons(8 as char, Unescape(t[2..]))
      case 'f' => Cons(12 as char, Unescape(t[2..]))
      case 'n' => Cons(10 as char, Unescape(t[2..]))
      case 'r' => Cons(13 as char, Unescape(t[2..]))
      case 't' => Cons(9 as char, Unescape(t[2..]))
      case 'u' => UnescapeUnicode(t)
      case _ => None
  }

  /** \uXXXX: two surrogates that pair up give one character, a lone one gives U+FFFD. */
  function UnescapeUnicode(t: string): Option<string>
    requires |t| >= 2
    decreases |t|, 0
  {
    var h := Hex4(t[2..]);
    if h.None? then None
    else if !IsSurrogate(h.value) then Cons(h.value as char, Unescape(t[6..]))
    else
      var l := if |t| >= 8 && t[6] == '\\' && t[7] == 'u' then Hex4(t[8..]) else None;
      if h.value < 0xDC00 && l.Some? && 0xDC00 <= l.value < 0xE000 then
        Cons((0x1_0000 + (h.value - 0xD800) * 0x400 + l.value - 0xDC00) as char, Unescape(t[12..]))
      else Cons(REPLACEMENT, Unescape(t[6..]))
  }

  // ---- round trip ----

  lemma HexRoundTrip(n: int)
    requires 0 <= n < 16
    ensures HexValue(HexDigit(n)) == Some(n)
  {
  }

  lemma Hex4RoundTrip(n: int, rest: string)
    requires 0 <= n < 0x1_0000
    ensures Hex4(UnicodeEscape(n)[2..] + rest) == Some(n)
  {
    HexRoundTrip(n / 16 / 16 / 16);
    HexRoundTrip(n / 16 / 16 % 16);
    HexRoundTrip(n / 16 % 16);
    HexRoundTrip(n % 16);
  }

  lemma UnescapeChar(c: char, rest: string)
    ensures Unescape(EscapeChar(c) + rest) == Cons(c, Unescape(rest))
  {
    var e, n := EscapeChar(c), c as int;
    var t := e + rest;
    assert t[|e|..] == rest;
    if |e| == 6 {
      assert t[2..] == UnicodeEscape(n)[2..] + rest;
      Hex4RoundTrip(n, rest);
    }
  }

  /** Reading back what was written gives the same string, whatever its characters. */
  lemma {:induction false} UnescapeInvertsEscape(s: string)
    ensures Unescape(Escape(s)) == Some(s)
  {
    if s != "" {
      UnescapeInvertsEscape(s[1..]);
      UnescapeChar(s[0], Escape(s[1..]));
      assert s == [s[0]] + s[1..];
    }
  }

  // ---- what each escape reads as ----

  /** c is the hexadecimal digit worth n, in either case. */
  predicate IsHex(c: char, n: int) {
    0 <= n < 16 && (c == "0123456789abcdef"[n] || c == "0123456789ABCDEF"[n])
  }

  /** h is n in four hexadecimal digits. */
  predicate IsCode(h: string, n: int) {
    0 <= n < 0x1_0000 && |h| == 4 && IsHex(h[0], n / 0x1000) && IsHex(h[1], n / 0x100 % 0x10)
    && IsHex(h[2], n / 0x10 % 0x10) && IsHex(h[3], n % 0x10)
  }

  lemma HexValueIff(c: char, n: int)
    ensures HexValue(c) == Some(n) <==> IsHex(c, n)
  {
  }

  lemma FourDigits(n: int)
    requires 0 <= n < 0x1_0000
    ensures ((n / 0x1000 * 16 + n / 0x100 % 0x10) * 16 + n / 0x10 % 0x10) * 16 + n % 0x10 == n
  {
    assert n / 0x100 == n / 0x10 / 0x10 && n / 0x1000 == n / 0x100 / 0x10;
  }

  lemma CodeReads(h: string, n: int, rest: string)
    requires IsCode(h, n)
    ensures Hex4(h + rest) == Some(n)
  {
    HexValueIff(h[0], n / 0x1000);
    HexValueIff(h[1], n / 0x100 % 0x10);
    HexValueIff(h[2], n / 0x10 % 0x10);
    HexValueIff(h[3], n % 0x10);
    FourDigits(n);
  }

  /** A backslash and one character: the eight escapes, and nothing else but \u. */
  lemma ShortEscapesRead(e: char, rest: string)
    requires e != 'u'
    ensures Unescape(['\\', e] + rest) ==
            if e !in "\"\\/bfnrt" || Unescape(rest).None? then None
            else Some([if e == 'b' then 8 as char else if e == 'f' then 12 as char else if e == 'n' then 10 as char
                       else if e == 'r' then 13 as char else if e == 't' then 9 as char else e] + Unescape(rest).value)
  {
    assert (['\\', e] + rest)[2..] == rest;
  }

  /** Any other character stands for itself, but a bare quote or a control character is an error. */
  lemma PlainCharactersRead(c: char, rest: string)
    requires c != '\\'
    ensures Unescape([c] + rest) ==
            if c as int < 0x20 || c == '"' || Unescape(rest).None? then None else Some([c] + Unescape(rest).value)
  {
    assert ([c] + rest)[1..] == rest;
  }

  lemma UnicodeStarts(h: string, n: int, rest: string, t: string)
    requires IsCode(h, n) && t == "\\u" + h + rest
    ensures |t| == 6 + |rest| && Hex4(t[2..]) == Some(n) && t[6..] == rest && Unescape(t) == UnescapeUnicode(t)
  {
    CodeReads(h, n, rest);
    SixCharacters(h, rest, t);
    UnicodeIsEscape(t);
  }

  lemma SixCharacters(h: string, rest: string, t: string)
    requires |h| == 4 && t == "\\u" + h + rest
    ensures |t| == 6 + |rest| && t[0] == '\\' && t[1] == 'u' && t[2..] == h + rest && t[6..] == rest
  {
  }

  lemma UnicodeIsEscape(t: string)
    requires |t| >= 2 && t[0] == '\\' && t[1] == 'u'
    ensures Unescape(t) == UnescapeUnicode(t)
  {
  }

  /** Four hexadecimal digits in either case are that character, unless they are a surrogate. */
  lemma UnicodeEscapesRead(h: string, n: int, rest: string)
    requires IsCode(h, n) && (n < 0xD800 || 0xE000 <= n)
    ensures Unescape("\\u" + h + rest) ==
            if Unescape(rest).None? then None else Some([n as char] + Unescape(rest).value)
  {
    UnicodeStarts(h, n, rest, "\\u" + h + rest);
  }

  /** Every character past U+FFFF reads from its surrogate pair. */
  lemma SurrogatePairsRead(x: char, high: string, low: string, rest: string)
    requires 0x1_0000 <= x as int
    requires IsCode(high, 0xD800 + (x as int - 0x1_0000) / 0x400) && IsCode(low, 0xDC00 + (x as int - 0x1_0000) % 0x400)
    ensures Unescape("\\u" + high + ("\\u" + low + rest)) ==
            if Unescape(rest).None? then None else Some([x] + Unescape(rest).value)
  {
    var u := "\\u" + low + rest;
    var t := "\\u" + high + u;
    UnicodeStarts(high, 0xD800 + (x as int - 0x1_0000) / 0x400, u, t);
    UnicodeStarts(low, 0xDC00 + (x as int - 0x1_0000) % 0x400, rest, u);
    assert t[8..] == t[6..][2..] && t[12..] == t[6..][6..] && t[6] == u[0] && t[7] == u[1];
    PairReads(t, 0xD800 + (x as int - 0x1_0000) / 0x400, 0xDC00 + (x as int - 0x1_0000) % 0x400, x as int);
  }

  lemma PairReads(t: string, high: int, low: int, x: int)
    requires |t| >= 12 && t[6] == '\\' && t[7] == 'u' && Unescape(t) == UnescapeUnicode(t)
    requires Hex4(t[2..]) == Some(high) && Hex4(t[8..]) == Some(low)
    requires 0x1_0000 <= x < 0x11_0000
    requires high == 0xD800 + (x - 0x1_0000) / 0x400 && low == 0xDC00 + (x - 0x1_0000) % 0x400
    ensures Unescape(t) == Cons(x as char, Unescape(t[12..]))
  {
  }

  /** A surrogate that no low surrogate completes reads as U+FFFD. */
  lemma LoneSurrogatesRead(h: string, n: int, rest: string)
    requires IsCode(h, n) && 0xD800 <= n < 0xE000
    requires 0xDC00 <= n || |rest| < 2 || rest[0] != '\\' || rest[1] != 'u'
    ensures Unescape("\\u" + h + rest) ==
            if Unescape(rest).None? then None else Some(['\U{FFFD}'] + Unescape(rest).value)
  {
    var t := "\\u" + h + rest;
    UnicodeStarts(h, n, rest, t);
    assert |rest| >= 2 ==> t[6] == rest[0] && t[7] == rest[1];
    LoneReads(t, n);
  }

  lemma LoneReads(t: string, n: int)
    requires |t| >= 6 && Unescape(t) == UnescapeUnicode(t) && Hex4(t[2..]) == Some(n) && 0xD800 <= n < 0xE000
    requires 0xDC00 <= n || |t| < 8 || t[6] != '\\' || t[7] != 'u'
    ensures Unescape(t) == Cons(REPLACEMENT, Unescape(t[6..]))
  {
  }
}
