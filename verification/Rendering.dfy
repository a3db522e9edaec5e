/** Tokens written back as text, and the lexer reading them again. */
module Rendering {
  import opened Wrappers
  import opened Decimals
  import opened JsonStrings
  import opened Lexer

  predicate IsIdent(s: string) { s != "" && IsIdentStart(s[0]) && forall i :: 0 <= i < |s| ==> IsIdentCont(s[i]) }

  /** -?digits(.digits)?, the shape of a number lexeme. */
  predicate IsNumber(s: string) {
    s != "" && (IsDigit(s[0]) || (s[0] == '-' && 1 < |s| && IsDigit(s[1]))) && NumberLen(s) == |s|
  }

  lemma {:induction false} DigitLenOfAll(a: string, rest: string)
    requires AllDigits(a) && (rest == "" || !IsDigit(rest[0]))
    ensures DigitLen(a + rest) == |a|
  {
    if a == "" {
      assert a + rest == rest;
    } else {
      assert (a + rest)[1..] == a[1..] + rest && (a + rest)[0] == a[0];
      DigitLenOfAll(a[1..], rest);
    }
  }

  /** Digits, with a sign, a fraction, both or neither, are a number lexeme. */
  lemma NumberShapes(a: string, b: string, signed: bool)
    requires a != "" && AllDigits(a) && AllDigits(b)
    ensures var s := (if signed then "-" else "") + a;
            IsNumber(s) && (b != "" ==> IsNumber(s + ("." + b)))
  {
    var sign := if signed then "-" else "";
    WholeShape(sign, a, "");
    assert sign + a == sign + (a + "");
    if b != "" {
      WholeShape(sign, a, "." + b);
      var s := sign + (a + ("." + b));
      assert s == sign + a + ("." + b) && s[|sign| + |a| + 1..] == b;
      DigitLenOfAll(b, "");
      assert b + "" == b;
    }
  }

  lemma WholeShape(sign: string, a: string, rest: string)
    requires (sign == "" || sign == "-") && a != "" && AllDigits(a) && (rest == "" || rest[0] == '.')
    ensures var s := sign + (a + rest); WholeLen(s) == |sign| + |a| && (sign == "" ==> IsDigit(s[0]))
  {
    var s := sign + (a + rest);
    DigitLenOfAll(a, rest);
    assert SignLen(s) == |sign| && s[|sign|..] == a + rest;
  }

  /** Nothing after a lexeme runs on from it. */
  predicate Separate(rest: string) { rest == "" || !IsIdentCont(rest[0]) }

  /** json is the text of one JSON object, and the scanner stops at its end. */
  ghost predicate IsJson(text: string, json: JsonScanner) {
    text != "" && text[0] == '{' && forall rest :: json(text + " " + rest) == Some(|text|)
  }

  function Prepend(t: Token, r: Result<seq<Token>>): Result<seq<Token>> {
    if r.Err? then Err else Ok([t] + r.value)
  }

  lemma TokensOfLexeme(s: string, t: Token, rest: string, json: JsonScanner)
    requires s != "" && !IsSpace(s[0]) && Lex(s, json) == Ok((t, rest))
    ensures Tokens(s, json) == Prepend(t, Tokens(rest, json))
  {
    TokensStep(s, json);
  }

  lemma TokensAfterSpace(rest: string, json: JsonScanner)
    ensures Tokens(" " + rest, json) == Tokens(rest, json)
  {
    assert (" " + rest)[1..] == rest;
    TokensStep(" " + rest, json);
    TokensStep(rest, json);
  }

  lemma {:induction false} IdentLenIsAll(s: string, rest: string)
    requires (forall i :: 0 <= i < |s| ==> IsIdentCont(s[i])) && Separate(rest)
    ensures IdentLen(s + rest) == |s|
  {
    if s == "" {
      assert s + rest == rest;
    } else {
      assert (s + rest)[1..] == s[1..] + rest;
      IdentLenIsAll(s[1..], rest);
    }
  }

  lemma LexIdentText(s: string, rest: string, json: JsonScanner)
    requires IsIdent(s) && Separate(rest)
    ensures Tokens(s + rest, json) == Prepend(Token(TIdent, s), Tokens(rest, json))
  {
    IdentLenIsAll(s, rest);
    assert (s + rest)[..|s|] == s && (s + rest)[|s|..] == rest && (s + rest)[0] == s[0];
    TokensOfLexeme(s + rest, Token(TIdent, s), rest, json);
  }

  lemma {:induction false} DigitLenOfJoin(s: string, rest: string)
    requires rest == "" || !IsDigit(rest[0])
    ensures DigitLen(s + rest) == DigitLen(s)
  {
    if s == "" {
      assert s + rest == rest;
    } else {
      assert (s + rest)[1..] == s[1..] + rest && (s + rest)[0] == s[0];
      DigitLenOfJoin(s[1..], rest);
    }
  }

  lemma WholeLenOfJoin(s: string, rest: string)
    requires s != "" && Separate(rest)
    ensures WholeLen(s + rest) == WholeLen(s)
  {
    var n := SignLen(s);
    assert (s + rest)[0] == s[0] && (s + rest)[n..] == s[n..] + rest;
    DigitLenOfJoin(s[n..], rest);
  }

  lemma NumberLenOfJoin(s: string, rest: string)
    requires s != "" && NumberLen(s) == |s| && Separate(rest)
    ensures NumberLen(s + rest) == |s|
  {
    WholeLenOfJoin(s, rest);
    var w := WholeLen(s);
    if HasFraction(s, w) {
      assert HasFraction(s + rest, w);
      assert (s + rest)[w + 1..] == s[w + 1..] + rest;
      DigitLenOfJoin(s[w + 1..], rest);
    } else {
      assert !HasFraction(s + rest, w);
    }
  }

  lemma LexNumberText(s: string, rest: string, json: JsonScanner)
    requires IsNumber(s) && Separate(rest)
    ensures Tokens(s + rest, json) == Prepend(Token(TNumber, s), Tokens(rest, json))
  {
    NumberLenOfJoin(s, rest);
    var x := s + rest;
    assert x[0] == s[0] && (1 < |s| ==> x[1] == s[1]);
    assert x[..|s|] == s && x[|s|..] == rest;
    TokensOfLexeme(x, Token(TNumber, s), rest, json);
  }

  function Past(n: nat, r: Option<nat>): Option<nat> { if r.None? then None else Some(n + r.value) }

  lemma SkipEscape(x: string, i: nat)
    requires i + 1 < |x| && x[i] == '\\'
    ensures CloseQuote(x[i..]) == Past(2, CloseQuote(x[i + 2..]))
  {
    assert x[i..][2..] == x[i + 2..];
  }

  lemma SkipPlain(x: string, i: nat)
    requires i < |x| && x[i] != '"' && x[i] != '\\'
    ensures CloseQuote(x[i..]) == Past(1, CloseQuote(x[i + 1..]))
  {
    assert x[i..][1..] == x[i + 1..];
  }

  lemma SkipUnicode(n: int, t: string)
    requires 0 <= n < 0x1_0000
    ensures CloseQuote(UnicodeEscape(n) + t) == Past(6, CloseQuote(t))
  {
    var x := UnicodeEscape(n) + t;
    assert forall i :: 2 <= i < 6 ==> x[i] != '"' && x[i] != '\\';
    SkipEscape(x, 0);
    SkipPlain(x, 2);
    SkipPlain(x, 3);
    SkipPlain(x, 4);
    SkipPlain(x, 5);
    assert x[0..] == x && x[6..] == t;
  }

  lemma CloseQuoteOfChar(c: char, t: string)
    ensures CloseQuote(EscapeChar(c) + t) == Past(|EscapeChar(c)|, CloseQuote(t))
  {
    var e := EscapeChar(c);
    if |e| == 6 {
      SkipUnicode(c as int, t);
    } else if |e| == 2 {
      SkipPair(e, t);
    } else {
      SkipOne(e, t);
    }
  }

  lemma SkipPair(e: string, t: string)
    requires |e| == 2 && e[0] == '\\'
    ensures CloseQuote(e + t) == Past(2, CloseQuote(t))
  {
    SkipEscape(e + t, 0);
    assert (e + t)[0..] == e + t && (e + t)[2..] == t;
  }

  lemma SkipOne(e: string, t: string)
    requires |e| == 1 && e[0] != '"' && e[0] != '\\'
    ensures CloseQuote(e + t) == Past(1, CloseQuote(t))
  {
    SkipPlain(e + t, 0);
    assert (e + t)[0..] == e + t && (e + t)[1..] == t;
  }

  lemma {:induction false} CloseQuoteOfEscape(s: string, rest: string)
    ensures CloseQuote(Escape(s) + "\"" + rest) == Some(|Escape(s)| + 1)
  {
    if s == "" {
      assert Escape(s) + "\"" + rest == "\"" + rest;
    } else {
      CloseQuoteOfEscape(s[1..], rest);
      CloseQuoteOfChar(s[0], Escape(s[1..]) + "\"" + rest);
      assert Escape(s) + "\"" + rest == EscapeChar(s[0]) + (Escape(s[1..]) + "\"" + rest);
    }
  }

  lemma LexStringOfQuote(s: string, rest: string)
    ensures LexString(Quote(s) + rest) == Ok((Token(TString, s), rest))
  {
    var x, n := Quote(s) + rest, |Escape(s)|;
    assert x[1..] == Escape(s) + "\"" + rest;
    assert CloseQuote(x[1..]) == Some(n + 1) by { CloseQuoteOfEscape(s, rest); }
    assert x[1..n + 1] == Escape(s) && x[n + 2..] == rest;
    UnescapeInvertsEscape(s);
  }

  /** A quoted string lexes to the string, whatever it holds and whatever follows it. */
  lemma LexQuotedText(s: string, rest: string, json: JsonScanner)
    ensures Tokens(Quote(s) + rest, json) == Prepend(Token(TString, s), Tokens(rest, json))
  {
    LexStringOfQuote(s, rest);
    assert Lex(Quote(s) + rest, json) == LexString(Quote(s) + rest);
    TokensOfLexeme(Quote(s) + rest, Token(TString, s), rest, json);
  }

  // ---- whole token lists ----

  function Symbol(kind: Kind): string {
    match kind
    case TSlash => "/"
    case TEq => "="
    case TNeq => "!="
    case TLt => "<"
    case TLte => "<="
    case TGt => ">"
    case TGte => ">="
    case TMinus => "-"
    case TArrow => "->"
    case TLBracket => "["
    case TRBracket => "]"
    case TComma => ","
    case _ => ""
  }

  ghost predicate WellFormed(t: Token, json: JsonScanner) {
    match t.kind
    case TIdent => IsIdent(t.text)
    case TNumber => IsNumber(t.text)
    case TString => true
    case TJson => IsJson(t.text, json)
    case TEof => false
    case kind => t.text == Symbol(kind)
  }

  function Lexeme(t: Token): string { if t.kind == TString then Quote(t.text) else t.text }

  /** Every token followed by one space. */
  function Render(ts: seq<Token>): string {
    if ts == [] then "" else Lexeme(ts[0]) + " " + Render(ts[1..])
  }

  lemma LexSymbol(kind: Kind, rest: string, json: JsonScanner)
    requires Symbol(kind) != ""
    ensures Tokens(Symbol(kind) + " " + rest, json) == Prepend(Token(kind, Symbol(kind)), Tokens(" " + rest, json))
  {
    var s := Symbol(kind);
    var x := s + " " + rest;
    assert x[..|s|] == s && x[|s|..] == " " + rest && PeekAt(x, 1) == if |s| == 2 then s[1] else ' ';
    TokensOfLexeme(x, Token(kind, s), " " + rest, json);
  }

  lemma LexJsonText(s: string, rest: string, json: JsonScanner)
    requires IsJson(s, json)
    ensures Tokens(s + " " + rest, json) == Prepend(Token(TJson, s), Tokens(" " + rest, json))
  {
    var x := s + " " + rest;
    assert x[0] == s[0] && x[..|s|] == s && x[|s|..] == " " + rest;
    TokensOfLexeme(x, Token(TJson, s), " " + rest, json);
  }

  lemma LexOne(t: Token, rest: string, json: JsonScanner)
    requires WellFormed(t, json)
    ensures Tokens(Lexeme(t) + (" " + rest), json) == Prepend(t, Tokens(rest, json))
  {
    TokensAfterSpace(rest, json);
    if t.kind == TIdent {
      LexIdentText(t.text, " " + rest, json);
    } else if t.kind == TNumber {
      LexNumberText(t.text, " " + rest, json);
    } else if t.kind == TString {
      LexQuotedText(t.text, " " + rest, json);
    } else {
      LexOther(t, rest, json);
    }
  }

  lemma LexOther(t: Token, rest: string, json: JsonScanner)
    requires WellFormed(t, json) && t.kind != TIdent && t.kind != TNumber && t.kind != TString
    ensures Tokens(t.text + (" " + rest), json) == Prepend(t, Tokens(" " + rest, json))
  {
    assert t.text + (" " + rest) == t.text + " " + rest;
    if t.kind == TJson { LexJsonText(t.text, rest, json); } else { LexSymbol(t.kind, rest, json); }
  }

  lemma RenderStep(ts: seq<Token>)
    requires ts != []
    ensures Render(ts) == Lexeme(ts[0]) + (" " + Render(ts[1..])) && [ts[0]] + ts[1..] == ts
  {
    assert Lexeme(ts[0]) + " " + Render(ts[1..]) == Lexeme(ts[0]) + (" " + Render(ts[1..]));
  }

  lemma {:induction false} LexerInvertsRender(ts: seq<Token>, json: JsonScanner)
    requires forall t :: t in ts ==> WellFormed(t, json)
    ensures Tokens(Render(ts), json) == Ok(ts)
  {
    if ts != [] {
      var t, rest := ts[0], ts[1..];
      assert t in ts && forall u :: u in rest ==> u in ts;
      LexerInvertsRender(rest, json);
      LexOne(t, Render(rest), json);
      RenderStep(ts);
    }
  }

  lemma LexArrow(rest: string, json: JsonScanner)
    ensures Tokens("->" + rest, json) == Prepend(Token(TArrow, "->"), Tokens(rest, json))
  {
    var x := "->" + rest;
    assert x[..2] == "->" && x[2..] == rest;
    TokensOfLexeme(x, Token(TArrow, "->"), rest, json);
  }

  lemma LexMinus(typ: string, rest: string, json: JsonScanner)
    requires IsIdent(typ)
    ensures Tokens("-" + (typ + rest), json) == Prepend(Token(TMinus, "-"), Tokens(typ + rest, json))
  {
    var x := "-" + (typ + rest);
    assert x[..1] == "-" && x[1..] == typ + rest && x[1] == typ[0];
    TokensOfLexeme(x, Token(TMinus, "-"), typ + rest, json);
  }

  /** RELATE's arrow is never ambiguous: "-", an identifier and "->" lex to exactly those three tokens. */
  lemma EdgeAlwaysLexesToThreeTokens(typ: string, rest: string, json: JsonScanner)
    requires IsIdent(typ)
    ensures Tokens("-" + typ + "->" + rest, json)
         == Prepend(Token(TMinus, "-"), Prepend(Token(TIdent, typ), Prepend(Token(TArrow, "->"), Tokens(rest, json))))
  {
    assert "-" + typ + "->" + rest == "-" + (typ + ("->" + rest));
    LexMinus(typ, "->" + rest, json);
    LexIdentText(typ, "->" + rest, json);
    LexArrow(rest, json);
  }
}
