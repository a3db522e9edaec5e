/** internal/tql/lexer.go: TQL text to tokens. Text is a sequence of code points; token positions, which serve only
    error messages, are not modelled. */
module Lexer {
  import opened Wrappers
  import opened Decimals
  import opened JsonStrings

  datatype Kind =
    | TIdent | TNumber | TString | TJson | TSlash | TEq | TNeq | TLt | TLte | TGt | TGte
    | TMinus | TArrow | TLBracket | TRBracket | TComma | TEof

  datatype Token = Token(kind: Kind, text: string)

  const EOF := Token(TEof, "")

  /** How much of a text that starts with '{' the JSON decoder takes as one value; None if it finds none. */
  type JsonScanner = f: string -> Option<nat> | forall s :: f(s).Some? ==> 0 < f(s).value <= |s| witness s => None

  predicate IsSpace(c: char) { c == ' ' || c == '\t' || c == '\r' || c == '\n' }

  predicate IsIdentStart(c: char) { 'a' <= c <= 'z' || 'A' <= c <= 'Z' || c == '_' }

  /** '-' is left out, so that -<edge-type>-> is never ambiguous with a hyphenated name. */
  predicate IsIdentCont(c: char) { IsIdentStart(c) || IsDigit(c) || c == '.' }

  // ---- the lexemes ----

  function SkipSpace(s: string): (r: string)
    ensures |r| <= |s|
  {
    if s != "" && IsSpace(s[0]) then SkipSpace(s[1..]) else s
  }

  function IdentLen(s: string): (n: nat)
    ensures n <= |s|
  {
    if s != "" && IsIdentCont(s[0]) then 1 + IdentLen(s[1..]) else 0
  }

  function DigitLen(s: string): (n: nat)
    ensures n <= |s|
  {
    if s != "" && IsDigit(s[0]) then 1 + DigitLen(s[1..]) else 0
  }

  function SignLen(s: string): nat { if s != "" && s[0] == '-' then 1 else 0 }

  function WholeLen(s: string): (n: nat)
    ensures n <= |s|
  {
    SignLen(s) + DigitLen(s[SignLen(s)..])
  }

  predicate HasFraction(s: string, whole: nat) {
    whole + 1 < |s| && s[whole] == '.' && IsDigit(s[whole + 1])
  }

  /** -?digits, then .digits only if a digit follows the point. */
  function NumberLen(s: string): (n: nat)
    ensures n <= |s|
  {
    if HasFraction(s, WholeLen(s)) then WholeLen(s) + 1 + DigitLen(s[WholeLen(s) + 1..]) else WholeLen(s)
  }

  /** Past the closing quote of the literal whose text after the opening quote is t; None if it is never closed. */
  function CloseQuote(t: string): (r: Option<nat>)
    ensures r.Some? ==> 0 < r.value <= |t|
  {
    if t == "" then None
    else if t[0] == '"' then Some(1)
    else
      var step := if t[0] == '\\' && 1 < |t| then 2 else 1;
      var r := CloseQuote(t[step..]);
      if r.None? then None else Some(step + r.value)
  }

  type Lexed = Result<(Token, string)>

  function Take(s: string, n: nat, kind: Kind): Lexed
    requires n <= |s|
  {
    Ok((Token(kind, s[..n]), s[n..]))
  }

  function LexString(s: string): Lexed
    requires s != ""
  {
    var close := CloseQuote(s[1..]);
    if close.None? then Err else
      var text := Unescape(s[1..close.value]);
      if text.None? then Err else Ok((Token(TString, text.value), s[1 + close.value..]))
  }

  function LexJson(s: string, json: JsonScanner): Lexed {
    var n := json(s);
    if n.None? then Err else Take(s, n.value, TJson)
  }

  function PeekAt(s: string, i: nat): char { if i < |s| then s[i] else '\0' }

  /** next, on text that does not start with white space. */
  function Lex(s: string, json: JsonScanner): Lexed
    requires s != ""
  {
    var c := s[0];
    if c == '"' then LexString(s)
    else if c == '{' then LexJson(s, json)
    else if c == '/' then Take(s, 1, TSlash)
    else if c == '[' then Take(s, 1, TLBracket)
    else if c == ']' then Take(s, 1, TRBracket)
    else if c == ',' then Take(s, 1, TComma)
    else if c == '=' then Take(s, 1, TEq)
    else if c == '!' then (if PeekAt(s, 1) == '=' then Take(s, 2, TNeq) else Err)
    else if c == '<' then (if PeekAt(s, 1) == '=' then Take(s, 2, TLte) else Take(s, 1, TLt))
    else if c == '>' then (if PeekAt(s, 1) == '=' then Take(s, 2, TGte) else Take(s, 1, TGt))
    else if c == '-' then
      if PeekAt(s, 1) == '>' then Take(s, 2, TArrow)
      else if IsDigit(PeekAt(s, 1)) then Take(s, NumberLen(s), TNumber)
      else Take(s, 1, TMinus)
    else if IsDigit(c) then Take(s, NumberLen(s), TNumber)
    else if IsIdentStart(c) then Take(s, IdentLen(s), TIdent)
    else Err
  }

  lemma LexTakes(s: string, json: JsonScanner) returns (n: nat, kind: Kind)
    requires s != "" && s[0] != '"' && Lex(s, json).Ok?
    ensures 0 < n <= |s| && kind != TString && kind != TEof && Lex(s, json) == Take(s, n, kind)
  {
    kind := Lex(s, json).value.0.kind;
    n := |s| - |Lex(s, json).value.1|;
    if IsDigit(s[0]) {
      assert DigitLen(s) >= 1 && s[0..] == s;
    } else if s[0] == '-' && IsDigit(PeekAt(s, 1)) {
      assert DigitLen(s[1..]) >= 1;
    }
  }

  /** Every token consumes at least one character, and its lexeme is what it consumed:
      its own text, or for a string the quoted and escaped form of it. */
  lemma LexConsumes(s: string, json: JsonScanner)
    requires s != "" && Lex(s, json).Ok?
    ensures var (t, rest) := Lex(s, json).value;
            |rest| < |s| && s == s[..|s| - |rest|] + rest && t.kind != TEof
            && (if t.kind == TString then s[0] == '"' && Unescape(s[1..|s| - |rest| - 1]) == Some(t.text)
                else t.text == s[..|s| - |rest|])
  {
    if s[0] != '"' {
      var n, kind := LexTakes(s, json);
    }
  }

  /** tokenize: every token of s up to its end. */
  function Tokens(s: string, json: JsonScanner): Result<seq<Token>>
    decreases |s|
  {
    var s' := SkipSpace(s);
    if s' == "" then Ok([])
    else
      var r := Lex(s', json);
      if r.Err? then Err
      else
        LexConsumes(s', json);
        var rest := Tokens(r.value.1, json);
        if rest.Err? then Err else Ok([r.value.0] + rest.value)
  }

  lemma TokensStep(s: string, json: JsonScanner)
    ensures Tokens(s, json) ==
            var s' := SkipSpace(s);
            if s' == "" then Ok([])
            else if Lex(s', json).Err? then Err
            else
              var rest := Tokens(Lex(s', json).value.1, json);
              if rest.Err? then Err else Ok([Lex(s', json).value.0] + rest.value)
  {
    if SkipSpace(s) != "" && Lex(SkipSpace(s), json).Ok? {
      LexConsumes(SkipSpace(s), json);
    }
  }

  /** next: the first token of s and what follows it; None at the end. */
  function NextOf(s: string, json: JsonScanner): Result<Option<(Token, string)>> {
    if SkipSpace(s) == "" then Ok(None)
    else if Lex(SkipSpace(s), json).Err? then Err
    else Ok(Some(Lex(SkipSpace(s), json).value))
  }

  lemma TokensByNext(s: string, json: JsonScanner)
    ensures match NextOf(s, json)
            case Err => Tokens(s, json).Err?
            case Ok(None) => Tokens(s, json) == Ok([])
            case Ok(Some((t, rest))) =>
              |rest| < |s| && Tokens(s, json) == if Tokens(rest, json).Err? then Err
                    else Ok([t] + Tokens(rest, json).value)
  {
    TokensStep(s, json);
    if SkipSpace(s) != "" && Lex(SkipSpace(s), json).Ok? {
      LexConsumes(SkipSpace(s), json);
    }
  }

  /** s is white space and lexemes in turn, one lexeme per token and nothing left over. */
  ghost predicate Spells(s: string, ts: seq<Token>)
    decreases |ts|
  {
    var s' := SkipSpace(s);
    if ts == [] then s' == ""
    else exists n :: 0 < n <= |s'| && Spells(s'[n..], ts[1..])
           && if ts[0].kind == TString then n >= 2 && s'[0] == '"' && Unescape(s'[1..n - 1]) == Some(ts[0].text)
              else s'[..n] == ts[0].text
  }

  lemma {:induction false} TokensSpellTheText(s: string, json: JsonScanner)
    requires Tokens(s, json).Ok?
    ensures Spells(s, Tokens(s, json).value)
    decreases |s|
  {
    var s', ts := SkipSpace(s), Tokens(s, json).value;
    if s' != "" {
      LexConsumes(s', json);
      var (t, rest) := Lex(s', json).value;
      TokensSpellTheText(rest, json);
      var n := |s'| - |rest|;
      assert ts[1..] == Tokens(rest, json).value && s'[n..] == rest;
    }
  }

  // ---- the cursor machine ----

  lemma Slices(src: string, i: nat, n: nat)
    requires i + n <= |src|
    ensures src[i..][..n] == src[i..i + n] && src[i..][n..] == src[i + n..]
  {
  }

  lemma QuotedSlices(src: string, start: nat, n: nat)
    requires 0 < n && start + 1 + n <= |src|
    ensures src[start..][1..n] == src[start + 1..start + n] && src[start..][1 + n..] == src[start + 1 + n..]
  {
  }

  function EscapeStep(t: string): nat { if t != "" && t[0] == '\\' && 1 < |t| then 2 else 1 }

  lemma CloseQuoteStep(src: string, pos: nat, step: nat)
    requires pos < |src| && src[pos] != '"' && step == EscapeStep(src[pos..])
    ensures pos + step <= |src|
    ensures CloseQuote(src[pos..]) ==
            if CloseQuote(src[pos + step..]).None? then None else Some(step + CloseQuote(src[pos + step..]).value)
  {
    Slices(src, pos, step);
  }

  lemma FractionPart(src: string, start: nat, whole: nat)
    requires start + whole <= |src| && whole == WholeLen(src[start..])
    ensures HasFraction(src[start..], whole) <==>
            start + whole + 1 < |src| && src[start + whole] == '.' && IsDigit(src[start + whole + 1])
    ensures HasFraction(src[start..], whole) ==>
              NumberLen(src[start..]) == whole + 1 + DigitLen(src[start + whole + 1..])
  {
    if start + whole + 1 < |src| {
      Slices(src, start, whole + 1);
    }
  }

  class Cursor {
    const src: string
    const json: JsonScanner
    var pos: nat

    ghost predicate Valid()
      reads this
    {
      pos <= |src|
    }

    ghost function Rest(): string
      reads this
      requires Valid()
    {
      src[pos..]
    }

    constructor (src: string, json: JsonScanner)
      ensures Valid() && Rest() == src && this.src == src && this.json == json
    {
      this.src, this.json, pos := src, json, 0;
    }

    method PeekByte(offset: nat) returns (c: char)
      requires Valid()
      ensures c == PeekAt(Rest(), offset)
    {
      c := if pos + offset >= |src| then '\0' else src[pos + offset];
    }

    method SkipSpaces()
      requires Valid()
      modifies this
      ensures Valid() && Rest() == SkipSpace(old(Rest()))
    {
      while pos < |src|
        invariant Valid() && SkipSpace(Rest()) == SkipSpace(old(Rest()))
      {
        if !IsSpace(src[pos]) {
          return;
        }
        assert src[pos..][1..] == src[pos + 1..];
        pos := pos + 1;
      }
    }

    /** l.pos += n, with the token text l.src[start:l.pos]. */
    method Advance(n: nat, kind: Kind) returns (t: Token)
      requires Valid() && n <= |Rest()|
      modifies this
      ensures Valid() && Take(old(Rest()), n, kind) == Ok((t, Rest()))
    {
      Slices(src, pos, n);
      t := Token(kind, src[pos..pos + n]);
      pos := pos + n;
    }

    method LexIdent() returns (t: Token)
      requires Valid()
      modifies this
      ensures Valid() && Take(old(Rest()), IdentLen(old(Rest())), TIdent) == Ok((t, Rest()))
    {
      var start := pos;
      while pos < |src| && IsIdentCont(src[pos])
        invariant Valid() && start <= pos
        invariant IdentLen(src[start..]) == pos - start + IdentLen(src[pos..])
      {
        assert src[pos..][1..] == src[pos + 1..];
        pos := pos + 1;
      }
      Slices(src, start, pos - start);
      t := Token(TIdent, src[start..pos]);
    }

    method SkipDigits()
      requires Valid()
      modifies this
      ensures Valid() && pos == old(pos) + DigitLen(src[old(pos)..])
    {
      var start := pos;
      while pos < |src| && IsDigit(src[pos])
        invariant Valid() && start <= pos
        invariant DigitLen(src[start..]) == pos - start + DigitLen(src[pos..])
      {
        assert src[pos..][1..] == src[pos + 1..];
        pos := pos + 1;
      }
    }

    method SkipNumber()
      requires Valid()
      modifies this
      ensures Valid() && pos == old(pos) + NumberLen(old(Rest()))
    {
      ghost var start := pos;
      SkipWhole();
      FractionPart(src, start, pos - start);
      var next := PeekByte(1);
      if pos < |src| && src[pos] == '.' && IsDigit(next) {
        pos := pos + 1;
        SkipDigits();
      }
    }

    method LexNumber() returns (t: Token)
      requires Valid()
      modifies this
      ensures Valid() && Take(old(Rest()), NumberLen(old(Rest())), TNumber) == Ok((t, Rest()))
    {
      var start := pos;
      SkipNumber();
      Slices(src, start, pos - start);
      t := Token(TNumber, src[start..pos]);
    }

    method SkipWhole()
      requires Valid()
      modifies this
      ensures Valid() && pos == old(pos) + WholeLen(old(Rest()))
    {
      ghost var start := pos;
      SkipSign();
      Slices(src, start, pos - start);
      SkipDigits();
    }

    method SkipSign()
      requires Valid()
      modifies this
      ensures Valid() && pos == old(pos) + SignLen(old(Rest()))
    {
      if pos < |src| && src[pos] == '-' {
        pos := pos + 1;
      }
    }

    /** The scan for the closing quote, after the opening one. */
    method SkipToCloseQuote() returns (closed: bool)
      requires Valid()
      modifies this
      ensures Valid()
      ensures match CloseQuote(old(Rest())) case Some(n) => closed && pos == old(pos) + n case None => !closed
    {
      ghost var start, whole := pos, CloseQuote(Rest());
      while pos < |src|
        invariant Valid() && start <= pos
        invariant match CloseQuote(src[pos..]) case Some(n) => whole == Some(pos - start + n) case None => whole.None?
      {
        if src[pos] == '"' {
          pos := pos + 1;
          return true;
        }
        var step := if src[pos] == '\\' && pos + 1 < |src| then 2 else 1;
        CloseQuoteStep(src, pos, step);
        pos := pos + step;
      }
      closed := false;
    }

    /** The text between two quotes, the first of which is at the cursor. */
    method CutString() returns (raw: Option<string>)
      requires Valid() && Rest() != ""
      modifies this
      ensures Valid()
      ensures match CloseQuote(old(Rest())[1..])
              case None => raw.None?
              case Some(n) => raw == Some(old(Rest())[1..n]) && Rest() == old(Rest())[1 + n..]
    {
      var start := pos;
      assert src[start..][1..] == src[start + 1..];
      pos := pos + 1;
      var closed := SkipToCloseQuote();
      if !closed {
        return None;
      }
      QuotedSlices(src, start, pos - start - 1);
      raw := Some(src[start + 1..pos - 1]);
    }

    method LexStringLiteral() returns (r: Result<Token>)
      requires Valid() && Rest() != ""
      modifies this
      ensures Valid()
      ensures match LexString(old(Rest())) case Ok((t, rest)) => r == Ok(t) && Rest() == rest case Err => r.Err?
    {
      var raw := CutString();
      if raw.None? {
        return Err;
      }
      var s := Unescape(raw.value);
      r := if s.None? then Err else Ok(Token(TString, s.value));
    }

    method LexJsonValue() returns (r: Result<Token>)
      requires Valid()
      modifies this
      ensures Valid()
      ensures match LexJson(old(Rest()), json) case Ok((t, rest)) => r == Ok(t) && Rest() == rest case Err => r.Err?
    {
      var n := json(src[pos..]);
      if n.None? {
        return Err;
      }
      var t := Advance(n.value, TJson);
      r := Ok(t);
    }

    /** next, after skipSpace, when not at the end. */
    method LexToken() returns (r: Result<Token>)
      requires Valid() && Rest() != ""
      modifies this
      ensures Valid()
      ensures match Lex(old(Rest()), json) case Ok((t, rest)) => r == Ok(t) && Rest() == rest case Err => r.Err?
    {
      var c := src[pos];
      var d := PeekByte(1);
      var t := EOF;
      if c == '"' { r := LexStringLiteral(); return; }
      if c == '{' { r := LexJsonValue(); return; }
      if c == '/' { t := Advance(1, TSlash); return Ok(t); }
      if c == '[' { t := Advance(1, TLBracket); return Ok(t); }
      if c == ']' { t := Advance(1, TRBracket); return Ok(t); }
      if c == ',' { t := Advance(1, TComma); return Ok(t); }
      if c == '=' { t := Advance(1, TEq); return Ok(t); }
      if c == '!' && d == '=' { t := Advance(2, TNeq); return Ok(t); }
      if c == '!' { return Err; }
      if c == '<' && d == '=' { t := Advance(2, TLte); return Ok(t); }
      if c == '<' { t := Advance(1, TLt); return Ok(t); }
      if c == '>' && d == '=' { t := Advance(2, TGte); return Ok(t); }
      if c == '>' { t := Advance(1, TGt); return Ok(t); }
      if c == '-' && d == '>' { t := Advance(2, TArrow); return Ok(t); }
      if IsDigit(c) || (c == '-' && IsDigit(d)) { t := LexNumber(); return Ok(t); }
      if c == '-' { t := Advance(1, TMinus); return Ok(t); }
      if IsIdentStart(c) { t := LexIdent(); return Ok(t); }
      r := Err;
    }

    /** next. */
    method NextToken() returns (r: Result<Option<Token>>)
      requires Valid()
      modifies this
      ensures Valid()
      ensures match NextOf(old(Rest()), json)
              case Err => r.Err?
              case Ok(None) => r == Ok(None)
              case Ok(Some((t, rest))) => r == Ok(Some(t)) && Rest() == rest
    {
      SkipSpaces();
      if pos >= |src| {
        return Ok(None);
      }
      var t :- LexToken();
      r := Ok(Some(t));
    }
  }

  /** toks are the tokens of src up to where rest begins. */
  ghost predicate Continues(toks: seq<Token>, rest: string, src: string, json: JsonScanner) {
    match Tokens(rest, json)
    case Ok(ts) => Tokens(src, json) == Ok(toks + ts)
    case Err => Tokens(src, json).Err?
  }

  lemma ContinuesFirst(src: string, json: JsonScanner)
    ensures Continues([], src, src, json)
  {
    if Tokens(src, json).Ok? { assert [] + Tokens(src, json).value == Tokens(src, json).value; }
  }

  lemma ContinuesNext(toks: seq<Token>, rest: string, src: string, json: JsonScanner)
    requires Continues(toks, rest, src, json)
    ensures match NextOf(rest, json)
            case Err => Tokens(src, json).Err?
            case Ok(None) => Tokens(src, json) == Ok(toks)
            case Ok(Some((t, rest'))) => |rest'| < |rest| && Continues(toks + [t], rest', src, json)
  {
    TokensByNext(rest, json);
    assert toks + [] == toks;
    if NextOf(rest, json).Ok? && NextOf(rest, json).value.Some? {
      var (t, rest') := NextOf(rest, json).value.value;
      ContinuesPast(toks, t, rest, rest', src, json);
    }
  }

  lemma ContinuesPast(toks: seq<Token>, t: Token, rest: string, rest': string, src: string, json: JsonScanner)
    requires Continues(toks, rest, src, json)
    requires Tokens(rest, json) == if Tokens(rest', json).Err? then Err else Ok([t] + Tokens(rest', json).value)
    ensures Continues(toks + [t], rest', src, json)
  {
    if Tokens(rest', json).Ok? {
      assert toks + ([t] + Tokens(rest', json).value) == toks + [t] + Tokens(rest', json).value;
    }
  }

  /** All tokens of src, ending in a single end-of-input token. */
  method Tokenize(src: string, json: JsonScanner) returns (r: Result<seq<Token>>)
    ensures r == WithEnd(Tokens(src, json))
  {
    var l := new Cursor(src, json);
    var toks: seq<Token> := [];
    ContinuesFirst(src, json);
    while true
      invariant l.Valid() && l.json == json && Continues(toks, l.Rest(), src, json)
      decreases |l.Rest()|
    {
      ContinuesNext(toks, l.Rest(), src, json);
      var t :- l.NextToken();
      if t.None? {
        return Ok(toks + [EOF]);
      }
      toks := toks + [t.value];
    }
  }

  function WithEnd(r: Result<seq<Token>>): Result<seq<Token>> { if r.Err? then Err else Ok(r.value + [EOF]) }
}
