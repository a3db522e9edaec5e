/** client/client.go: the GET, DELETE and HISTORY text the client sends for a collection and a key. */
module Client {
  import opened Wrappers
  import opened Decimals
  import opened JsonStrings
  import opened Ast
  import opened Lexer
  import opened Grammar
  import opened Rendering
  import opened Strings
  import Parser

  /** Every character could stand in a bare identifier. */
  predicate IsBare(key: string) { forall i :: 0 <= i < |key| ==> IsIdentCont(key[i]) }

  /** quoteKeyIfNeeded: the whole key is quoted at the first character a bare one cannot hold. */
  method QuoteKeyIfNeeded(key: string) returns (text: string)
    ensures text == KeyText(key)
  {
    for i := 0 to |key|
      invariant forall j :: 0 <= j < i ==> IsIdentCont(key[j])
    {
      var r := key[i];
      var bare := r == '_' || r == '.' || 'a' <= r <= 'z' || 'A' <= r <= 'Z' || '0' <= r <= '9';
      if !bare {
        return Quote(key);
      }
    }
    text := key;
  }

  function KeyText(key: string): string { if IsBare(key) then key else Quote(key) }

  function Command(verb: string, collection: string, key: string): string {
    verb + " " + collection + "/" + KeyText(key)
  }

  /** The keys that survive: those that need quotes, one whole identifier, or one whole number. */
  predicate Survives(key: string) { !IsBare(key) || IsIdent(key) || IsNumber(key) }

  // ---- what a key's text lexes to ----

  predicate IsBareToken(t: Token) { t.kind == TIdent || t.kind == TNumber }

  lemma LexBare(s: string, json: JsonScanner)
    requires IsBare(s) && s != "" && Lex(s, json).Ok?
    ensures var (t, rest) := Lex(s, json).value; IsBareToken(t) && IsBare(rest) && |rest| < |s|
  {
    assert IsIdentCont(s[0]);
    LexConsumes(s, json);
    var rest := Lex(s, json).value.1;
    assert rest == s[|s| - |rest|..];
  }

  lemma {:induction false} BareTextHasBareTokens(s: string, json: JsonScanner)
    requires IsBare(s) && Tokens(s, json).Ok?
    ensures forall t :: t in Tokens(s, json).value ==> IsBareToken(t)
    ensures s != "" ==> Tokens(s, json).value != []
    decreases |s|
  {
    TokensStep(s, json);
    if s != "" {
      assert IsIdentCont(s[0]) && SkipSpace(s) == s;
      LexBare(s, json);
      BareTextHasBareTokens(Lex(s, json).value.1, json);
    }
  }

  /** A key that survives is one token, whose text is the key. */
  lemma SurvivingKeyTokens(key: string, json: JsonScanner) returns (kind: Kind)
    requires Survives(key)
    ensures kind == TIdent || kind == TNumber || kind == TString
    ensures Tokens(KeyText(key), json) == Ok([Token(kind, key)])
  {
    assert Tokens("", json) == Ok([]) by { TokensStep("", json); }
    assert KeyText(key) + "" == KeyText(key);
    if !IsBare(key) {
      kind := TString;
      LexQuotedText(key, "", json);
    } else if IsIdent(key) {
      kind := TIdent;
      LexIdentText(key, "", json);
    } else {
      kind := TNumber;
      LexNumberText(key, "", json);
    }
    assert [Token(kind, key)] + [] == [Token(kind, key)];
  }

  lemma LexLostKey(key: string, json: JsonScanner)
    requires IsBare(key) && key != "" && !IsIdent(key)
    ensures if IsDigit(key[0]) then Lex(key, json) == Take(key, NumberLen(key), TNumber) else Lex(key, json).Err?
    ensures SkipSpace(key) == key
  {
    assert IsIdentCont(key[0]);
  }

  /** A key that does not survive lexes to no token, to several bare ones, or not at all. */
  lemma LostKeyTokens(key: string, json: JsonScanner)
    requires !Survives(key) && Tokens(KeyText(key), json).Ok?
    ensures var ts := Tokens(KeyText(key), json).value; |ts| != 1 && forall t :: t in ts ==> IsBareToken(t)
  {
    BareTextHasBareTokens(key, json);
    TokensStep(key, json);
    if key != "" {
      LexLostKey(key, json);
      var rest := key[NumberLen(key)..];
      assert IsBare(rest) && rest != "";
      BareTextHasBareTokens(rest, json);
    }
  }

  // ---- what the statement parses to ----

  lemma LexSlash(rest: string, json: JsonScanner)
    ensures Tokens("/" + rest, json) == Prepend(Token(TSlash, "/"), Tokens(rest, json))
  {
    var x := "/" + rest;
    assert x[..1] == "/" && x[1..] == rest;
    TokensOfLexeme(x, Token(TSlash, "/"), rest, json);
  }

  lemma TokensOfCommand(verb: string, collection: string, key: string, json: JsonScanner)
    requires IsIdent(verb) && IsIdent(collection)
    ensures Tokens(Command(verb, collection, key), json)
         == Prepend(Token(TIdent, verb), Prepend(Token(TIdent, collection), Prepend(Token(TSlash, "/"),
               Tokens(KeyText(key), json))))
  {
    var path := collection + ("/" + KeyText(key));
    assert Command(verb, collection, key) == verb + (" " + path);
    LexIdentText(verb, " " + path, json);
    TokensAfterSpace(path, json);
    LexIdentText(collection, "/" + KeyText(key), json);
    LexSlash(KeyText(key), json);
  }

  /** After a path, bare tokens cannot complete any of the three statements. */
  lemma BareTokensFail(collection: string, more: seq<Token>, times: Times)
    requires |more| != 1 && forall t :: t in more ==> IsBareToken(t)
    ensures var ts := [Token(TIdent, collection), Token(TSlash, "/")] + more;
            GetRest(ts, times).Err? && DeleteRest(ts).Err? && HistoryRest(ts, times).Err?
  {
    var ts := [Token(TIdent, collection), Token(TSlash, "/")] + more;
    assert ts[1..] == [Token(TSlash, "/")] + more && ts[1..][1..] == more;
    if more != [] {
      var rest := more[1..];
      assert more[0] in more && Peek(more) == more[0];
      assert PathClause(ts) == Ok(((collection, more[0].text), rest));
      assert forall t :: t in rest ==> t in more;
      NoStringNoTime(rest, times);
    }
  }

  lemma NoStringNoTime(ts: seq<Token>, times: Times)
    requires ts != [] && forall t :: t in ts ==> IsBareToken(t)
    ensures OptAsOf(ts, times).Err? || OptAsOf(ts, times) == Ok((None, ts))
    ensures OptBetween(ts, times).Err? || OptBetween(ts, times) == Ok((None, ts))
  {
    assert forall i :: 0 <= i < |ts| ==> ts[i] in ts;
  }

  lemma OneKeyParses(collection: string, key: Token, times: Times)
    requires key.kind == TIdent || key.kind == TNumber || key.kind == TString
    ensures var ts := [Token(TIdent, collection), Token(TSlash, "/"), key];
            && GetRest(ts, times) == Ok(GetStmt(collection, key.text, None))
            && DeleteRest(ts) == Ok(DeleteStmt(collection, key.text))
            && HistoryRest(ts, times) == Ok(HistoryStmt(collection, key.text, None))
  {
    var ts := [Token(TIdent, collection), Token(TSlash, "/"), key];
    assert ts[1..] == [Token(TSlash, "/"), key] && ts[1..][1..] == [key] && [key][1..] == [];
    assert PathClause(ts) == Ok(((collection, key.text), []));
  }

  /** The statement each of the three verbs stands for. */
  function Meaning(verb: string, collection: string, key: string): Stmt {
    if verb == "GET" then GetStmt(collection, key, None)
    else if verb == "DELETE" then DeleteStmt(collection, key)
    else HistoryStmt(collection, key, None)
  }

  lemma VerbRest(verb: string, rest: seq<Token>, times: Times)
    requires verb == "GET" || verb == "DELETE" || verb == "HISTORY"
    ensures IsIdent(verb) && Upper(verb) == verb
    ensures StatementFor(verb, rest, times) ==
            if verb == "GET" then GetRest(rest, times) else if verb == "DELETE" then DeleteRest(rest)
                  else HistoryRest(rest, times)
  {
  }

  function CommandTokens(verb: string, collection: string, more: seq<Token>): seq<Token> {
    [Token(TIdent, verb)] + ([Token(TIdent, collection), Token(TSlash, "/")] + more)
  }

  lemma TokensOfCommandAre(verb: string, collection: string, key: string, json: JsonScanner)
    requires IsIdent(verb) && IsIdent(collection)
    ensures var k := Tokens(KeyText(key), json);
            Tokens(Command(verb, collection, key), json) == if k.Err? then Err
                  else Ok(CommandTokens(verb, collection, k.value))
  {
    TokensOfCommand(verb, collection, key, json);
    ThreeTokens(Token(TIdent, verb), Token(TIdent, collection), Token(TSlash, "/"), Tokens(KeyText(key), json));
  }

  lemma ThreeTokens(a: Token, b: Token, c: Token, r: Result<seq<Token>>)
    ensures Prepend(a, Prepend(b, Prepend(c, r))) == if r.Err? then Err else Ok([a] + ([b, c] + r.value))
  {
    if r.Ok? { assert [a] + ([b] + ([c] + r.value)) == [a] + ([b, c] + r.value); }
  }

  lemma StatementOfCommand(verb: string, collection: string, more: seq<Token>, times: Times)
    requires verb == "GET" || verb == "DELETE" || verb == "HISTORY"
    ensures |more| == 1 && (more[0].kind == TIdent || more[0].kind == TNumber || more[0].kind == TString) ==>
              Statement(CommandTokens(verb, collection, more), times) == Ok(Meaning(verb, collection, more[0].text))
    ensures |more| != 1 && (forall t :: t in more ==> IsBareToken(t)) ==>
          Statement(CommandTokens(verb, collection, more), times).Err?
  {
    var rest := [Token(TIdent, collection), Token(TSlash, "/")] + more;
    assert CommandTokens(verb, collection, more)[1..] == rest;
    VerbRest(verb, rest, times);
    if |more| == 1 {
      assert rest == [Token(TIdent, collection), Token(TSlash, "/"), more[0]];
      if more[0].kind == TIdent || more[0].kind == TNumber || more[0].kind == TString {
        OneKeyParses(collection, more[0], times);
      }
    } else if forall t :: t in more ==> IsBareToken(t) {
      BareTokensFail(collection, more, times);
    }
  }

  /** For every identifier collection and every key, the text the client builds either parses to exactly that collection
      and key or fails to parse, and it parses if and only if the key survives. */
  lemma CommandsReachTheirKey(verb: string, collection: string, key: string, json: JsonScanner, times: Times)
    requires (verb == "GET" || verb == "DELETE" || verb == "HISTORY") && IsIdent(collection)
    ensures ParseText(Command(verb, collection, key), json, times)
         == if Survives(key) then Ok(Meaning(verb, collection, key)) else Err
  {
    VerbRest(verb, [], times);
    TokensOfCommandAre(verb, collection, key, json);
    if Survives(key) {
      var kind := SurvivingKeyTokens(key, json);
      StatementOfCommand(verb, collection, [Token(kind, key)], times);
    } else if Tokens(KeyText(key), json).Ok? {
      LostKeyTokens(key, json);
      StatementOfCommand(verb, collection, Tokens(KeyText(key), json).value, times);
    }
  }

  // ---- the text as the server takes it, as a batch ----

  lemma {:induction false} EscapeHasNoNewline(s: string)
    ensures '\n' !in Escape(s)
  {
    if s != "" {
      EscapeHasNoNewline(s[1..]);
      EscapeCharHasNoNewline(s[0]);
      assert Escape(s) == EscapeChar(s[0]) + Escape(s[1..]);
    }
  }

  lemma EscapeCharHasNoNewline(c: char)
    ensures '\n' !in EscapeChar(c)
  {
  }

  lemma KeyTextIsOneWord(key: string)
    ensures '\n' !in KeyText(key)
    ensures var t := KeyText(key); t == "" || (t[|t| - 1] == '"' || IsIdentCont(t[|t| - 1]))
  {
    EscapeHasNoNewline(key);
    if IsBare(key) {
      assert forall i :: 0 <= i < |key| ==> IsIdentCont(key[i]);
    }
  }

  /** The text is one line, with no white space around it. */
  lemma CommandIsOneLine(verb: string, collection: string, key: string)
    requires IsIdent(verb) && IsIdent(collection)
    ensures '\n' !in Command(verb, collection, key)
    ensures Parser.TrimSpace(Command(verb, collection, key)) == Command(verb, collection, key)
  {
    KeyTextIsOneWord(key);
    var cmd, t := Command(verb, collection, key), KeyText(key);
    assert cmd == verb + " " + collection + "/" + t;
    assert cmd[0] == verb[0] && IsIdentStart(verb[0]);
    assert cmd[|cmd| - 1] == if t == "" then '/' else t[|t| - 1];
    assert !Parser.IsUnicodeSpace(cmd[0]) && !Parser.IsUnicodeSpace(cmd[|cmd| - 1]);
    assert forall c :: c in verb || c in collection ==> c != '\n';
  }

  /** The server parses what it receives as a batch, and a command is a batch of exactly the one statement it means, or
      is rejected. */
  lemma CommandIsOneStatement(verb: string, collection: string, key: string, json: JsonScanner, times: Times)
    requires (verb == "GET" || verb == "DELETE" || verb == "HISTORY") && IsIdent(collection)
    ensures Parser.BatchOf(Command(verb, collection, key), json, times)
         == if Survives(key) then Ok([Meaning(verb, collection, key)]) else Err
  {
    VerbRest(verb, [], times);
    var cmd := Command(verb, collection, key);
    CommandIsOneLine(verb, collection, key);
    SplitWhole(cmd, '\n');
    CommandsReachTheirKey(verb, collection, key, json, times);
    OneLineBatch(cmd, Parser.LineParserFor(json, times));
    assert cmd != "";
  }

  lemma OneLineBatch(line: string, parse: Parser.LineParser)
    ensures Parser.Batch([line], parse) == parse(line)
  {
    assert [line][..0] == [];
    if parse(line).Ok? { assert [] + parse(line).value == parse(line).value; }
  }
}
