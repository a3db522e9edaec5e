/** Statements as people write them, and what they parse to: one for each verb, and each keyword at least once. */
module Examples {
  import opened Wrappers
  import opened Decimals
  import opened Ast
  import opened Lexer
  import opened Grammar
  import opened Rendering
  import opened Spelling
  import opened Accepting
  import Graph
  import Instants
  import Utf8

  function Word(s: string): Token { Token(TIdent, s) }

  function Text(s: string): Token { Token(TString, s) }

  const SLASH := Token(TSlash, "/")
  const COMMA := Token(TComma, ",")
  const MINUS := Token(TMinus, "-")
  const ARROW := Token(TArrow, "->")
  const OPEN := Token(TLBracket, "[")
  const CLOSE := Token(TRBracket, "]")

  // ---- symbols ----

  lemma OneSymbol(s: string, kind: Kind, json: JsonScanner)
    requires 1 <= |s| <= 2 && s[0] != '"' && !IsSpace(s[0]) && Lex(s, json) == Take(s, |s|, kind)
    ensures Tokens(s, json) == Ok([Token(kind, s)])
  {
    assert s[..|s|] == s && s[|s|..] == "";
    TokensOfLexeme(s, Token(kind, s), "", json);
    TokensStep("", json);
    assert [Token(kind, s)] + [] == [Token(kind, s)];
  }

  /** Each symbol is one token of its own kind. */
  lemma SymbolsAreTokens(json: JsonScanner)
    ensures Tokens("/", json) == Ok([SLASH]) && Tokens(",", json) == Ok([COMMA])
    ensures Tokens("-", json) == Ok([MINUS]) && Tokens("->", json) == Ok([ARROW])
    ensures Tokens("[", json) == Ok([OPEN]) && Tokens("]", json) == Ok([CLOSE])
  {
    OneSymbol("/", TSlash, json);
    OneSymbol(",", TComma, json);
    OneSymbol("-", TMinus, json);
    OneSymbol("->", TArrow, json);
    OneSymbol("[", TLBracket, json);
    OneSymbol("]", TRBracket, json);
  }

  lemma ComparisonsAreTokens(json: JsonScanner)
    ensures Tokens("=", json) == Ok([Token(TEq, "=")]) && Tokens("!=", json) == Ok([Token(TNeq, "!=")])
    ensures Tokens("<", json) == Ok([Token(TLt, "<")]) && Tokens("<=", json) == Ok([Token(TLte, "<=")])
    ensures Tokens(">", json) == Ok([Token(TGt, ">")]) && Tokens(">=", json) == Ok([Token(TGte, ">=")])
  {
    OneSymbol("=", TEq, json);
    OneSymbol("!=", TNeq, json);
    OneSymbol("<", TLt, json);
    OneSymbol("<=", TLte, json);
    OneSymbol(">", TGt, json);
    OneSymbol(">=", TGte, json);
  }

  /** White space, and what a name starts with and goes on with, by character code. */
  lemma Characters(c: char)
    ensures IsSpace(c) <==> c as int == 32 || c as int == 9 || c as int == 10 || c as int == 13
    ensures IsIdentStart(c) <==> 65 <= c as int <= 90 || 97 <= c as int <= 122 || c as int == 95
    ensures IsIdentCont(c) <==> IsIdentStart(c) || IsDigit(c) || c as int == 46
    ensures IsDigit(c) <==> 48 <= c as int <= 57
  {
  }

  // ---- clauses ----

  const OLDER: seq<Token> := [Word("age"), Token(TGt, ">"), Token(TNumber, "21")]
  const NAMED: seq<Token> := [Word("name"), Token(TNeq, "!="), Text("Ada")]
  const WHERE: seq<Token> := [Word("where")] + (OLDER + ([Word("and")] + NAMED))
  const FILTER: Expr := [Cmp("age", Gt, NumValue("21")), Cmp("name", Neq, StrValue("Ada"))]
  const ORDER: seq<Token> := [Word("order"), Word("by"), Word("age"), Word("desc")]
  const LIMIT: seq<Token> := [Word("limit"), Token(TNumber, "10")]
  const OFFSET: seq<Token> := [Word("offset"), Token(TNumber, "20")]
  const ADA: seq<Token> := [Word("users"), SLASH, Token(TNumber, "1")]
  const BOB: seq<Token> := [Word("users"), SLASH, Text("b-2")]
  const KNOWS: seq<Token> := [MINUS, Word("knows"), ARROW]
  const TWO_TYPES: seq<Token> := [MINUS, OPEN, Word("knows"), COMMA, Word("blocks"), CLOSE, ARROW]

  function AsOf(t: string): seq<Token> { [Word("as"), Word("of"), Text(t)] }

  lemma NumberFits(lexeme: string, z: int)
    requires lexeme == IntLexeme(z) && -1_000_000 < z < 1_000_000
    ensures FitsValue(NumValue(lexeme))
  {
    SmallNumbersFit(z);
  }

  lemma TermsOfWhere()
    ensures SpellsTerm(OLDER, FILTER[0]) && SpellsTerm(NAMED, FILTER[1])
  {
    assert OLDER[2..] == [Token(TNumber, "21")] && NAMED[2..] == [Text("Ada")];
  }

  lemma TwoTerms(a: seq<Token>, and: Token, b: seq<Token>, e: Expr)
    requires |e| == 2 && SpellsTerm(a, e[0]) && SpellsTerm(b, e[1]) && IsWord(and, "AND")
    ensures SpellsExpr(a + ([and] + b), e)
  {
    var ts := a + ([and] + b);
    assert ts[..|a|] == a && ts[|a|] == and && ts[|a| + 1..] == b && e[1..] == [e[1]];
    assert SpellsExpr(b, e[1..]);
  }

  /** where age > 21 and name != "Ada" */
  lemma WhereIsSpelled()
    ensures SpellsWhere(WHERE, Some(FILTER)) && FitsWhere(Some(FILTER))
  {
    TermsOfWhere();
    assert IsWord(Word("and"), "AND") && IsWord(Word("where"), "WHERE");
    TwoTerms(OLDER, Word("and"), NAMED, FILTER);
    WhereOf(Word("where"), OLDER + ([Word("and")] + NAMED), FILTER);
    FilterFits();
  }

  lemma WhereOf(where: Token, ts: seq<Token>, e: Expr)
    requires IsWord(where, "WHERE") && SpellsExpr(ts, e)
    ensures SpellsWhere([where] + ts, Some(e))
  {
    assert ([where] + ts)[1..] == ts;
  }

  lemma FilterFits()
    ensures FitsWhere(Some(FILTER))
  {
    NumberFits("21", 21);
  }

  /** The other literals: -2.5, true, FALSE, null and an empty array. */
  lemma ValuesAreSpelled()
    ensures SpellsValue([Token(TNumber, "-2.5")], NumValue("-2.5")) && SpellsValue([OPEN, CLOSE], ArrValue([]))
    ensures SpellsValue([Word("true")], BoolValue(true)) && SpellsValue([Word("FALSE")], BoolValue(false))
    ensures SpellsValue([Word("null")], NullValue)
  {
  }

  /** tag in ["a", "b"], and tag contains "a" */
  lemma ListsAreSpelled()
    ensures SpellsTerm([Word("tag"), Word("in"), OPEN, Text("a"), COMMA, Text("b"), CLOSE],
                       Cmp("tag", In, ArrValue([StrValue("a"), StrValue("b")])))
    ensures SpellsTerm([Word("tag"), Word("contains"), Text("a")], Cmp("tag", Contains, StrValue("a")))
  {
    var ts, items := [OPEN, Text("a"), COMMA, Text("b"), CLOSE], [StrValue("a"), StrValue("b")];
    TwoItems(Text("a"), COMMA, Text("b"), items);
    assert ts[1..|ts| - 1] == [Text("a")] + ([COMMA] + [Text("b")]);
    assert SpellsValue(ts, ArrValue(items));
    assert [Word("tag"), Word("in"), OPEN, Text("a"), COMMA, Text("b"), CLOSE][2..] == ts;
    assert [Word("tag"), Word("contains"), Text("a")][2..] == [Text("a")];
  }

  lemma TwoItems(a: Token, comma: Token, b: Token, items: seq<Value>)
    requires |items| == 2 && SpellsValue([a], items[0]) && SpellsValue([b], items[1]) && comma.kind == TComma
    ensures SpellsItems([a] + ([comma] + [b]), items)
  {
    var ts := [a] + ([comma] + [b]);
    assert ts[..1] == [a] && ts[1] == comma && ts[2..] == [b] && items[1..] == [items[1]];
    assert SpellsItems([b], items[1..]);
  }

  /** order by age desc */
  lemma OrderIsSpelled()
    ensures SpellsOrder(ORDER, "age", true)
  {
  }

  lemma DigitsOf(text: string, n: nat)
    requires |text| == 2 && IsDigit(text[0]) && IsDigit(text[1])
    requires n == (text[0] as int - '0' as int) * 10 + (text[1] as int - '0' as int)
    ensures SpellsNumber(text, n)
  {
    assert text[..1] == [text[0]] && [text[0]][..0] == [];
    assert DigitsValue(text[..1]) == text[0] as int - '0' as int;
  }

  /** limit 10 offset 20 */
  lemma PageIsSpelled()
    ensures SpellsCount(LIMIT, "LIMIT", 10) && SpellsCount(OFFSET, "OFFSET", 20)
  {
    DigitsOf("10", 10);
    DigitsOf("20", 20);
  }

  // ---- statements ----

  lemma Reads(verb: Token, body: seq<Token>, s: Stmt, times: Times)
    requires IsWord(verb, VerbWord(s)) && SpellsBody(body, s) && Printable(s, times)
    ensures Statement([verb] + body, times) == Ok(s)
  {
    assert ([verb] + body)[1..] == body;
    SpellingsAreAccepted([verb] + body, s, times);
  }

  lemma FindReads(verb: Token, a: seq<Token>, b: seq<Token>, x: seq<Token>, y: seq<Token>, z: seq<Token>,
                  w: seq<Token>, c: string, filter: Expr, t: string, field: string, limit: nat, offset: nat,
                  times: Times)
    requires IsWord(verb, "FIND") && SpellsName(a, c) && SpellsWhere(b, Some(filter)) && SpellsAsOf(x, Some(t))
    requires SpellsOrder(y, field, true) && SpellsCount(z, "LIMIT", limit) && SpellsCount(w, "OFFSET", offset)
    requires FitsWhere(Some(filter)) && times(t) && limit <= MAX_INT && offset <= MAX_INT
    ensures Statement([verb] + (a + (b + (x + (y + (z + w))))), times)
         == Ok(FindStmt(c, Some(filter), Some(t), field, true, limit, offset))
  {
    Reads(verb, a + (b + (x + (y + (z + w)))), FindStmt(c, Some(filter), Some(t), field, true, limit, offset), times);
  }

  lemma SearchReads(verb: Token, a: seq<Token>, b: seq<Token>, z: seq<Token>, w: seq<Token>, c: string, q: string,
                    filter: Expr, limit: nat, offset: nat, times: Times)
    requires IsWord(verb, "SEARCH") && SpellsNear(a, c, q) && SpellsWhere(b, Some(filter))
    requires SpellsCount(z, "LIMIT", limit) && SpellsCount(w, "OFFSET", offset)
    requires FitsWhere(Some(filter)) && limit <= MAX_INT && offset <= MAX_INT
    ensures Statement([verb] + (a + (b + (z + w))), times) == Ok(SearchStmt(c, q, Some(filter), limit, offset))
  {
    Reads(verb, a + (b + (z + w)), SearchStmt(c, q, Some(filter), limit, offset), times);
  }

  lemma RelatedReads(verb: Token, a: seq<Token>, b: seq<Token>, x: seq<Token>, y: seq<Token>, z: seq<Token>,
                     w: seq<Token>, c: string, k: string, types: seq<string>, dir: Graph.Direction, t: Option<string>,
                     limit: nat, offset: nat, times: Times)
    requires IsWord(verb, "RELATED") && SpellsPath(a, (c, k)) && SpellsEdges(b, types) && SpellsDirection(x, dir)
    requires SpellsAsOf(y, t) && SpellsCount(z, "LIMIT", limit) && SpellsCount(w, "OFFSET", offset)
    requires OptTime(t, times) && limit <= MAX_INT && offset <= MAX_INT
    ensures Statement([verb] + (a + (b + (x + (y + (z + w))))), times)
         == Ok(RelatedStmt(c, k, types, dir, t, limit, offset))
  {
    Reads(verb, a + (b + (x + (y + (z + w)))), RelatedStmt(c, k, types, dir, t, limit, offset), times);
  }

  /** find users <where> as of "t" order by age desc limit 10 offset 20, for any WHERE, such as the one above. */
  lemma FindExample(where: seq<Token>, filter: Expr, t: string, times: Times)
    requires SpellsWhere(where, Some(filter)) && FitsWhere(Some(filter)) && times(t)
    ensures Statement([Word("find")] + ([Word("users")] + (where + (AsOf(t) + (ORDER + (LIMIT + OFFSET))))), times)
         == Ok(FindStmt("users", Some(filter), Some(t), "age", true, 10, 20))
  {
    OrderIsSpelled();
    PageIsSpelled();
    FindReads(Word("find"), [Word("users")], where, AsOf(t), ORDER, LIMIT, OFFSET, "users", filter, t, "age", 10, 20,
              times);
  }

  /** search users near "q" <where> limit 10 offset 20 */
  lemma SearchExample(where: seq<Token>, filter: Expr, q: string, times: Times)
    requires SpellsWhere(where, Some(filter)) && FitsWhere(Some(filter))
    ensures Statement([Word("search")] + ([Word("users"), Word("near"), Text(q)] + (where + (LIMIT + OFFSET))), times)
         == Ok(SearchStmt("users", q, Some(filter), 10, 20))
  {
    PageIsSpelled();
    SearchReads(Word("search"), [Word("users"), Word("near"), Text(q)], where, LIMIT, OFFSET, "users", q, filter, 10,
                20, times);
  }

  /** related users/1 -[knows,blocks]-> direction both as of "t" limit 10 offset 20 */
  lemma RelatedExample(t: string, times: Times)
    requires times(t)
    ensures Statement([Word("related")] + (ADA + (TWO_TYPES + ([Word("direction"), Word("both")]
                      + (AsOf(t) + (LIMIT + OFFSET))))), times)
         == Ok(RelatedStmt("users", "1", ["knows", "blocks"], Graph.Both, Some(t), 10, 20))
  {
    TypesAreSpelled();
    PageIsSpelled();
    RelatedReads(Word("related"), ADA, TWO_TYPES, [Word("direction"), Word("both")], AsOf(t), LIMIT, OFFSET,
                 "users", "1", ["knows", "blocks"], Graph.Both, Some(t), 10, 20, times);
  }

  lemma TypesAreSpelled()
    ensures SpellsEdges(TWO_TYPES, ["knows", "blocks"])
  {
    var inner := TWO_TYPES[2..5];
    assert inner[2..] == [Word("blocks")] && ["knows", "blocks"][1..] == ["blocks"];
  }

  /** related users/1 -knows-> direction in, and related users/1 */
  lemma RelatedInExample(times: Times)
    ensures Statement([Word("related")] + (ADA + (KNOWS + [Word("direction"), Word("in")])), times)
         == Ok(RelatedStmt("users", "1", ["knows"], Graph.In, None, 0, 0))
    ensures Statement([Word("related")] + ADA, times) == Ok(RelatedStmt("users", "1", [], Graph.Out, None, 0, 0))
  {
    var dir := [Word("direction"), Word("in")];
    assert SpellsEdge(KNOWS, "knows");
    NothingAfter(dir);
    RelatedReads(Word("related"), ADA, KNOWS, dir, [], [], [], "users", "1", ["knows"], Graph.In, None, 0, 0, times);
    NothingAfter([]);
    NothingAfter(ADA);
    RelatedReads(Word("related"), ADA, [], [], [], [], [], "users", "1", [], Graph.Out, None, 0, 0, times);
  }

  lemma NothingAfter(a: seq<Token>)
    ensures a + ([] + ([] + [])) == a && a + [] == a
  {
  }

  /** relate users/1 -knows-> users/"b-2" {...}, and the same with unrelate */
  lemma RelateExample(props: string, times: Times)
    ensures Statement([Word("relate")] + (ADA + (KNOWS + (BOB + [Token(TJson, props)]))), times)
         == Ok(RelateStmt(("users", "1"), "knows", ("users", "b-2"), Some(props)))
    ensures Statement([Word("unrelate")] + (ADA + (KNOWS + BOB)), times)
         == Ok(UnrelateStmt(("users", "1"), "knows", ("users", "b-2")))
  {
    assert SpellsEdge(KNOWS, "knows") && SpellsPath(ADA, ("users", "1")) && SpellsPath(BOB, ("users", "b-2"));
    assert SpellsJson([Token(TJson, props)], Some(props));
    Reads(Word("relate"), ADA + (KNOWS + (BOB + [Token(TJson, props)])),
          RelateStmt(("users", "1"), "knows", ("users", "b-2"), Some(props)), times);
    Reads(Word("unrelate"), ADA + (KNOWS + BOB), UnrelateStmt(("users", "1"), "knows", ("users", "b-2")), times);
  }

  /** get users/1 as of "t" */
  lemma GetExample(t: string, times: Times)
    requires times(t)
    ensures Statement([Word("get")] + (ADA + AsOf(t)), times) == Ok(GetStmt("users", "1", Some(t)))
  {
    assert SpellsPath(ADA, ("users", "1"));
    Reads(Word("get"), ADA + AsOf(t), GetStmt("users", "1", Some(t)), times);
  }

  /** delete users/1 */
  lemma DeleteExample(times: Times)
    ensures Statement([Word("delete")] + ADA, times) == Ok(DeleteStmt("users", "1"))
  {
    assert SpellsPath(ADA, ("users", "1"));
    Reads(Word("delete"), ADA, DeleteStmt("users", "1"), times);
  }

  /** put users/1 {...} at "t" */
  lemma PutExample(json: string, t: string, times: Times)
    requires times(t)
    ensures Statement([Word("put")] + (ADA + ([Token(TJson, json)] + [Word("at"), Text(t)])), times)
         == Ok(PutStmt("users", "1", json, Some(t)))
  {
    assert SpellsPath(ADA, ("users", "1")) && SpellsJson([Token(TJson, json)], Some(json));
    assert SpellsTimeAfter([Word("at"), Text(t)], "AT", Some(t));
    Reads(Word("put"), ADA + ([Token(TJson, json)] + [Word("at"), Text(t)]), PutStmt("users", "1", json, Some(t)),
          times);
  }

  /** history users/1 between "t" and "u" */
  lemma HistoryExample(t: string, u: string, times: Times)
    requires times(t) && times(u)
    ensures Statement([Word("history")] + (ADA + [Word("between"), Text(t), Word("and"), Text(u)]), times)
         == Ok(HistoryStmt("users", "1", Some((t, u))))
  {
    var between := [Word("between"), Text(t), Word("and"), Text(u)];
    assert SpellsPath(ADA, ("users", "1")) && SpellsBetween(between, Some((t, u)));
    Reads(Word("history"), ADA + between, HistoryStmt("users", "1", Some((t, u))), times);
  }

  /** purge users before "t", and edgetypes */
  lemma PurgeExample(t: string, times: Times)
    requires times(t)
    ensures Statement([Word("purge")] + [Word("users"), Word("before"), Text(t)], times) == Ok(PurgeStmt("users", t))
    ensures Statement([Word("edgetypes")] + [], times) == Ok(EdgeTypesStmt)
  {
    Reads(Word("purge"), [Word("users"), Word("before"), Text(t)], PurgeStmt("users", t), times);
    Reads(Word("edgetypes"), [], EdgeTypesStmt, times);
  }

  // ---- times and bytes ----

  /** The months have their lengths, and Unix time starts 62_135_596_800 seconds after Go's zero time. */
  lemma CalendarExample(y: int)
    ensures forall m :: 1 <= m <= 12 ==>
              Instants.DaysIn(y, m) == if m == 2 && y % 4 == 0 && (y % 100 != 0 || y % 400 == 0) then 29
                                       else [31, 28, 31, 30, 31, 30, 31, 31, 30, 31, 30, 31][m - 1]
    ensures Instants.Nanos(Instants.Civil(1970, 1, 1, 0, 0, 0, 0)) - Instants.ZERO == 62_135_596_800_000_000_000
  {
    Instants.YearStartAt(1970);
  }

  /** The characters of RFC 3629, section 7, in one to four bytes. */
  lemma Utf8Example()
    ensures Utf8.EncodeChar('A') == [0x41] && Utf8.EncodeChar('\U{391}') == [0xCE, 0x91]
    ensures Utf8.EncodeChar('\U{2262}') == [0xE2, 0x89, 0xA2]
    ensures Utf8.EncodeChar('\U{233B4}') == [0xF0, 0xA3, 0x8E, 0xB4]
  {
  }

  /** Lengths are written with the high byte first. */
  lemma LengthExample()
    ensures Graph.BigEndian32(0x0102_0304) == [1, 2, 3, 4]
  {
  }
}
