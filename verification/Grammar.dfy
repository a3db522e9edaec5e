/** The TQL grammar over token lists without their end marker: what internal/tql/parser.go accepts, as functions from
    the tokens that are left to a result and the tokens left after it. */
module Grammar {
  import opened Wrappers
  import opened Decimals
  import opened Ast
  import opened Lexer
  import Graph

  type Parsed<T> = Result<(T, seq<Token>)>

  /** Which quoted texts are time literals (RFC 3339 or a date). */
  type Times = string -> bool

  function UpperChar(c: char): char { if 'a' <= c <= 'z' then c - 'a' + 'A' else c }

  /** Identifiers are ASCII, so upper-casing is enough to fold case. */
  function Upper(s: string): (u: string)
    ensures |u| == |s| && forall i :: 0 <= i < |s| ==> u[i] == UpperChar(s[i])
  {
    seq(|s|, i requires 0 <= i < |s| => UpperChar(s[i]))
  }

  /** One letter in either case: the codes of the two cases are 32 apart. */
  predicate SameLetter(a: char, b: char) {
    a == b || ('A' <= a <= 'Z' && b as int == a as int + 32) || ('A' <= b <= 'Z' && a as int == b as int + 32)
  }

  /** strings.EqualFold, on ASCII. */
  predicate SameWord(s: string, t: string) { |s| == |t| && forall i :: 0 <= i < |s| ==> SameLetter(s[i], t[i]) }

  lemma SameLetterIff(a: char, b: char)
    ensures SameLetter(a, b) <==> UpperChar(a) == UpperChar(b)
  {
  }

  lemma SameWordIff(s: string, t: string)
    ensures SameWord(s, t) <==> Upper(s) == Upper(t)
  {
    if |s| == |t| {
      forall i | 0 <= i < |s| ensures SameLetter(s[i], t[i]) <==> Upper(s)[i] == Upper(t)[i] {
        SameLetterIff(s[i], t[i]);
      }
    }
  }

  /** No small letters, as in the keywords the parser compares with. */
  predicate InCapitals(kw: string) { forall i :: 0 <= i < |kw| ==> !('a' <= kw[i] <= 'z') }

  /** An upper-cased word is a keyword exactly if it is that word in any case. */
  lemma FoldsToKeyword(s: string, kw: string)
    requires InCapitals(kw)
    ensures Upper(kw) == kw && (Upper(s) == kw <==> SameWord(s, kw))
  {
    assert Upper(kw) == kw;
    SameWordIff(s, kw);
  }

  // ---- cursor helpers ----

  function Peek(ts: seq<Token>): Token { if ts == [] then EOF else ts[0] }

  predicate AtKeyword(ts: seq<Token>, kw: string) { Peek(ts).kind == TIdent && Upper(Peek(ts).text) == kw }

  function Keyword(ts: seq<Token>, kw: string): (r: Parsed<()>)
    ensures r.Ok? ==> |r.value.1| < |ts|
  {
    if AtKeyword(ts, kw) then Ok(((), ts[1..])) else Err
  }

  /** expect, for a kind other than the end marker. */
  function Expect(ts: seq<Token>, kind: Kind): (r: Parsed<string>)
    ensures r.Ok? ==> |r.value.1| < |ts|
  {
    if ts != [] && ts[0].kind == kind then Ok((ts[0].text, ts[1..])) else Err
  }

  function End<T>(v: T, ts: seq<Token>): Result<T> { if ts == [] then Ok(v) else Err }

  // ---- clauses ----

  function PathClause(ts: seq<Token>): (r: Parsed<(string, string)>)
    ensures r.Ok? ==> |r.value.1| < |ts|
  {
    var (c, ts1) :- Expect(ts, TIdent);
    var (_, ts2) :- Expect(ts1, TSlash);
    if Peek(ts2).kind == TIdent || Peek(ts2).kind == TNumber || Peek(ts2).kind == TString
    then Ok(((c, ts2[0].text), ts2[1..])) else Err
  }

  function TimeClause(ts: seq<Token>, times: Times): Parsed<string> {
    var (t, ts1) :- Expect(ts, TString);
    if times(t) then Ok((t, ts1)) else Err
  }

  function AsOfClause(ts: seq<Token>, times: Times): Parsed<string> {
    var (_, ts1) :- Keyword(ts, "AS");
    var (_, ts2) :- Keyword(ts1, "OF");
    TimeClause(ts2, times)
  }

  function OptAsOf(ts: seq<Token>, times: Times): Parsed<Option<string>> {
    if !AtKeyword(ts, "AS") then Ok((None, ts)) else
      var (t, ts1) :- AsOfClause(ts, times);
      Ok((Some(t), ts1))
  }

  const MAX_INT := 0x7FFF_FFFF_FFFF_FFFF

  /** strconv.Atoi, then the check for a negative value. */
  function Count(lexeme: string): Option<nat> {
    var digits := if lexeme != "" && lexeme[0] == '-' then lexeme[1..] else lexeme;
    if digits == "" || !AllDigits(digits) then None
    else
      DigitsAreBounded(digits);
      var n := DigitsValue(digits);
      if n > MAX_INT || (lexeme[0] == '-' && n > 0) then None else Some(n)
  }

  /** LIMIT n or OFFSET n, if the keyword is there. */
  function OptCount(ts: seq<Token>, kw: string): Parsed<nat> {
    if !AtKeyword(ts, kw) then Ok((0, ts)) else
      var (n, ts1) :- Expect(ts[1..], TNumber);
      if Count(n).None? then Err else Ok((Count(n).value, ts1))
  }

  function CmpOpOf(t: Token): Option<CmpOp> {
    match t.kind
    case TEq => Some(Eq)
    case TNeq => Some(Neq)
    case TLt => Some(Lt)
    case TLte => Some(Lte)
    case TGt => Some(Gt)
    case TGte => Some(Gte)
    case TIdent => if Upper(t.text) == "IN" then Some(CmpOp.In)
          else if Upper(t.text) == "CONTAINS" then Some(Contains) else None
    case _ => None
  }

  function CmpOpClause(ts: seq<Token>): (r: Parsed<CmpOp>)
    ensures r.Ok? ==> |r.value.1| < |ts|
  {
    if ts == [] || CmpOpOf(ts[0]).None? then Err else Ok((CmpOpOf(ts[0]).value, ts[1..]))
  }

  function WordValue(word: string): Option<Value> {
    if Upper(word) == "TRUE" then Some(BoolValue(true))
    else if Upper(word) == "FALSE" then Some(BoolValue(false))
    else if Upper(word) == "NULL" then Some(NullValue)
    else None
  }

  function ValueClause(ts: seq<Token>): (r: Parsed<Value>)
    ensures r.Ok? ==> |r.value.1| < |ts|
    decreases |ts|, 0
  {
    var t := Peek(ts);
    match t.kind
    case TNumber => if FitsFloat(t.text) then Ok((NumValue(t.text), ts[1..])) else Err
    case TString => Ok((StrValue(t.text), ts[1..]))
    case TIdent => if WordValue(t.text).None? then Err else Ok((WordValue(t.text).value, ts[1..]))
    case TLBracket =>
      if Peek(ts[1..]).kind == TRBracket then Ok((ArrValue([]), ts[2..]))
      else
        var (vs, ts1) :- Items(ts[1..]);
        var (_, ts2) :- Expect(ts1, TRBracket);
        Ok((ArrValue(vs), ts2))
    case _ => Err
  }

  /** One or more values with commas between them. */
  function Items(ts: seq<Token>): (r: Parsed<seq<Value>>)
    ensures r.Ok? ==> |r.value.1| < |ts|
    decreases |ts|, 1
  {
    var (v, ts1) :- ValueClause(ts);
    if Peek(ts1).kind != TComma then Ok(([v], ts1)) else
      var (vs, ts2) :- Items(ts1[1..]);
      Ok(([v] + vs, ts2))
  }

  function ExprClause(ts: seq<Token>): (r: Parsed<Expr>)
    ensures r.Ok? ==> |r.value.1| < |ts| && r.value.0 != []
    decreases |ts|
  {
    var (f, ts1) :- Expect(ts, TIdent);
    var (op, ts2) :- CmpOpClause(ts1);
    var (v, ts3) :- ValueClause(ts2);
    if !AtKeyword(ts3, "AND") then Ok(([Cmp(f, op, v)], ts3)) else
      var (rest, ts4) :- ExprClause(ts3[1..]);
      Ok(([Cmp(f, op, v)] + rest, ts4))
  }

  function OptWhere(ts: seq<Token>): Parsed<Option<Expr>> {
    if !AtKeyword(ts, "WHERE") then Ok((None, ts)) else
      var (e, ts1) :- ExprClause(ts[1..]);
      Ok((Some(e), ts1))
  }

  function OptOrder(ts: seq<Token>): Parsed<(string, bool)> {
    if !AtKeyword(ts, "ORDER") then Ok((("", false), ts)) else
      var (_, ts1) :- Keyword(ts[1..], "BY");
      var (f, ts2) :- Expect(ts1, TIdent);
      if AtKeyword(ts2, "DESC") then Ok(((f, true), ts2[1..]))
      else if AtKeyword(ts2, "ASC") then Ok(((f, false), ts2[1..]))
      else Ok(((f, false), ts2))
  }

  function EdgeClause(ts: seq<Token>): Parsed<string> {
    var (_, ts1) :- Expect(ts, TMinus);
    var (t, ts2) :- Expect(ts1, TIdent);
    var (_, ts3) :- Expect(ts2, TArrow);
    Ok((t, ts3))
  }

  /** One or more edge types with commas between them. */
  function Types(ts: seq<Token>): (r: Parsed<seq<string>>)
    ensures r.Ok? ==> |r.value.1| < |ts| && r.value.0 != []
    decreases |ts|
  {
    var (t, ts1) :- Expect(ts, TIdent);
    if Peek(ts1).kind != TComma then Ok(([t], ts1)) else
      var (rest, ts2) :- Types(ts1[1..]);
      Ok(([t] + rest, ts2))
  }

  function RelatedEdgeClause(ts: seq<Token>): Parsed<seq<string>> {
    var (_, ts1) :- Expect(ts, TMinus);
    if Peek(ts1).kind == TLBracket then
      var (types, ts2) :- Types(ts1[1..]);
      var (_, ts3) :- Expect(ts2, TRBracket);
      var (_, ts4) :- Expect(ts3, TArrow);
      Ok((types, ts4))
    else
      var (t, ts2) :- Expect(ts1, TIdent);
      var (_, ts3) :- Expect(ts2, TArrow);
      Ok(([t], ts3))
  }

  function OptEdges(ts: seq<Token>): Parsed<seq<string>> {
    if Peek(ts).kind != TMinus then Ok(([], ts)) else RelatedEdgeClause(ts)
  }

  function DirectionOf(word: string): Option<Graph.Direction> {
    if Upper(word) == "OUT" then Some(Graph.Out)
    else if Upper(word) == "IN" then Some(Graph.In)
    else if Upper(word) == "BOTH" then Some(Graph.Both)
    else None
  }

  function OptDirection(ts: seq<Token>): Parsed<Graph.Direction> {
    if !AtKeyword(ts, "DIRECTION") then Ok((Graph.Out, ts)) else
      var (w, ts1) :- Expect(ts[1..], TIdent);
      if DirectionOf(w).None? then Err else Ok((DirectionOf(w).value, ts1))
  }

  function OptTimeAfter(ts: seq<Token>, kw: string, times: Times): Parsed<Option<string>> {
    if !AtKeyword(ts, kw) then Ok((None, ts)) else
      var (t, ts1) :- TimeClause(ts[1..], times);
      Ok((Some(t), ts1))
  }

  function OptBetween(ts: seq<Token>, times: Times): Parsed<Option<(string, string)>> {
    if !AtKeyword(ts, "BETWEEN") then Ok((None, ts)) else
      var (t1, ts1) :- TimeClause(ts[1..], times);
      var (_, ts2) :- Keyword(ts1, "AND");
      var (t2, ts3) :- TimeClause(ts2, times);
      Ok((Some((t1, t2)), ts3))
  }

  function OptJson(ts: seq<Token>): Parsed<Option<string>> {
    if Peek(ts).kind != TJson then Ok((None, ts)) else Ok((Some(ts[0].text), ts[1..]))
  }

  // ---- statements, after their verb ----

  function GetRest(ts: seq<Token>, times: Times): Result<Stmt> {
    var (p, ts1) :- PathClause(ts);
    var (asOf, ts2) :- OptAsOf(ts1, times);
    End(GetStmt(p.0, p.1, asOf), ts2)
  }

  function FindRest(ts: seq<Token>, times: Times): Result<Stmt> {
    var (c, ts1) :- Expect(ts, TIdent);
    var (w, ts2) :- OptWhere(ts1);
    var (asOf, ts3) :- OptAsOf(ts2, times);
    var (order, ts4) :- OptOrder(ts3);
    var (limit, ts5) :- OptCount(ts4, "LIMIT");
    var (offset, ts6) :- OptCount(ts5, "OFFSET");
    End(FindStmt(c, w, asOf, order.0, order.1, limit, offset), ts6)
  }

  function PutRest(ts: seq<Token>, times: Times): Result<Stmt> {
    var (p, ts1) :- PathClause(ts);
    var (j, ts2) :- Expect(ts1, TJson);
    var (at, ts3) :- OptTimeAfter(ts2, "AT", times);
    End(PutStmt(p.0, p.1, j, at), ts3)
  }

  function DeleteRest(ts: seq<Token>): Result<Stmt> {
    var (p, ts1) :- PathClause(ts);
    End(DeleteStmt(p.0, p.1), ts1)
  }

  function HistoryRest(ts: seq<Token>, times: Times): Result<Stmt> {
    var (p, ts1) :- PathClause(ts);
    var (between, ts2) :- OptBetween(ts1, times);
    End(HistoryStmt(p.0, p.1, between), ts2)
  }

  /** An edge with its two nodes. */
  function EdgeEnds(ts: seq<Token>): Parsed<((string, string), string, (string, string))> {
    var (from, ts1) :- PathClause(ts);
    var (typ, ts2) :- EdgeClause(ts1);
    var (to, ts3) :- PathClause(ts2);
    Ok(((from, typ, to), ts3))
  }

  function RelateRest(ts: seq<Token>): Result<Stmt> {
    var (edge, ts1) :- EdgeEnds(ts);
    var (props, ts2) :- OptJson(ts1);
    End(RelateStmt(edge.0, edge.1, edge.2, props), ts2)
  }

  function UnrelateRest(ts: seq<Token>): Result<Stmt> {
    var (edge, ts1) :- EdgeEnds(ts);
    End(UnrelateStmt(edge.0, edge.1, edge.2), ts1)
  }

  function RelatedRest(ts: seq<Token>, times: Times): Result<Stmt> {
    var (p, ts1) :- PathClause(ts);
    var (types, ts2) :- OptEdges(ts1);
    var (dir, ts3) :- OptDirection(ts2);
    var (asOf, ts4) :- OptAsOf(ts3, times);
    var (limit, ts5) :- OptCount(ts4, "LIMIT");
    var (offset, ts6) :- OptCount(ts5, "OFFSET");
    End(RelatedStmt(p.0, p.1, types, dir, asOf, limit, offset), ts6)
  }

  function SearchRest(ts: seq<Token>): Result<Stmt> {
    var (c, ts1) :- Expect(ts, TIdent);
    var (_, ts2) :- Keyword(ts1, "NEAR");
    var (q, ts3) :- Expect(ts2, TString);
    var (w, ts4) :- OptWhere(ts3);
    var (limit, ts5) :- OptCount(ts4, "LIMIT");
    var (offset, ts6) :- OptCount(ts5, "OFFSET");
    End(SearchStmt(c, q, w, limit, offset), ts6)
  }

  function PurgeRest(ts: seq<Token>, times: Times): Result<Stmt> {
    var (c, ts1) :- Expect(ts, TIdent);
    var (_, ts2) :- Keyword(ts1, "BEFORE");
    var (t, ts3) :- TimeClause(ts2, times);
    End(PurgeStmt(c, t), ts3)
  }

  datatype Verb = Get | Find | Put | Delete | History | Relate | Unrelate | Related | Search | Purge | EdgeTypes

  function VerbFrom(word: string): Option<Verb> {
    match word
    case "GET" => Some(Get)
    case "FIND" => Some(Find)
    case "PUT" => Some(Put)
    case "DELETE" => Some(Delete)
    case "HISTORY" => Some(History)
    case "RELATE" => Some(Relate)
    case "UNRELATE" => Some(Unrelate)
    case "RELATED" => Some(Related)
    case "SEARCH" => Some(Search)
    case "PURGE" => Some(Purge)
    case "EDGETYPES" => Some(EdgeTypes)
    case _ => None
  }

  function RestOf(verb: Verb, rest: seq<Token>, times: Times): Result<Stmt> {
    match verb
    case Get => GetRest(rest, times)
    case Find => FindRest(rest, times)
    case Put => PutRest(rest, times)
    case Delete => DeleteRest(rest)
    case History => HistoryRest(rest, times)
    case Relate => RelateRest(rest)
    case Unrelate => UnrelateRest(rest)
    case Related => RelatedRest(rest, times)
    case Search => SearchRest(rest)
    case Purge => PurgeRest(rest, times)
    case EdgeTypes => End(EdgeTypesStmt, rest)
  }

  function StatementFor(verb: string, rest: seq<Token>, times: Times): Result<Stmt> {
    if VerbFrom(verb).None? then Err else RestOf(VerbFrom(verb).value, rest, times)
  }

  /** Parse, on the tokens of the whole statement. */
  function Statement(ts: seq<Token>, times: Times): Result<Stmt> {
    var (verb, rest) :- Expect(ts, TIdent);
    StatementFor(Upper(verb), rest, times)
  }

  /** Parse, on text. */
  function ParseText(src: string, json: JsonScanner, times: Times): Result<Stmt> {
    var ts :- Tokens(src, json);
    Statement(ts, times)
  }
}
