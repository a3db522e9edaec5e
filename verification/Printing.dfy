/** Statements written back as tokens and text: the inverse of the parser. */
module Printing {
  import opened Wrappers
  import opened Decimals
  import opened Ast
  import opened Lexer
  import opened Grammar
  import opened Rendering
  import opened Spelling
  import opened Accepting
  import Graph

  function Word(s: string): Token { Token(TIdent, s) }

  function Sym(kind: Kind): Token { Token(kind, Symbol(kind)) }

  function Text(s: string): Token { Token(TString, s) }

  function CountToken(n: nat): Token { Token(TNumber, Pad(n, 1)) }

  function PrintPath(p: (string, string)): seq<Token> { [Word(p.0), Sym(TSlash), Text(p.1)] }

  function PrintAsOf(t: Option<string>): seq<Token> {
    if t.None? then [] else [Word("AS"), Word("OF"), Text(t.value)]
  }

  function PrintCount(kw: string, n: nat): seq<Token> {
    if n == 0 then [] else [Word(kw), CountToken(n)]
  }

  function PrintCounts(limit: nat, offset: nat): seq<Token> {
    PrintCount("LIMIT", limit) + PrintCount("OFFSET", offset)
  }

  function PrintOp(op: CmpOp): Token {
    match op
    case Eq => Sym(TEq)
    case Neq => Sym(TNeq)
    case Lt => Sym(TLt)
    case Lte => Sym(TLte)
    case Gt => Sym(TGt)
    case Gte => Sym(TGte)
    case In => Word("IN")
    case Contains => Word("CONTAINS")
  }

  function PrintValue(v: Value): seq<Token> {
    match v
    case NullValue => [Word("null")]
    case BoolValue(b) => [Word(if b then "true" else "false")]
    case NumValue(lexeme) => [Token(TNumber, lexeme)]
    case StrValue(s) => [Text(s)]
    case ArrValue(items) => [Sym(TLBracket)] + PrintItems(items) + [Sym(TRBracket)]
  }

  function PrintItems(items: seq<Value>): seq<Token> {
    if items == [] then []
    else if |items| == 1 then PrintValue(items[0])
    else PrintValue(items[0]) + [Sym(TComma)] + PrintItems(items[1..])
  }

  function PrintTerm(c: Cmp): seq<Token> { [Word(c.field)] + ([PrintOp(c.op)] + PrintValue(c.value)) }

  function PrintExpr(e: Expr): seq<Token> {
    if e == [] then [] else
      if |e| == 1 then PrintTerm(e[0]) else PrintTerm(e[0]) + [Word("AND")] + PrintExpr(e[1..])
  }

  function PrintWhere(e: Option<Expr>): seq<Token> { if e.None? then [] else [Word("WHERE")] + PrintExpr(e.value) }

  function PrintOrder(field: string, desc: bool): seq<Token> {
    if field == "" && !desc then []
    else if desc then [Word("ORDER"), Word("BY"), Word(field), Word("DESC")]
    else [Word("ORDER"), Word("BY"), Word(field)]
  }

  function PrintEdge(typ: string): seq<Token> { [Sym(TMinus), Word(typ), Sym(TArrow)] }

  /** An edge with its two nodes, and what follows it. */
  function PrintEnds(from: (string, string), typ: string, to: (string, string), rest: seq<Token>): seq<Token> {
    PrintPath(from) + (PrintEdge(typ) + (PrintPath(to) + rest))
  }

  function PrintTypes(types: seq<string>): seq<Token> {
    if types == [] then []
    else if |types| == 1 then [Word(types[0])]
    else [Word(types[0]), Sym(TComma)] + PrintTypes(types[1..])
  }

  function PrintEdges(types: seq<string>): seq<Token> {
    if types == [] then [] else [Sym(TMinus), Sym(TLBracket)] + PrintTypes(types) + [Sym(TRBracket), Sym(TArrow)]
  }

  function DirectionWord(d: Graph.Direction): string { if d.In? then "IN" else if d.Both? then "BOTH" else "OUT" }

  function PrintDirection(d: Graph.Direction): seq<Token> {
    match d
    case Out => []
    case _ => [Word("DIRECTION"), Word(DirectionWord(d))]
  }

  function PrintTimeAfter(kw: string, t: Option<string>): seq<Token> {
    if t.None? then [] else [Word(kw), Text(t.value)]
  }

  function PrintBetween(b: Option<(string, string)>): seq<Token> {
    if b.None? then [] else [Word("BETWEEN"), Text(b.value.0), Word("AND"), Text(b.value.1)]
  }

  function PrintJson(j: Option<string>): seq<Token> { if j.None? then [] else [Token(TJson, j.value)] }

  function PrintBody(s: Stmt): seq<Token> {
    match s
    case GetStmt(c, k, asOf) => PrintPath((c, k)) + PrintAsOf(asOf)
    case FindStmt(c, filter, asOf, field, desc, limit, offset) =>
      [Word(c)] + (PrintWhere(filter) + (PrintAsOf(asOf) + (PrintOrder(field, desc) + PrintCounts(limit, offset))))
    case PutStmt(c, k, j, at) => PrintPath((c, k)) + ([Token(TJson, j)] + PrintTimeAfter("AT", at))
    case DeleteStmt(c, k) => PrintPath((c, k))
    case HistoryStmt(c, k, between) => PrintPath((c, k)) + PrintBetween(between)
    case RelateStmt(from, typ, to, props) => PrintEnds(from, typ, to, PrintJson(props))
    case UnrelateStmt(from, typ, to) => PrintEnds(from, typ, to, [])
    case RelatedStmt(c, k, types, dir, asOf, limit, offset) =>
      PrintPath((c, k)) + (PrintEdges(types) + (PrintDirection(dir) + (PrintAsOf(asOf) + PrintCounts(limit, offset))))
    case SearchStmt(c, q, filter, limit, offset) =>
      [Word(c), Word("NEAR"), Text(q)] + (PrintWhere(filter) + PrintCounts(limit, offset))
    case PurgeStmt(c, t) => [Word(c), Word("BEFORE"), Text(t)]
    case EdgeTypesStmt => []
  }

  function Print(s: Stmt): seq<Token> { [Word(VerbWord(s))] + PrintBody(s) }

  // ---- what is printed is a spelling ----

  lemma {:induction false} ValueIsSpelled(v: Value)
    ensures SpellsValue(PrintValue(v), v)
    decreases v, 0
  {
    if v.ArrValue? && v.items != [] {
      var inner := PrintItems(v.items);
      ItemsAreSpelled(v.items);
      Bracketed(inner);
    }
  }

  lemma Bracketed(inner: seq<Token>)
    ensures var ts := [Sym(TLBracket)] + inner + [Sym(TRBracket)];
            |ts| >= 2 && ts[0] == Sym(TLBracket) && ts[|ts| - 1] == Sym(TRBracket) && ts[1..|ts| - 1] == inner
  {
  }

  lemma {:induction false} ItemsAreSpelled(items: seq<Value>)
    requires items != []
    ensures SpellsItems(PrintItems(items), items)
    decreases items, 1
  {
    ValueIsSpelled(items[0]);
    if |items| > 1 {
      var a, b := PrintValue(items[0]), PrintItems(items[1..]);
      ItemsAreSpelled(items[1..]);
      JoinThree(a, Sym(TComma), b, []);
      assert items == [items[0]] + items[1..];
      ItemsAt(a + [Sym(TComma)] + b, |a|, items[0], items[1..]);
    }
  }

  lemma TermIsSpelled(c: Cmp)
    ensures SpellsTerm(PrintTerm(c), c)
  {
    ValueIsSpelled(c.value);
    assert PrintTerm(c)[2..] == PrintValue(c.value);
  }

  lemma {:induction false} ExprIsSpelled(e: Expr)
    requires e != []
    ensures SpellsExpr(PrintExpr(e), e)
  {
    TermIsSpelled(e[0]);
    if |e| > 1 {
      var a, b := PrintTerm(e[0]), PrintExpr(e[1..]);
      ExprIsSpelled(e[1..]);
      JoinThree(a, Word("AND"), b, []);
      assert e == [e[0]] + e[1..];
      ExprAt(a + [Word("AND")] + b, |a|, e[0], e[1..]);
    }
  }

  lemma WhereIsSpelled(e: Option<Expr>)
    requires FitsWhere(e)
    ensures SpellsWhere(PrintWhere(e), e)
  {
    if e.Some? {
      ExprIsSpelled(e.value);
      assert PrintWhere(e)[1..] == PrintExpr(e.value);
    }
  }

  lemma CountIsSpelled(kw: string, n: nat)
    requires n <= MAX_INT
    ensures SpellsCount(PrintCount(kw, n), kw, n)
  {
    PadLength(n, 1);
    PadValue(n, 1);
    assert IsDigit(Pad(n, 1)[0]);
  }

  lemma {:induction false} TypesAreSpelled(types: seq<string>)
    requires types != []
    ensures SpellsTypes(PrintTypes(types), types)
  {
    if |types| > 1 {
      TypesAreSpelled(types[1..]);
      assert PrintTypes(types)[2..] == PrintTypes(types[1..]);
    }
  }

  lemma EdgesAreSpelled(types: seq<string>)
    ensures SpellsEdges(PrintEdges(types), types)
  {
    if types != [] {
      TypesAreSpelled(types);
      var ts, inner := PrintEdges(types), PrintTypes(types);
      assert ts[2..|ts| - 2] == inner && ts[|ts| - 2] == Sym(TRBracket) && ts[|ts| - 1] == Sym(TArrow);
    }
  }

  lemma FindIsSpelled(s: Stmt, times: Times)
    requires s.FindStmt? && Printable(s, times)
    ensures SpellsBody(PrintBody(s), s)
  {
    WhereIsSpelled(s.filter);
    CountIsSpelled("LIMIT", s.limit);
    CountIsSpelled("OFFSET", s.offset);
    FindParts(PrintBody(s), s, [Word(s.collection)], PrintWhere(s.filter), PrintAsOf(s.asOf),
              PrintOrder(s.orderBy, s.desc), PrintCount("LIMIT", s.limit), PrintCount("OFFSET", s.offset));
  }

  lemma RelatedIsSpelled(s: Stmt, times: Times)
    requires s.RelatedStmt? && Printable(s, times)
    ensures SpellsBody(PrintBody(s), s)
  {
    EdgesAreSpelled(s.edgeTypes);
    CountIsSpelled("LIMIT", s.limit);
    CountIsSpelled("OFFSET", s.offset);
    RelatedParts(PrintBody(s), s, PrintPath((s.collection, s.key)), PrintEdges(s.edgeTypes),
                 PrintDirection(s.direction), PrintAsOf(s.asOf), PrintCount("LIMIT", s.limit),
                 PrintCount("OFFSET", s.offset));
  }

  lemma SearchIsSpelled(s: Stmt, times: Times)
    requires s.SearchStmt? && Printable(s, times)
    ensures SpellsBody(PrintBody(s), s)
  {
    WhereIsSpelled(s.filter);
    CountIsSpelled("LIMIT", s.limit);
    CountIsSpelled("OFFSET", s.offset);
    SearchParts(PrintBody(s), s, [Word(s.collection), Word("NEAR"), Text(s.query)], PrintWhere(s.filter),
                PrintCount("LIMIT", s.limit), PrintCount("OFFSET", s.offset));
  }

  lemma EdgeStatementsAreSpelled(s: Stmt)
    requires s.RelateStmt? || s.UnrelateStmt?
    ensures SpellsBody(PrintBody(s), s)
  {
    var a, b, x := PrintPath(s.from), PrintEdge(s.edgeType), PrintPath(s.to);
    if s.RelateStmt? {
      var y := PrintJson(s.props);
      assert PrintBody(s) == a + (b + (x + y)) && SpellsJson(y, s.props);
    } else {
      assert x + [] == x;
      assert PrintBody(s) == a + (b + x);
    }
    assert SpellsPath(a, s.from) && SpellsEdge(b, s.edgeType) && SpellsPath(x, s.to);
  }

  lemma PutIsSpelled(s: Stmt)
    requires s.PutStmt?
    ensures SpellsBody(PrintBody(s), s)
  {
    PutParts(PrintBody(s), s, PrintPath((s.collection, s.key)), [Token(TJson, s.json)], PrintTimeAfter("AT", s.at));
  }

  lemma PlainBodiesAreSpelled(s: Stmt)
    requires s.GetStmt? || s.DeleteStmt? || s.HistoryStmt? || s.PurgeStmt? || s.EdgeTypesStmt?
    ensures SpellsBody(PrintBody(s), s)
  {
    if s.GetStmt? {
      assert SpellsPath(PrintPath((s.collection, s.key)), (s.collection, s.key));
      assert SpellsAsOf(PrintAsOf(s.asOf), s.asOf);
    } else if s.HistoryStmt? {
      assert SpellsPath(PrintPath((s.collection, s.key)), (s.collection, s.key));
      assert SpellsBetween(PrintBetween(s.between), s.between);
    }
  }

  lemma BodyIsSpelled(s: Stmt, times: Times)
    requires Printable(s, times)
    ensures SpellsBody(PrintBody(s), s)
  {
    if s.FindStmt? {
      FindIsSpelled(s, times);
    } else if s.RelatedStmt? {
      RelatedIsSpelled(s, times);
    } else if s.SearchStmt? {
      SearchIsSpelled(s, times);
    } else if s.RelateStmt? || s.UnrelateStmt? {
      EdgeStatementsAreSpelled(s);
    } else if s.PutStmt? {
      PutIsSpelled(s);
    } else {
      PlainBodiesAreSpelled(s);
    }
  }

  lemma PrintIsSpelled(s: Stmt, times: Times)
    requires Printable(s, times)
    ensures Spelling.Spells(Print(s), s)
  {
    BodyIsSpelled(s, times);
    assert Print(s)[1..] == PrintBody(s);
  }

  /** Parsing inverts printing, for every statement the parser can return. */
  lemma ParserInvertsPrint(s: Stmt, times: Times)
    requires Printable(s, times)
    ensures Statement(Print(s), times) == Ok(s)
  {
    PrintIsSpelled(s, times);
    SpellingsAreAccepted(Print(s), s, times);
  }

  /** Every statement the parser returns prints to tokens that parse to it again, whatever spelling it came from. */
  lemma ParsedStatementsPrint(ts: seq<Token>, times: Times)
    requires Statement(ts, times).Ok?
    ensures var s := Statement(ts, times).value; Printable(s, times) && Statement(Print(s), times) == Ok(s)
  {
    AcceptedIff(ts, Statement(ts, times).value, times);
    ParserInvertsPrint(Statement(ts, times).value, times);
  }

  /** On text: a statement whose names, numbers and JSON are lexemes is read back from its printed form. */
  lemma TextReadsBack(s: Stmt, json: JsonScanner, times: Times)
    requires Printable(s, times) && forall t :: t in Print(s) ==> WellFormed(t, json)
    ensures ParseText(Render(Print(s)), json, times) == Ok(s)
  {
    LexerInvertsRender(Print(s), json);
    ParserInvertsPrint(s, times);
  }
}
