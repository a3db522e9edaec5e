/** Which token lists spell a statement: TQL as a relation, with every freedom the parser allows. Keywords are in any
    case, a key is an identifier, a number or a string, ASC may be written or left out, LIMIT 0 and DIRECTION OUT may
    stand for nothing, and one edge type may do without its brackets. */
module Spelling {
  import opened Wrappers
  import opened Decimals
  import opened Ast
  import opened Lexer
  import opened Grammar
  import Graph

  predicate Is(t: Token, kind: Kind, text: string) { t.kind == kind && t.text == text }

  predicate IsWord(t: Token, kw: string) { t.kind == TIdent && SameWord(t.text, kw) }

  predicate SpellsName(ts: seq<Token>, name: string) { |ts| == 1 && Is(ts[0], TIdent, name) }

  predicate SpellsPath(ts: seq<Token>, p: (string, string)) {
    && |ts| == 3 && Is(ts[0], TIdent, p.0) && ts[1].kind == TSlash
    && (Is(ts[2], TIdent, p.1) || Is(ts[2], TNumber, p.1) || Is(ts[2], TString, p.1))
  }

  predicate SpellsAsOf(ts: seq<Token>, t: Option<string>) {
    if t.None? then ts == []
    else |ts| == 3 && IsWord(ts[0], "AS") && IsWord(ts[1], "OF") && Is(ts[2], TString, t.value)
  }

  predicate SpellsCount(ts: seq<Token>, kw: string, n: nat) {
    (ts == [] && n == 0) || (|ts| == 2 && IsWord(ts[0], kw) && ts[1].kind == TNumber && SpellsNumber(ts[1].text, n))
  }

  /** Decimal digits of a number under 2^63, or of zero with a sign. */
  predicate SpellsNumber(text: string, n: nat) {
    n <= 9_223_372_036_854_775_807
    && if n == 0 && text != "" && text[0] == '-' then IsDigits(text[1..], n) else IsDigits(text, n)
  }

  predicate IsDigits(s: string, n: nat) { s != "" && AllDigits(s) && DigitsValue(s) == n }

  ghost predicate SpellsValue(ts: seq<Token>, v: Value)
    decreases |ts|, 0
  {
    match v
    case NumValue(lexeme) => |ts| == 1 && Is(ts[0], TNumber, lexeme)
    case StrValue(s) => |ts| == 1 && Is(ts[0], TString, s)
    case BoolValue(b) => |ts| == 1 && IsWord(ts[0], if b then "TRUE" else "FALSE")
    case NullValue => |ts| == 1 && IsWord(ts[0], "NULL")
    case ArrValue(items) =>
      |ts| >= 2 && ts[0].kind == TLBracket && ts[|ts| - 1].kind == TRBracket
      && if items == [] then |ts| == 2 else SpellsItems(ts[1..|ts| - 1], items)
  }

  /** One or more values with commas between them. */
  ghost predicate SpellsItems(ts: seq<Token>, items: seq<Value>)
    decreases |ts|, 1
  {
    items != []
    && if |items| == 1 then SpellsValue(ts, items[0])
       else exists i :: 0 <= i < |ts| && SpellsValue(ts[..i], items[0]) && ts[i].kind == TComma &&
             SpellsItems(ts[i + 1..], items[1..])
  }

  ghost predicate SpellsTerm(ts: seq<Token>, c: Cmp) {
    |ts| >= 2 && Is(ts[0], TIdent, c.field) && SpellsOp(ts[1], c.op) && SpellsValue(ts[2..], c.value)
  }

  predicate SpellsOp(t: Token, op: CmpOp) {
    match op
    case Eq => t.kind == TEq
    case Neq => t.kind == TNeq
    case Lt => t.kind == TLt
    case Lte => t.kind == TLte
    case Gt => t.kind == TGt
    case Gte => t.kind == TGte
    case In => IsWord(t, "IN")
    case Contains => IsWord(t, "CONTAINS")
  }

  /** One or more terms with AND between them. */
  ghost predicate SpellsExpr(ts: seq<Token>, e: Expr)
    decreases |ts|
  {
    e != []
    && if |e| == 1 then SpellsTerm(ts, e[0])
       else exists i :: 0 <= i < |ts| && SpellsTerm(ts[..i], e[0]) && IsWord(ts[i], "AND") &&
             SpellsExpr(ts[i + 1..], e[1..])
  }

  ghost predicate SpellsWhere(ts: seq<Token>, e: Option<Expr>) {
    if e.None? then ts == [] else ts != [] && IsWord(ts[0], "WHERE") && SpellsExpr(ts[1..], e.value)
  }

  predicate SpellsOrder(ts: seq<Token>, field: string, desc: bool) {
    (ts == [] && field == "" && !desc)
    || (|ts| >= 3 && IsWord(ts[0], "ORDER") && IsWord(ts[1], "BY") && Is(ts[2], TIdent, field)
        && ((|ts| == 3 && !desc) || (|ts| == 4 && IsWord(ts[3], if desc then "DESC" else "ASC"))))
  }

  predicate SpellsEdge(ts: seq<Token>, typ: string) {
    |ts| == 3 && ts[0].kind == TMinus && Is(ts[1], TIdent, typ) && ts[2].kind == TArrow
  }

  predicate SpellsTypes(ts: seq<Token>, types: seq<string>)
    decreases |types|
  {
    types != [] && ts != [] && Is(ts[0], TIdent, types[0])
    && if |types| == 1 then |ts| == 1 else |ts| >= 2 && ts[1].kind == TComma && SpellsTypes(ts[2..], types[1..])
  }

  predicate SpellsEdges(ts: seq<Token>, types: seq<string>) {
    (ts == [] && types == [])
    || (|types| == 1 && SpellsEdge(ts, types[0]))
    || (|ts| >= 4 && ts[0].kind == TMinus && ts[1].kind == TLBracket && SpellsTypes(ts[2..|ts| - 2], types)
        && ts[|ts| - 2].kind == TRBracket && ts[|ts| - 1].kind == TArrow)
  }

  predicate SpellsDirection(ts: seq<Token>, d: Graph.Direction) {
    (ts == [] && d.Out?)
    || (|ts| == 2 && IsWord(ts[0], "DIRECTION")
        && IsWord(ts[1], if d.In? then "IN" else if d.Both? then "BOTH" else "OUT"))
  }

  predicate SpellsTimeAfter(ts: seq<Token>, kw: string, t: Option<string>) {
    if t.None? then ts == [] else |ts| == 2 && IsWord(ts[0], kw) && Is(ts[1], TString, t.value)
  }

  predicate SpellsBetween(ts: seq<Token>, b: Option<(string, string)>) {
    if b.None? then ts == []
    else |ts| == 4 && IsWord(ts[0], "BETWEEN") && Is(ts[1], TString, b.value.0) && IsWord(ts[2], "AND") &&
          Is(ts[3], TString, b.value.1)
  }

  predicate SpellsJson(ts: seq<Token>, j: Option<string>) {
    if j.None? then ts == [] else |ts| == 1 && Is(ts[0], TJson, j.value)
  }

  /** What follows the verb: the clauses of the statement, each spelled, in their order and with nothing else. */
  ghost predicate SpellsBody(ts: seq<Token>, s: Stmt) {
    match s
    case GetStmt(c, k, asOf) => exists a, b :: ts == a + b && SpellsPath(a, (c, k)) && SpellsAsOf(b, asOf)
    case FindStmt(c, filter, asOf, field, desc, limit, offset) =>
      exists a, b, x, y, z, w :: ts == a + (b + (x + (y + (z + w))))
        && SpellsName(a, c) && SpellsWhere(b, filter) && SpellsAsOf(x, asOf) && SpellsOrder(y, field, desc)
        && SpellsCount(z, "LIMIT", limit) && SpellsCount(w, "OFFSET", offset)
    case PutStmt(c, k, json, at) =>
      exists a, b, x :: ts == a + (b + x) && SpellsPath(a, (c, k)) && SpellsJson(b, Some(json)) &&
            SpellsTimeAfter(x, "AT", at)
    case DeleteStmt(c, k) => SpellsPath(ts, (c, k))
    case HistoryStmt(c, k, between) => exists a, b :: ts == a + b && SpellsPath(a, (c, k)) && SpellsBetween(b, between)
    case RelateStmt(from, typ, to, props) =>
      exists a, b, x, y :: ts == a + (b + (x + y)) && SpellsPath(a, from) && SpellsEdge(b, typ) &&
            SpellsPath(x, to) && SpellsJson(y, props)
    case UnrelateStmt(from, typ, to) =>
      exists a, b, x :: ts == a + (b + x) && SpellsPath(a, from) && SpellsEdge(b, typ) && SpellsPath(x, to)
    case RelatedStmt(c, k, types, dir, asOf, limit, offset) =>
      exists a, b, x, y, z, w :: ts == a + (b + (x + (y + (z + w))))
        && SpellsPath(a, (c, k)) && SpellsEdges(b, types) && SpellsDirection(x, dir) && SpellsAsOf(y, asOf)
        && SpellsCount(z, "LIMIT", limit) && SpellsCount(w, "OFFSET", offset)
    case SearchStmt(c, q, filter, limit, offset) =>
      exists a, b, x, y :: ts == a + (b + (x + y)) && SpellsNear(a, c, q) && SpellsWhere(b, filter)
        && SpellsCount(x, "LIMIT", limit) && SpellsCount(y, "OFFSET", offset)
    case PurgeStmt(c, t) => |ts| == 3 && Is(ts[0], TIdent, c) && IsWord(ts[1], "BEFORE") && Is(ts[2], TString, t)
    case EdgeTypesStmt => ts == []
  }

  predicate SpellsNear(ts: seq<Token>, c: string, q: string) {
    |ts| == 3 && Is(ts[0], TIdent, c) && IsWord(ts[1], "NEAR") && Is(ts[2], TString, q)
  }

  function VerbWord(s: Stmt): string {
    match s
    case GetStmt(_, _, _) => "GET"
    case FindStmt(_, _, _, _, _, _, _) => "FIND"
    case PutStmt(_, _, _, _) => "PUT"
    case DeleteStmt(_, _) => "DELETE"
    case HistoryStmt(_, _, _) => "HISTORY"
    case RelateStmt(_, _, _, _) => "RELATE"
    case UnrelateStmt(_, _, _) => "UNRELATE"
    case RelatedStmt(_, _, _, _, _, _, _) => "RELATED"
    case SearchStmt(_, _, _, _, _) => "SEARCH"
    case PurgeStmt(_, _) => "PURGE"
    case EdgeTypesStmt => "EDGETYPES"
  }

  predicate HasVerb(s: Stmt, verb: Verb) {
    match verb
    case Get => s.GetStmt?
    case Find => s.FindStmt?
    case Put => s.PutStmt?
    case Delete => s.DeleteStmt?
    case History => s.HistoryStmt?
    case Relate => s.RelateStmt?
    case Unrelate => s.UnrelateStmt?
    case Related => s.RelatedStmt?
    case Search => s.SearchStmt?
    case Purge => s.PurgeStmt?
    case EdgeTypes => s.EdgeTypesStmt?
  }

  ghost predicate Spells(ts: seq<Token>, s: Stmt) {
    ts != [] && IsWord(ts[0], VerbWord(s)) && SpellsBody(ts[1..], s)
  }

  // ---- what the grammar accepts is spelled ----

  /** The tokens consumed when rest is left of ts. */
  function Front(ts: seq<Token>, rest: seq<Token>): seq<Token> { if |rest| <= |ts| then ts[..|ts| - |rest|] else [] }

  ghost predicate Splits(ts: seq<Token>, rest: seq<Token>) { |rest| <= |ts| && ts == Front(ts, rest) + rest }

  /** A keyword the grammar takes is that word in any case. */
  lemma KeywordIsWord(ts: seq<Token>, kw: string)
    requires InCapitals(kw)
    ensures AtKeyword(ts, kw) <==> ts != [] && IsWord(ts[0], kw)
  {
    FoldsToKeyword(Peek(ts).text, kw);
  }

  /** What is consumed after the first k tokens. */
  lemma After(ts: seq<Token>, k: nat, rest: seq<Token>)
    requires k <= |ts| && Splits(ts[k..], rest)
    ensures Splits(ts, rest)
    ensures var f := Front(ts, rest); |f| >= k && f[..k] == ts[..k] && f[k..] == Front(ts[k..], rest)
  {
    var a, b := ts[..k], Front(ts[k..], rest);
    assert ts == a + (b + rest) == a + b + rest;
    FrontOf(a + b, rest);
  }

  /** And before the last k of what is consumed. */
  lemma Before(ts: seq<Token>, ts1: seq<Token>, k: nat)
    requires Splits(ts, ts1) && k <= |ts1|
    ensures Splits(ts, ts1[k..])
    ensures var f := Front(ts, ts1[k..]); |f| >= k && f[..|f| - k] == Front(ts, ts1) && f[|f| - k..] == ts1[..k]
  {
    var a, b := Front(ts, ts1), ts1[..k];
    assert ts == a + (b + ts1[k..]) == a + b + ts1[k..];
    FrontOf(a + b, ts1[k..]);
  }

  /** Both at once. */
  lemma Enclosed(ts: seq<Token>, j: nat, ts1: seq<Token>, k: nat)
    requires j <= |ts| && Splits(ts[j..], ts1) && k <= |ts1|
    ensures Splits(ts, ts1[k..])
    ensures var g := Front(ts, ts1[k..]);
            |g| >= j + k && g[..j] == ts[..j] && g[j..|g| - k] == Front(ts[j..], ts1) && g[|g| - k..] == ts1[..k]
  {
    After(ts, j, ts1);
    Before(ts, ts1, k);
    Inside(Front(ts, ts1[k..]), Front(ts, ts1), j, k);
  }

  lemma Inside(g: seq<Token>, f: seq<Token>, j: nat, k: nat)
    requires k <= |g| && f == g[..|g| - k] && j <= |f|
    ensures f[j..] == g[j..|g| - k] && f[..j] == g[..j]
  {
  }

  lemma PathSpelled(ts: seq<Token>)
    requires PathClause(ts).Ok?
    ensures var (p, rest) := PathClause(ts).value; Splits(ts, rest) && SpellsPath(Front(ts, rest), p)
  {
  }

  lemma NameSpelled(ts: seq<Token>)
    requires Expect(ts, TIdent).Ok?
    ensures var (c, rest) := Expect(ts, TIdent).value; Splits(ts, rest) && SpellsName(Front(ts, rest), c)
  {
  }

  lemma AsOfSpelled(ts: seq<Token>, times: Times)
    requires OptAsOf(ts, times).Ok?
    ensures var (t, rest) := OptAsOf(ts, times).value; Splits(ts, rest) && SpellsAsOf(Front(ts, rest), t)
  {
    KeywordIsWord(ts, "AS");
    if AtKeyword(ts, "AS") {
      KeywordIsWord(ts[1..], "OF");
      assert ts[1..][1..] == ts[2..] && ts[2..][1..] == ts[3..];
      FrontSlice(ts, 3);
    } else {
      FrontSlice(ts, 0);
    }
  }

  lemma CountSpelled(ts: seq<Token>, kw: string)
    requires OptCount(ts, kw).Ok? && InCapitals(kw)
    ensures var (n, rest) := OptCount(ts, kw).value; Splits(ts, rest) && SpellsCount(Front(ts, rest), kw, n)
  {
    KeywordIsWord(ts, kw);
    if AtKeyword(ts, kw) {
      assert ts[1..][1..] == ts[2..];
      NumberSpelled(ts[1].text);
      FrontSlice(ts, 2);
    } else {
      FrontSlice(ts, 0);
    }
  }

  lemma CountWords()
    ensures InCapitals("LIMIT") && InCapitals("OFFSET")
  {
  }

  lemma CountsSpelled(ts: seq<Token>, ts1: seq<Token>, limit: nat, offset: nat, lim: string, off: string)
    requires InCapitals(lim) && InCapitals(off)
    requires OptCount(ts, lim) == Ok((limit, ts1)) && OptCount(ts1, off) == Ok((offset, []))
    ensures Splits(ts, ts1) && SpellsCount(Front(ts, ts1), lim, limit) && SpellsCount(ts1, off, offset)
  {
    CountSpelled(ts, lim);
    CountSpelled(ts1, off);
    LastFront(ts1);
  }

  /** A count is accepted exactly if it spells a number under 2^63. */
  lemma NumberSpelled(text: string)
    ensures forall n: nat :: Count(text) == Some(n) <==> SpellsNumber(text, n)
  {
    if text != "" && text[0] == '-' {
      assert !IsDigit(text[0]);
      if AllDigits(text[1..]) { DigitsAreBounded(text[1..]); }
    } else if AllDigits(text) {
      DigitsAreBounded(text);
    }
  }

  /** LIMIT and OFFSET take the numbers below 2^63, and no more. */
  lemma CountsBelow(n: nat)
    ensures Count(Pad(n, 1)) == if n < TwoTo(63) then Some(n) else None
  {
    PadLength(n, 1);
    PadValue(n, 1);
    TwoTo63();
    NumberSpelled(Pad(n, 1));
    assert IsDigit(Pad(n, 1)[0]);
  }

  lemma OrderSpelled(ts: seq<Token>)
    requires OptOrder(ts).Ok?
    ensures var (o, rest) := OptOrder(ts).value; Splits(ts, rest) && SpellsOrder(Front(ts, rest), o.0, o.1)
  {
    var (o, rest) := OptOrder(ts).value;
    if AtKeyword(ts, "ORDER") {
      var k := OrderLength(ts);
      FrontSlice(ts, k);
    } else {
      FrontSlice(ts, 0);
    }
  }

  lemma OrderLength(ts: seq<Token>) returns (k: nat)
    requires OptOrder(ts).Ok? && AtKeyword(ts, "ORDER")
    ensures k <= |ts| && OptOrder(ts).value.1 == ts[k..]
    ensures SpellsOrder(ts[..k], OptOrder(ts).value.0.0, OptOrder(ts).value.0.1)
  {
    assert ts[1..][1..] == ts[2..] && ts[2..][1..] == ts[3..];
    KeywordIsWord(ts, "ORDER");
    KeywordIsWord(ts[1..], "BY");
    KeywordIsWord(ts[3..], "DESC");
    KeywordIsWord(ts[3..], "ASC");
    k := 3;
    if AtKeyword(ts[3..], "DESC") || AtKeyword(ts[3..], "ASC") {
      assert ts[3..][1..] == ts[4..];
      k := 4;
    }
  }

  lemma FrontSlice(ts: seq<Token>, k: nat)
    requires k <= |ts|
    ensures Splits(ts, ts[k..]) && Front(ts, ts[k..]) == ts[..k]
  {
  }

  lemma EdgeSpelled(ts: seq<Token>)
    requires EdgeClause(ts).Ok?
    ensures var (t, rest) := EdgeClause(ts).value; Splits(ts, rest) && SpellsEdge(Front(ts, rest), t)
  {
    assert ts[1..][1..] == ts[2..] && ts[2..][1..] == ts[3..];
    assert EdgeClause(ts).value == (ts[1].text, ts[3..]);
    FrontSlice(ts, 3);
    assert ts[..3][0] == ts[0] && ts[..3][1] == ts[1] && ts[..3][2] == ts[2];
  }

  lemma DirectionSpelled(ts: seq<Token>)
    requires OptDirection(ts).Ok?
    ensures var (d, rest) := OptDirection(ts).value; Splits(ts, rest) && SpellsDirection(Front(ts, rest), d)
  {
    KeywordIsWord(ts, "DIRECTION");
    if AtKeyword(ts, "DIRECTION") {
      assert ts[1..][1..] == ts[2..];
      DirectionWords(ts[1].text);
      FrontSlice(ts, 2);
    } else {
      FrontSlice(ts, 0);
    }
  }

  lemma DirectionWords(word: string)
    ensures DirectionOf(word) == Some(Graph.Out) <==> SameWord(word, "OUT")
    ensures DirectionOf(word) == Some(Graph.In) <==> SameWord(word, "IN")
    ensures DirectionOf(word) == Some(Graph.Both) <==> SameWord(word, "BOTH")
  {
    FoldsToKeyword(word, "OUT");
    FoldsToKeyword(word, "IN");
    FoldsToKeyword(word, "BOTH");
  }

  lemma TimeAfterSpelled(ts: seq<Token>, kw: string, times: Times)
    requires OptTimeAfter(ts, kw, times).Ok? && InCapitals(kw)
    ensures var (t, rest) := OptTimeAfter(ts, kw, times).value;
            Splits(ts, rest) && SpellsTimeAfter(Front(ts, rest), kw, t)
  {
    KeywordIsWord(ts, kw);
    if AtKeyword(ts, kw) {
      assert ts[1..][1..] == ts[2..];
      FrontSlice(ts, 2);
    } else {
      FrontSlice(ts, 0);
    }
  }

  lemma BetweenSpelled(ts: seq<Token>, times: Times)
    requires OptBetween(ts, times).Ok?
    ensures var (b, rest) := OptBetween(ts, times).value; Splits(ts, rest) && SpellsBetween(Front(ts, rest), b)
  {
    KeywordIsWord(ts, "BETWEEN");
    if AtKeyword(ts, "BETWEEN") {
      assert ts[1..][1..] == ts[2..] && ts[2..][1..] == ts[3..] && ts[3..][1..] == ts[4..];
      KeywordIsWord(ts[2..], "AND");
      FrontSlice(ts, 4);
    } else {
      FrontSlice(ts, 0);
    }
  }

  lemma JsonSpelled(ts: seq<Token>)
    ensures var (j, rest) := OptJson(ts).value; Splits(ts, rest) && SpellsJson(Front(ts, rest), j)
  {
  }

  lemma {:induction false} TypesSpelled(ts: seq<Token>)
    requires Types(ts).Ok?
    ensures var (types, rest) := Types(ts).value; Splits(ts, rest) && SpellsTypes(Front(ts, rest), types)
    decreases |ts|
  {
    var ts1 := Expect(ts, TIdent).value.1;
    if Peek(ts1).kind == TComma {
      TypesSpelled(ts1[1..]);
      var (more, rest) := Types(ts1[1..]).value;
      assert ts[1..] == ts1 && ts1[1..] == ts[2..];
      After(ts, 2, rest);
      assert ([ts[0].text] + more)[1..] == more;
    }
  }

  lemma EdgesSpelled(ts: seq<Token>)
    requires OptEdges(ts).Ok?
    ensures var (types, rest) := OptEdges(ts).value; Splits(ts, rest) && SpellsEdges(Front(ts, rest), types)
  {
    if Peek(ts).kind == TMinus && Peek(ts[1..]).kind == TLBracket {
      assert ts[2..] == ts[1..][1..];
      TypesSpelled(ts[2..]);
      var (types, ts2) := Types(ts[2..]).value;
      assert ts2[1..][1..] == ts2[2..];
      BracketsSpelled(ts, types, ts2);
    }
  }

  lemma BracketsSpelled(ts: seq<Token>, types: seq<string>, ts2: seq<Token>)
    requires |ts| >= 2 && ts[0].kind == TMinus && ts[1].kind == TLBracket
    requires Splits(ts[2..], ts2) && SpellsTypes(Front(ts[2..], ts2), types)
    requires |ts2| >= 2 && ts2[0].kind == TRBracket && ts2[1].kind == TArrow
    ensures Splits(ts, ts2[2..]) && SpellsEdges(Front(ts, ts2[2..]), types)
  {
    Enclosed(ts, 2, ts2, 2);
    BracketsAt(Front(ts, ts2[2..]), ts, ts2, types);
  }

  lemma BracketsAt(g: seq<Token>, ts: seq<Token>, ts2: seq<Token>, types: seq<string>)
    requires |ts| >= 2 && ts[0].kind == TMinus && ts[1].kind == TLBracket
    requires |ts2| >= 2 && ts2[0].kind == TRBracket && ts2[1].kind == TArrow
    requires |g| >= 4 && g[..2] == ts[..2] && g[|g| - 2..] == ts2[..2] && SpellsTypes(g[2..|g| - 2], types)
    ensures SpellsEdges(g, types)
  {
    assert g[0] == g[..2][0] && g[1] == g[..2][1];
    assert g[|g| - 2] == g[|g| - 2..][0] && g[|g| - 1] == g[|g| - 2..][1];
  }

  lemma {:induction false} ValueSpelled(ts: seq<Token>)
    requires ValueClause(ts).Ok?
    ensures var (v, rest) := ValueClause(ts).value; Splits(ts, rest) && SpellsValue(Front(ts, rest), v)
    decreases |ts|, 0
  {
    var (v, rest) := ValueClause(ts).value;
    if Peek(ts).kind == TLBracket && Peek(ts[1..]).kind != TRBracket {
      ItemsSpelled(ts[1..]);
      var (vs, ts1) := Items(ts[1..]).value;
      ArraySpelled(ts, vs, ts1, rest);
    } else if Peek(ts).kind == TLBracket {
      assert ts == [ts[0], ts[1]] + rest;
    } else {
      assert Front(ts, rest) == [ts[0]];
      if ts[0].kind == TIdent { WordValues(ts[0].text); }
    }
  }

  lemma WordValues(word: string)
    ensures WordValue(word) == Some(BoolValue(true)) <==> SameWord(word, "TRUE")
    ensures WordValue(word) == Some(BoolValue(false)) <==> SameWord(word, "FALSE")
    ensures WordValue(word) == Some(NullValue) <==> SameWord(word, "NULL")
    ensures WordValue(word).None? || WordValue(word).value.BoolValue? || WordValue(word).value.NullValue?
  {
    FoldsToKeyword(word, "TRUE");
    FoldsToKeyword(word, "FALSE");
    FoldsToKeyword(word, "NULL");
  }

  lemma ArraySpelled(ts: seq<Token>, vs: seq<Value>, ts1: seq<Token>, rest: seq<Token>)
    requires ts != [] && ts[0].kind == TLBracket && vs != [] && Splits(ts[1..], ts1) &&
          SpellsItems(Front(ts[1..], ts1), vs)
    requires ts1 != [] && ts1[0].kind == TRBracket && rest == ts1[1..]
    ensures Splits(ts, rest) && SpellsValue(Front(ts, rest), ArrValue(vs))
  {
    Enclosed(ts, 1, ts1, 1);
    var g := Front(ts, rest);
    assert g[0] == g[..1][0] == ts[0];
    assert g[|g| - 1] == g[|g| - 1..][0] == ts1[0];
    assert g[1..|g| - 1] == Front(ts[1..], ts1);
    ArrayAt(g, vs);
  }

  lemma ArrayAt(g: seq<Token>, vs: seq<Value>)
    requires |g| >= 2 && g[0].kind == TLBracket && g[|g| - 1].kind == TRBracket && vs != [] &&
          SpellsItems(g[1..|g| - 1], vs)
    ensures SpellsValue(g, ArrValue(vs))
  {
  }

  lemma {:induction false} ItemsSpelled(ts: seq<Token>)
    requires Items(ts).Ok?
    ensures var (vs, rest) := Items(ts).value; vs != [] && Splits(ts, rest) && SpellsItems(Front(ts, rest), vs)
    decreases |ts|, 1
  {
    ValueSpelled(ts);
    var (v, ts1) := ValueClause(ts).value;
    if Peek(ts1).kind == TComma {
      ItemsSpelled(ts1[1..]);
      var (vs, rest) := Items(ts1[1..]).value;
      ItemsJoin(ts, v, ts1, vs, rest);
    }
  }

  lemma ItemsJoin(ts: seq<Token>, v: Value, ts1: seq<Token>, vs: seq<Value>, rest: seq<Token>)
    requires Splits(ts, ts1) && SpellsValue(Front(ts, ts1), v) && ts1 != [] && ts1[0].kind == TComma
    requires Splits(ts1[1..], rest) && vs != [] && SpellsItems(Front(ts1[1..], rest), vs)
    ensures Splits(ts, rest) && SpellsItems(Front(ts, rest), [v] + vs)
  {
    JoinedFront(ts, ts1, rest);
    ItemsAt(Front(ts, rest), |Front(ts, ts1)|, v, vs);
  }

  lemma ItemsAt(f: seq<Token>, i: nat, v: Value, vs: seq<Value>)
    requires i < |f| && SpellsValue(f[..i], v) && f[i].kind == TComma && vs != [] && SpellsItems(f[i + 1..], vs)
    ensures SpellsItems(f, [v] + vs)
  {
    assert ([v] + vs)[1..] == vs;
  }

  /** What two parts with one token between them consume together. */
  lemma JoinedFront(ts: seq<Token>, ts1: seq<Token>, rest: seq<Token>)
    requires Splits(ts, ts1) && ts1 != [] && Splits(ts1[1..], rest)
    ensures Splits(ts, rest)
    ensures var i, f := |Front(ts, ts1)|, Front(ts, rest);
            i < |f| && f[..i] == Front(ts, ts1) && f[i] == ts1[0] && f[i + 1..] == Front(ts1[1..], rest)
  {
    var a, b := Front(ts, ts1), Front(ts1[1..], rest);
    assert ts1 == [ts1[0]] + (b + rest);
    JoinThree(a, ts1[0], b, rest);
    FrontOf(a + [ts1[0]] + b, rest);
  }

  lemma JoinThree(a: seq<Token>, t: Token, b: seq<Token>, rest: seq<Token>)
    ensures a + ([t] + (b + rest)) == a + [t] + b + rest
    ensures var f := a + [t] + b; f[..|a|] == a && f[|a|] == t && f[|a| + 1..] == b
  {
  }

  lemma FrontOf(a: seq<Token>, rest: seq<Token>)
    ensures Front(a + rest, rest) == a && Splits(a + rest, rest)
  {
  }

  lemma TermSpelled(ts: seq<Token>)
    requires Expect(ts, TIdent).Ok? && CmpOpClause(ts[1..]).Ok? && ValueClause(ts[2..]).Ok?
    ensures var (v, rest) := ValueClause(ts[2..]).value;
            Splits(ts, rest) && SpellsTerm(Front(ts, rest), Cmp(ts[0].text, CmpOpClause(ts[1..]).value.0, v))
  {
    ValueSpelled(ts[2..]);
    var rest := ValueClause(ts[2..]).value.1;
    After(ts, 2, rest);
    assert ts[..2] == [ts[0], ts[1]];
    OpSpelled(ts[1], CmpOpClause(ts[1..]).value.0);
  }

  lemma OpSpelled(t: Token, op: CmpOp)
    ensures CmpOpOf(t) == Some(op) <==> SpellsOp(t, op)
  {
    FoldsToKeyword(t.text, "IN");
    FoldsToKeyword(t.text, "CONTAINS");
  }

  lemma {:induction false} ExprSpelled(ts: seq<Token>)
    requires ExprClause(ts).Ok?
    ensures var (e, rest) := ExprClause(ts).value; Splits(ts, rest) && SpellsExpr(Front(ts, rest), e)
    decreases |ts|
  {
    assert CmpOpClause(ts[1..]).Ok? && CmpOpClause(ts[1..]).value.1 == ts[2..] && ts[1..][1..] == ts[2..];
    TermSpelled(ts);
    var c := Cmp(ts[0].text, CmpOpClause(ts[1..]).value.0, ValueClause(ts[2..]).value.0);
    var ts3 := ValueClause(ts[2..]).value.1;
    KeywordIsWord(ts3, "AND");
    if AtKeyword(ts3, "AND") {
      ExprSpelled(ts3[1..]);
      ExprJoin(ts, c, ts3, ExprClause(ts3[1..]).value.0, ExprClause(ts3[1..]).value.1);
    }
  }

  lemma ExprJoin(ts: seq<Token>, c: Cmp, ts3: seq<Token>, e: Expr, rest: seq<Token>)
    requires Splits(ts, ts3) && SpellsTerm(Front(ts, ts3), c) && ts3 != [] && IsWord(ts3[0], "AND")
    requires Splits(ts3[1..], rest) && e != [] && SpellsExpr(Front(ts3[1..], rest), e)
    ensures Splits(ts, rest) && SpellsExpr(Front(ts, rest), [c] + e)
  {
    JoinedFront(ts, ts3, rest);
    ExprAt(Front(ts, rest), |Front(ts, ts3)|, c, e);
  }

  lemma ExprAt(f: seq<Token>, i: nat, c: Cmp, e: Expr)
    requires i < |f| && SpellsTerm(f[..i], c) && IsWord(f[i], "AND") && e != [] && SpellsExpr(f[i + 1..], e)
    ensures SpellsExpr(f, [c] + e)
  {
    assert ([c] + e)[1..] == e;
  }

  lemma WhereSpelled(ts: seq<Token>)
    requires OptWhere(ts).Ok?
    ensures var (e, rest) := OptWhere(ts).value; Splits(ts, rest) && SpellsWhere(Front(ts, rest), e)
  {
    KeywordIsWord(ts, "WHERE");
    if AtKeyword(ts, "WHERE") {
      ExprSpelled(ts[1..]);
      var rest := OptWhere(ts).value.1;
      After(ts, 1, rest);
      assert ts[..1] == [ts[0]];
    }
  }

  lemma GetSpelled(ts: seq<Token>, times: Times)
    requires GetRest(ts, times).Ok?
    ensures GetRest(ts, times).value.GetStmt? && SpellsBody(ts, GetRest(ts, times).value)
  {
    PathSpelled(ts);
    var ts1 := PathClause(ts).value.1;
    AsOfSpelled(ts1, times);
    LastFront(ts1);
  }

  lemma LastFront(ts: seq<Token>)
    ensures Front(ts, []) == ts
  {
  }

  lemma FindParts(ts: seq<Token>, s: Stmt, a: seq<Token>, b: seq<Token>, x: seq<Token>, y: seq<Token>, z: seq<Token>,
        w: seq<Token>)
    requires s.FindStmt? && ts == a + (b + (x + (y + (z + w))))
    requires SpellsName(a, s.collection) && SpellsWhere(b, s.filter) && SpellsAsOf(x, s.asOf) &&
          SpellsOrder(y, s.orderBy, s.desc)
    requires SpellsCount(z, "LIMIT", s.limit) && SpellsCount(w, "OFFSET", s.offset)
    ensures SpellsBody(ts, s)
  {
  }

  lemma FindPieces(s: Stmt, ts: seq<Token>, ts1: seq<Token>, ts2: seq<Token>, ts3: seq<Token>, ts4: seq<Token>,
        ts5: seq<Token>, times: Times)
    requires s.FindStmt? && Expect(ts, TIdent) == Ok((s.collection, ts1)) && OptWhere(ts1) == Ok((s.filter, ts2))
    requires OptAsOf(ts2, times) == Ok((s.asOf, ts3)) && OptOrder(ts3) == Ok(((s.orderBy, s.desc), ts4))
    requires OptCount(ts4, "LIMIT") == Ok((s.limit, ts5)) && OptCount(ts5, "OFFSET") == Ok((s.offset, []))
    ensures SpellsBody(ts, s)
  {
    NameSpelled(ts);
    WhereSpelled(ts1);
    AsOfSpelled(ts2, times);
    OrderSpelled(ts3);
    CountWords();
    CountsSpelled(ts4, ts5, s.limit, s.offset, "LIMIT", "OFFSET");
    FindParts(ts, s, Front(ts, ts1), Front(ts1, ts2), Front(ts2, ts3), Front(ts3, ts4), Front(ts4, ts5), ts5);
  }

  lemma FindSpelled(ts: seq<Token>, times: Times)
    requires FindRest(ts, times).Ok?
    ensures FindRest(ts, times).value.FindStmt? && SpellsBody(ts, FindRest(ts, times).value)
  {
    var ts1 := Expect(ts, TIdent).value.1;
    var ts2 := OptWhere(ts1).value.1;
    var ts3 := OptAsOf(ts2, times).value.1;
    var ts4 := OptOrder(ts3).value.1;
    var ts5 := OptCount(ts4, "LIMIT").value.1;
    FindPieces(FindRest(ts, times).value, ts, ts1, ts2, ts3, ts4, ts5, times);
  }

  lemma RelatedPieces(s: Stmt, ts: seq<Token>, ts1: seq<Token>, ts2: seq<Token>, ts3: seq<Token>, ts4: seq<Token>,
        ts5: seq<Token>, times: Times)
    requires s.RelatedStmt? && PathClause(ts) == Ok(((s.collection, s.key), ts1)) &&
          OptEdges(ts1) == Ok((s.edgeTypes, ts2))
    requires OptDirection(ts2) == Ok((s.direction, ts3)) && OptAsOf(ts3, times) == Ok((s.asOf, ts4))
    requires OptCount(ts4, "LIMIT") == Ok((s.limit, ts5)) && OptCount(ts5, "OFFSET") == Ok((s.offset, []))
    ensures SpellsBody(ts, s)
  {
    PathSpelled(ts);
    EdgesSpelled(ts1);
    DirectionSpelled(ts2);
    AsOfSpelled(ts3, times);
    CountWords();
    CountsSpelled(ts4, ts5, s.limit, s.offset, "LIMIT", "OFFSET");
    RelatedParts(ts, s, Front(ts, ts1), Front(ts1, ts2), Front(ts2, ts3), Front(ts3, ts4), Front(ts4, ts5), ts5);
  }

  lemma RelatedSpelled(ts: seq<Token>, times: Times)
    requires RelatedRest(ts, times).Ok?
    ensures RelatedRest(ts, times).value.RelatedStmt? && SpellsBody(ts, RelatedRest(ts, times).value)
  {
    var ts1 := PathClause(ts).value.1;
    var ts2 := OptEdges(ts1).value.1;
    var ts3 := OptDirection(ts2).value.1;
    var ts4 := OptAsOf(ts3, times).value.1;
    var ts5 := OptCount(ts4, "LIMIT").value.1;
    RelatedPieces(RelatedRest(ts, times).value, ts, ts1, ts2, ts3, ts4, ts5, times);
  }

  lemma RelatedParts(ts: seq<Token>, s: Stmt, a: seq<Token>, b: seq<Token>, x: seq<Token>, y: seq<Token>,
        z: seq<Token>, w: seq<Token>)
    requires s.RelatedStmt? && ts == a + (b + (x + (y + (z + w))))
    requires SpellsPath(a, (s.collection, s.key)) && SpellsEdges(b, s.edgeTypes) &&
          SpellsDirection(x, s.direction) && SpellsAsOf(y, s.asOf)
    requires SpellsCount(z, "LIMIT", s.limit) && SpellsCount(w, "OFFSET", s.offset)
    ensures SpellsBody(ts, s)
  {
  }

  lemma PutPieces(s: Stmt, ts: seq<Token>, ts1: seq<Token>, ts2: seq<Token>, times: Times)
    requires s.PutStmt? && PathClause(ts) == Ok(((s.collection, s.key), ts1)) && Expect(ts1, TJson) == Ok((s.json, ts2))
    requires OptTimeAfter(ts2, "AT", times) == Ok((s.at, []))
    ensures SpellsBody(ts, s)
  {
    PathSpelled(ts);
    JsonSpelled(ts1);
    TimeAfterSpelled(ts2, "AT", times);
    LastFront(ts2);
    PutParts(ts, s, Front(ts, ts1), Front(ts1, ts2), ts2);
  }

  lemma PutParts(ts: seq<Token>, s: Stmt, a: seq<Token>, b: seq<Token>, x: seq<Token>)
    requires s.PutStmt? && ts == a + (b + x)
    requires SpellsPath(a, (s.collection, s.key)) && SpellsJson(b, Some(s.json)) && SpellsTimeAfter(x, "AT", s.at)
    ensures SpellsBody(ts, s)
  {
  }

  lemma PutSpelled(ts: seq<Token>, times: Times)
    requires PutRest(ts, times).Ok?
    ensures PutRest(ts, times).value.PutStmt? && SpellsBody(ts, PutRest(ts, times).value)
  {
    var ts1 := PathClause(ts).value.1;
    PutPieces(PutRest(ts, times).value, ts, ts1, Expect(ts1, TJson).value.1, times);
  }

  lemma HistorySpelled(ts: seq<Token>, times: Times)
    requires HistoryRest(ts, times).Ok?
    ensures HistoryRest(ts, times).value.HistoryStmt? && SpellsBody(ts, HistoryRest(ts, times).value)
  {
    PathSpelled(ts);
    var ts1 := PathClause(ts).value.1;
    BetweenSpelled(ts1, times);
    LastFront(ts1);
  }

  lemma EndsSpelled(ts: seq<Token>) returns (a: seq<Token>, b: seq<Token>, x: seq<Token>)
    requires EdgeEnds(ts).Ok?
    ensures var ((from, typ, to), rest) := EdgeEnds(ts).value;
            ts == a + (b + (x + rest)) && SpellsPath(a, from) && SpellsEdge(b, typ) && SpellsPath(x, to)
  {
    PathSpelled(ts);
    var ts1 := PathClause(ts).value.1;
    EdgeSpelled(ts1);
    var ts2 := EdgeClause(ts1).value.1;
    PathSpelled(ts2);
    a, b, x := Front(ts, ts1), Front(ts1, ts2), Front(ts2, PathClause(ts2).value.1);
  }

  lemma RelateSpelled(ts: seq<Token>)
    requires RelateRest(ts).Ok?
    ensures RelateRest(ts).value.RelateStmt? && SpellsBody(ts, RelateRest(ts).value)
  {
    var a, b, x := EndsSpelled(ts);
    RelatePieces(RelateRest(ts).value, ts, a, b, x, EdgeEnds(ts).value.1);
  }

  lemma RelatePieces(s: Stmt, ts: seq<Token>, a: seq<Token>, b: seq<Token>, x: seq<Token>, rest: seq<Token>)
    requires s.RelateStmt? && ts == a + (b + (x + rest)) && OptJson(rest) == Ok((s.props, []))
    requires SpellsPath(a, s.from) && SpellsEdge(b, s.edgeType) && SpellsPath(x, s.to)
    ensures SpellsBody(ts, s)
  {
    JsonSpelled(rest);
    LastFront(rest);
  }

  lemma UnrelateSpelled(ts: seq<Token>)
    requires UnrelateRest(ts).Ok?
    ensures UnrelateRest(ts).value.UnrelateStmt? && SpellsBody(ts, UnrelateRest(ts).value)
  {
    var a, b, x := EndsSpelled(ts);
    assert x + [] == x;
  }

  lemma NearSpelled(ts: seq<Token>)
    requires Expect(ts, TIdent).Ok? && Keyword(ts[1..], "NEAR").Ok? && Expect(ts[2..], TString).Ok?
    ensures Splits(ts, ts[3..]) && SpellsNear(Front(ts, ts[3..]), ts[0].text, ts[2].text)
  {
    KeywordIsWord(ts[1..], "NEAR");
    FrontSlice(ts, 3);
  }

  lemma SearchPieces(s: Stmt, ts: seq<Token>, ts3: seq<Token>, ts4: seq<Token>, ts5: seq<Token>)
    requires s.SearchStmt? && Splits(ts, ts3) && SpellsNear(Front(ts, ts3), s.collection, s.query)
    requires OptWhere(ts3) == Ok((s.filter, ts4))
    requires OptCount(ts4, "LIMIT") == Ok((s.limit, ts5)) && OptCount(ts5, "OFFSET") == Ok((s.offset, []))
    ensures SpellsBody(ts, s)
  {
    WhereSpelled(ts3);
    CountWords();
    CountsSpelled(ts4, ts5, s.limit, s.offset, "LIMIT", "OFFSET");
    SearchParts(ts, s, Front(ts, ts3), Front(ts3, ts4), Front(ts4, ts5), ts5);
  }

  lemma SearchParts(ts: seq<Token>, s: Stmt, a: seq<Token>, b: seq<Token>, x: seq<Token>, y: seq<Token>)
    requires s.SearchStmt? && ts == a + (b + (x + y))
    requires SpellsNear(a, s.collection, s.query) && SpellsWhere(b, s.filter)
    requires SpellsCount(x, "LIMIT", s.limit) && SpellsCount(y, "OFFSET", s.offset)
    ensures SpellsBody(ts, s)
  {
  }

  lemma SearchSpelled(ts: seq<Token>)
    requires SearchRest(ts).Ok?
    ensures SearchRest(ts).value.SearchStmt? && SpellsBody(ts, SearchRest(ts).value)
  {
    assert ts[1..][1..] == ts[2..] && ts[2..][1..] == ts[3..];
    NearSpelled(ts);
    var ts4 := OptWhere(ts[3..]).value.1;
    SearchPieces(SearchRest(ts).value, ts, ts[3..], ts4, OptCount(ts4, "LIMIT").value.1);
  }

  lemma DeleteSpelled(ts: seq<Token>)
    requires DeleteRest(ts).Ok?
    ensures DeleteRest(ts).value.DeleteStmt? && SpellsBody(ts, DeleteRest(ts).value)
  {
    PathSpelled(ts);
    LastFront(ts);
  }

  lemma PurgeSpelled(ts: seq<Token>, times: Times)
    requires PurgeRest(ts, times).Ok?
    ensures PurgeRest(ts, times).value.PurgeStmt? && SpellsBody(ts, PurgeRest(ts, times).value)
  {
    assert ts[1..][1..] == ts[2..] && ts[2..][1..] == ts[3..];
    KeywordIsWord(ts[1..], "BEFORE");
  }

  /** An accepted body is spelled, and is of a statement of the verb. */
  ghost predicate Fine(verb: Verb, r: Result<Stmt>, ts: seq<Token>) {
    r.Ok? ==> VerbFrom(VerbWord(r.value)) == Some(verb) && SpellsBody(ts, r.value)
  }

  lemma FineIf(verb: Verb, r: Result<Stmt>, ts: seq<Token>)
    requires r.Ok? ==> VerbFrom(VerbWord(r.value)) == Some(verb) && SpellsBody(ts, r.value)
    ensures Fine(verb, r, ts)
  {
  }

  lemma SameVerb(s: Stmt, verb: Verb)
    requires HasVerb(s, verb)
    ensures VerbFrom(VerbWord(s)) == Some(verb)
  {
  }

  lemma GetFine(verb: Verb, ts: seq<Token>, times: Times)
    requires verb == Get
    ensures Fine(verb, GetRest(ts, times), ts)
  {
    if GetRest(ts, times).Ok? {
      GetSpelled(ts, times);
      SameVerb(GetRest(ts, times).value, verb);
    }
    FineIf(verb, GetRest(ts, times), ts);
  }

  lemma FindFine(verb: Verb, ts: seq<Token>, times: Times)
    requires verb == Find
    ensures Fine(verb, FindRest(ts, times), ts)
  {
    if FindRest(ts, times).Ok? {
      FindSpelled(ts, times);
      SameVerb(FindRest(ts, times).value, verb);
    }
    FineIf(verb, FindRest(ts, times), ts);
  }

  lemma PutFine(verb: Verb, ts: seq<Token>, times: Times)
    requires verb == Put
    ensures Fine(verb, PutRest(ts, times), ts)
  {
    if PutRest(ts, times).Ok? {
      PutSpelled(ts, times);
      SameVerb(PutRest(ts, times).value, verb);
    }
    FineIf(verb, PutRest(ts, times), ts);
  }

  lemma DeleteFine(verb: Verb, ts: seq<Token>, times: Times)
    requires verb == Delete
    ensures Fine(verb, DeleteRest(ts), ts)
  {
    if DeleteRest(ts).Ok? {
      DeleteSpelled(ts);
      SameVerb(DeleteRest(ts).value, verb);
    }
    FineIf(verb, DeleteRest(ts), ts);
  }

  lemma HistoryFine(verb: Verb, ts: seq<Token>, times: Times)
    requires verb == History
    ensures Fine(verb, HistoryRest(ts, times), ts)
  {
    if HistoryRest(ts, times).Ok? {
      HistorySpelled(ts, times);
      SameVerb(HistoryRest(ts, times).value, verb);
    }
    FineIf(verb, HistoryRest(ts, times), ts);
  }

  lemma RelateFine(verb: Verb, ts: seq<Token>, times: Times)
    requires verb == Relate
    ensures Fine(verb, RelateRest(ts), ts)
  {
    if RelateRest(ts).Ok? {
      RelateSpelled(ts);
      SameVerb(RelateRest(ts).value, verb);
    }
    FineIf(verb, RelateRest(ts), ts);
  }

  lemma UnrelateFine(verb: Verb, ts: seq<Token>, times: Times)
    requires verb == Unrelate
    ensures Fine(verb, UnrelateRest(ts), ts)
  {
    if UnrelateRest(ts).Ok? {
      UnrelateSpelled(ts);
      SameVerb(UnrelateRest(ts).value, verb);
    }
    FineIf(verb, UnrelateRest(ts), ts);
  }

  lemma RelatedFine(verb: Verb, ts: seq<Token>, times: Times)
    requires verb == Related
    ensures Fine(verb, RelatedRest(ts, times), ts)
  {
    if RelatedRest(ts, times).Ok? {
      RelatedSpelled(ts, times);
      SameVerb(RelatedRest(ts, times).value, verb);
    }
    FineIf(verb, RelatedRest(ts, times), ts);
  }

  lemma SearchFine(verb: Verb, ts: seq<Token>, times: Times)
    requires verb == Search
    ensures Fine(verb, SearchRest(ts), ts)
  {
    if SearchRest(ts).Ok? {
      SearchSpelled(ts);
      SameVerb(SearchRest(ts).value, verb);
    }
    FineIf(verb, SearchRest(ts), ts);
  }

  lemma PurgeFine(verb: Verb, ts: seq<Token>, times: Times)
    requires verb == Purge
    ensures Fine(verb, PurgeRest(ts, times), ts)
  {
    if PurgeRest(ts, times).Ok? {
      PurgeSpelled(ts, times);
      SameVerb(PurgeRest(ts, times).value, verb);
    }
    FineIf(verb, PurgeRest(ts, times), ts);
  }

  lemma EdgeTypesFine(verb: Verb, ts: seq<Token>, times: Times)
    requires verb == EdgeTypes
    ensures Fine(verb, End(EdgeTypesStmt, ts), ts)
  {
    if ts == [] { SameVerb(EdgeTypesStmt, verb); }
    FineIf(verb, End(EdgeTypesStmt, ts), ts);
  }

  lemma BodySpelled(verb: Verb, ts: seq<Token>, times: Times)
    ensures Fine(verb, RestOf(verb, ts, times), ts)
  {
    if verb == Get {
      GetFine(verb, ts, times);
    } else if verb == Find {
      FindFine(verb, ts, times);
    } else if verb == Put {
      PutFine(verb, ts, times);
    } else if verb == Delete {
      DeleteFine(verb, ts, times);
    } else if verb == History {
      HistoryFine(verb, ts, times);
    } else if verb == Relate {
      RelateFine(verb, ts, times);
    } else if verb == Unrelate {
      UnrelateFine(verb, ts, times);
    } else if verb == Related {
      RelatedFine(verb, ts, times);
    } else if verb == Search {
      SearchFine(verb, ts, times);
    } else if verb == Purge {
      PurgeFine(verb, ts, times);
    } else {
      EdgeTypesFine(verb, ts, times);
    }
  }

  lemma VerbsDiffer(a: string, b: string)
    requires VerbFrom(a).Some? && VerbFrom(a) == VerbFrom(b)
    ensures a == b
  {
  }

  lemma VerbInCapitals(word: string)
    requires VerbFrom(word).Some?
    ensures InCapitals(word)
  {
  }

  /** Every accepted token list spells the statement it is parsed to: nothing is skipped, invented or taken for
      something else. */
  lemma AcceptedTokensSpell(ts: seq<Token>, times: Times)
    requires Statement(ts, times).Ok?
    ensures Spells(ts, Statement(ts, times).value)
  {
    var word := Upper(ts[0].text);
    BodySpelled(VerbFrom(word).value, ts[1..], times);
    VerbsDiffer(word, VerbWord(Statement(ts, times).value));
    VerbInCapitals(word);
    FoldsToKeyword(ts[0].text, word);
  }
}
