/** Every spelling is accepted: with Spelling, the exact language of the parser. */
module Accepting {
  import opened Wrappers
  import opened Decimals
  import opened Ast
  import opened Lexer
  import opened Grammar
  import opened Spelling
  import Graph

  // ---- what the spelling does not say: times, counts and numbers in range ----

  /** What the parser can return: valid times, a WHERE with at least one term, numbers within a float64. */
  predicate Printable(s: Stmt, times: Times) {
    match s
    case GetStmt(_, _, asOf) => OptTime(asOf, times)
    case FindStmt(_, filter, asOf, field, desc, limit, offset) =>
      FitsWhere(filter) && OptTime(asOf, times) && limit <= MAX_INT && offset <= MAX_INT
    case PutStmt(_, _, _, at) => OptTime(at, times)
    case HistoryStmt(_, _, between) => between.Some? ==> times(between.value.0) && times(between.value.1)
    case RelatedStmt(_, _, _, _, asOf, limit, offset) => OptTime(asOf, times) && limit <= MAX_INT && offset <= MAX_INT
    case SearchStmt(_, _, filter, limit, offset) => FitsWhere(filter) && limit <= MAX_INT && offset <= MAX_INT
    case PurgeStmt(_, t) => times(t)
    case _ => true
  }

  predicate FitsWhere(e: Option<Expr>) { e.Some? ==> e.value != [] && FitsExpr(e.value) }

  predicate FitsExpr(e: Expr) { forall c :: c in e ==> FitsValue(c.value) }

  predicate OptTime(t: Option<string>, times: Times) { t.Some? ==> times(t.value) }

  // ---- what may follow a clause ----

  /** rest does not begin with the keyword, so an absent clause stays absent. */
  predicate Not(rest: seq<Token>, kw: string) { !AtKeyword(rest, kw) }

  /** ts is empty or starts with one of the keywords. */
  predicate Starts(ts: seq<Token>, kws: set<string>) { ts == [] || (ts[0].kind == TIdent && Upper(ts[0].text) in kws) }

  lemma StartsWord(a: seq<Token>, rest: seq<Token>, kw: string, kws: set<string>)
    requires InCapitals(kw) && (a == [] || IsWord(a[0], kw)) && Starts(rest, kws)
    ensures Starts(a + rest, kws + {kw})
  {
    if a == [] {
      assert a + rest == rest;
    } else {
      FoldsToKeyword(a[0].text, kw);
    }
  }

  lemma WordIsKeyword(ts: seq<Token>, kw: string)
    requires InCapitals(kw) && ts != [] && IsWord(ts[0], kw)
    ensures AtKeyword(ts, kw)
  {
    KeywordIsWord(ts, kw);
  }

  // ---- clause by clause ----

  lemma PathAccepted(a: seq<Token>, p: (string, string), rest: seq<Token>)
    requires SpellsPath(a, p)
    ensures PathClause(a + rest) == Ok((p, rest))
  {
    var ts := a + rest;
    assert ts[1..][1..] == ts[2..] && ts[2..][1..] == rest;
  }

  lemma NameAccepted(a: seq<Token>, c: string, rest: seq<Token>)
    requires SpellsName(a, c)
    ensures Expect(a + rest, TIdent) == Ok((c, rest))
  {
    assert (a + rest)[1..] == rest;
  }

  lemma AsOfAccepted(a: seq<Token>, t: Option<string>, rest: seq<Token>, times: Times)
    requires SpellsAsOf(a, t) && OptTime(t, times) && Not(rest, "AS")
    ensures OptAsOf(a + rest, times) == Ok((t, rest))
  {
    if t.None? {
      assert a + rest == rest;
    } else {
      var ts := a + rest;
      assert ts[1..][1..] == ts[2..] && ts[2..][1..] == rest;
      WordIsKeyword(ts, "AS");
      WordIsKeyword(ts[1..], "OF");
    }
  }

  lemma CountAccepted(a: seq<Token>, kw: string, n: nat, rest: seq<Token>)
    requires InCapitals(kw) && SpellsCount(a, kw, n) && Not(rest, kw)
    ensures OptCount(a + rest, kw) == Ok((n, rest))
  {
    if a == [] {
      assert a + rest == rest;
    } else {
      var ts := a + rest;
      assert ts[1..][1..] == rest;
      WordIsKeyword(ts, kw);
      NumberSpelled(a[1].text);
    }
  }

  lemma ValueStarts(a: seq<Token>, v: Value)
    requires SpellsValue(a, v)
    ensures a != [] && a[0].kind != TRBracket
  {
  }

  lemma {:induction false} ValueAccepted(a: seq<Token>, v: Value, rest: seq<Token>)
    requires SpellsValue(a, v) && FitsValue(v)
    ensures ValueClause(a + rest) == Ok((v, rest))
    decreases |a|, 1
  {
    if v.ArrValue? {
      ArrayAccepted(a, v.items, rest);
    } else {
      ScalarAccepted(a, v, rest);
    }
  }

  lemma ScalarAccepted(a: seq<Token>, v: Value, rest: seq<Token>)
    requires !v.ArrValue? && SpellsValue(a, v) && FitsValue(v)
    ensures ValueClause(a + rest) == Ok((v, rest))
  {
    assert (a + rest)[1..] == rest && Peek(a + rest) == a[0];
    if a[0].kind == TIdent { WordValues(a[0].text); }
  }

  lemma {:induction false} ArrayAccepted(a: seq<Token>, items: seq<Value>, rest: seq<Token>)
    requires SpellsValue(a, ArrValue(items)) && FitsValue(ArrValue(items))
    ensures ValueClause(a + rest) == Ok((ArrValue(items), rest))
    decreases |a|, 0
  {
    var inner, close := a[1..|a| - 1], [a[|a| - 1]] + rest;
    assert (a + rest)[1..] == inner + close && close[1..] == rest;
    if items == [] {
      assert (a + rest)[2..] == rest && inner == [];
    } else {
      ItemsAccepted(inner, items, close);
      ItemsStart(inner, items);
      ArrayJoin(a + rest, items, inner + close, close);
    }
  }

  lemma ArrayJoin(ts: seq<Token>, items: seq<Value>, ts1: seq<Token>, close: seq<Token>)
    requires ts != [] && ts[0].kind == TLBracket && ts[1..] == ts1 && Peek(ts1).kind != TRBracket
    requires Items(ts1) == Ok((items, close)) && close != [] && close[0].kind == TRBracket
    ensures ValueClause(ts) == Ok((ArrValue(items), close[1..]))
  {
  }

  lemma ItemsStart(a: seq<Token>, items: seq<Value>)
    requires SpellsItems(a, items)
    ensures a != [] && a[0].kind != TRBracket
  {
    if |items| == 1 {
      ValueStarts(a, items[0]);
    } else {
      var i :| 0 <= i < |a| && SpellsValue(a[..i], items[0]) && a[i].kind == TComma &&
        SpellsItems(a[i + 1..], items[1..]);
      ValueStarts(a[..i], items[0]);
    }
  }

  lemma {:induction false} ItemsAccepted(a: seq<Token>, items: seq<Value>, rest: seq<Token>)
    requires SpellsItems(a, items) && Peek(rest).kind != TComma && forall v :: v in items ==> FitsValue(v)
    ensures Items(a + rest) == Ok((items, rest))
    decreases |a|, 2
  {
    var v, others := items[0], items[1..];
    ItemsFit(items);
    if |items| == 1 {
      assert items == [v];
      ValueAccepted(a, v, rest);
      ItemsSingle(a + rest, v, rest);
    } else {
      var i := ItemsSplit(a, items);
      var tail := a[i + 1..] + rest;
      ValueAccepted(a[..i], v, [a[i]] + tail);
      ItemsAccepted(a[i + 1..], others, rest);
      SplitAt(a, i, rest);
      ItemsJoin(a + rest, v, a[i], others, tail, rest);
      assert items == [v] + others;
    }
  }

  lemma ItemsFit(items: seq<Value>)
    requires items != [] && forall v :: v in items ==> FitsValue(v)
    ensures FitsValue(items[0]) && forall v :: v in items[1..] ==> FitsValue(v)
  {
    assert items[0] in items && forall v :: v in items[1..] ==> v in items;
  }

  lemma ItemsSplit(a: seq<Token>, items: seq<Value>) returns (i: nat)
    requires SpellsItems(a, items) && |items| >= 2
    ensures i < |a| && SpellsValue(a[..i], items[0]) && a[i].kind == TComma && SpellsItems(a[i + 1..], items[1..])
  {
    i :| 0 <= i < |a| && SpellsValue(a[..i], items[0]) && a[i].kind == TComma && SpellsItems(a[i + 1..], items[1..]);
  }

  lemma SplitAt(a: seq<Token>, i: nat, rest: seq<Token>)
    requires i < |a|
    ensures a + rest == a[..i] + ([a[i]] + (a[i + 1..] + rest))
    ensures ([a[i]] + (a[i + 1..] + rest))[1..] == a[i + 1..] + rest
  {
  }

  lemma ItemsSingle(ts: seq<Token>, v: Value, rest: seq<Token>)
    requires ValueClause(ts) == Ok((v, rest)) && Peek(rest).kind != TComma
    ensures Items(ts) == Ok(([v], rest))
  {
  }

  lemma ItemsJoin(ts: seq<Token>, v: Value, comma: Token, vs: seq<Value>, tail: seq<Token>, rest: seq<Token>)
    requires comma.kind == TComma && ValueClause(ts) == Ok((v, [comma] + tail)) && Items(tail) == Ok((vs, rest))
    ensures Items(ts) == Ok(([v] + vs, rest))
  {
    assert ([comma] + tail)[1..] == tail;
  }

  lemma TermAccepted(a: seq<Token>, c: Cmp, rest: seq<Token>)
    requires SpellsTerm(a, c) && FitsValue(c.value)
    ensures var ts := a + rest;
            && Expect(ts, TIdent) == Ok((c.field, ts[1..])) && CmpOpClause(ts[1..]) == Ok((c.op, ts[2..]))
            && ValueClause(ts[2..]) == Ok((c.value, rest))
  {
    var ts := a + rest;
    assert ts[1..][1..] == ts[2..] && ts[2..] == a[2..] + rest;
    OpSpelled(a[1], c.op);
    ValueAccepted(a[2..], c.value, rest);
  }

  lemma ExprStep(ts: seq<Token>, ts3: seq<Token>, c: Cmp)
    requires |ts| >= 2 && Expect(ts, TIdent) == Ok((c.field, ts[1..])) && CmpOpClause(ts[1..]) == Ok((c.op, ts[2..]))
    requires ValueClause(ts[2..]) == Ok((c.value, ts3))
    ensures Not(ts3, "AND") ==> ExprClause(ts) == Ok(([c], ts3))
    ensures AtKeyword(ts3, "AND") && ExprClause(ts3[1..]).Ok? ==>
              var (cs, rest) := ExprClause(ts3[1..]).value; ExprClause(ts) == Ok(([c] + cs, rest))
  {
  }

  lemma {:induction false} ExprAccepted(a: seq<Token>, e: Expr, rest: seq<Token>)
    requires SpellsExpr(a, e) && FitsExpr(e) && Not(rest, "AND")
    ensures ExprClause(a + rest) == Ok((e, rest))
    decreases |a|
  {
    var c, others := e[0], e[1..];
    TermsFit(e);
    if |e| == 1 {
      assert e == [c];
      TermAlone(a, c, rest);
    } else {
      var i := ExprSplit(a, e);
      ExprAccepted(a[i + 1..], others, rest);
      SplitAt(a, i, rest);
      TermAnd(a[..i], c, a[i], a[i + 1..] + rest, others, rest, a + rest);
      assert e == [c] + others;
    }
  }

  lemma TermsFit(e: Expr)
    requires e != [] && FitsExpr(e)
    ensures FitsValue(e[0].value) && FitsExpr(e[1..])
  {
    assert e[0] in e && forall c :: c in e[1..] ==> c in e;
  }

  lemma TermAlone(a: seq<Token>, c: Cmp, rest: seq<Token>)
    requires SpellsTerm(a, c) && FitsValue(c.value) && Not(rest, "AND")
    ensures ExprClause(a + rest) == Ok(([c], rest))
  {
    TermAccepted(a, c, rest);
    ExprStep(a + rest, rest, c);
  }

  /** One more term and its AND, in front of an expression. */
  lemma TermAnd(a: seq<Token>, c: Cmp, and: Token, tail: seq<Token>, others: Expr, rest: seq<Token>, ts: seq<Token>)
    requires SpellsTerm(a, c) && FitsValue(c.value) && IsWord(and, "AND") && ts == a + ([and] + tail)
    requires ExprClause(tail) == Ok((others, rest))
    ensures ExprClause(ts) == Ok(([c] + others, rest))
  {
    TermAccepted(a, c, [and] + tail);
    AndFollows(and, tail);
    assert ([and] + tail)[1..] == tail;
    ExprStep(ts, [and] + tail, c);
  }

  lemma ExprSplit(a: seq<Token>, e: Expr) returns (i: nat)
    requires SpellsExpr(a, e) && |e| >= 2
    ensures i < |a| && SpellsTerm(a[..i], e[0]) && IsWord(a[i], "AND") && SpellsExpr(a[i + 1..], e[1..])
  {
    i :| 0 <= i < |a| && SpellsTerm(a[..i], e[0]) && IsWord(a[i], "AND") && SpellsExpr(a[i + 1..], e[1..]);
  }

  lemma AndFollows(t: Token, tail: seq<Token>)
    requires IsWord(t, "AND")
    ensures AtKeyword([t] + tail, "AND")
  {
    WordIsKeyword([t] + tail, "AND");
  }

  lemma WhereAccepted(a: seq<Token>, e: Option<Expr>, rest: seq<Token>)
    requires SpellsWhere(a, e) && FitsWhere(e) && Not(rest, "AND") && Not(rest, "WHERE")
    ensures OptWhere(a + rest) == Ok((e, rest))
  {
    if e.None? {
      assert a + rest == rest;
    } else {
      assert (a + rest)[1..] == a[1..] + rest;
      WordIsKeyword(a + rest, "WHERE");
      ExprAccepted(a[1..], e.value, rest);
    }
  }

  lemma OrderAccepted(a: seq<Token>, field: string, desc: bool, rest: seq<Token>)
    requires SpellsOrder(a, field, desc) && Not(rest, "ORDER") && Not(rest, "DESC") && Not(rest, "ASC")
    ensures OptOrder(a + rest) == Ok(((field, desc), rest))
  {
    if a == [] {
      assert a + rest == rest;
    } else {
      var ts := a + rest;
      assert ts[1..][1..] == ts[2..] && ts[2..][1..] == ts[3..];
      WordIsKeyword(ts, "ORDER");
      WordIsKeyword(ts[1..], "BY");
      if |a| == 4 {
        assert ts[3..][1..] == rest;
        WordIsKeyword(ts[3..], if desc then "DESC" else "ASC");
        AscIsNotDesc(ts[3..]);
      } else {
        assert ts[3..] == rest;
      }
    }
  }

  lemma AscIsNotDesc(ts: seq<Token>)
    ensures !(AtKeyword(ts, "ASC") && AtKeyword(ts, "DESC"))
  {
    assert |"ASC"| != |"DESC"|;
  }

  lemma EdgeAccepted(a: seq<Token>, typ: string, rest: seq<Token>)
    requires SpellsEdge(a, typ)
    ensures EdgeClause(a + rest) == Ok((typ, rest))
  {
    var ts := a + rest;
    assert ts[1..][1..] == ts[2..] && ts[2..][1..] == rest;
  }

  lemma {:induction false} TypesAccepted(a: seq<Token>, types: seq<string>, rest: seq<Token>)
    requires SpellsTypes(a, types) && Peek(rest).kind != TComma
    ensures Types(a + rest) == Ok((types, rest))
    decreases |types|
  {
    var ts := a + rest;
    assert ts[0] == a[0] && Peek(ts) == a[0];
    if |types| == 1 {
      assert types == [types[0]] && ts[1..] == rest;
    } else {
      assert types == [types[0]] + types[1..];
      TypesAccepted(a[2..], types[1..], rest);
      assert ts[1] == a[1] && Peek(ts[1..]) == a[1];
      assert ts[1..][1..] == a[2..] + rest;
    }
  }

  lemma EdgesAccepted(a: seq<Token>, types: seq<string>, rest: seq<Token>)
    requires SpellsEdges(a, types) && Peek(rest).kind != TMinus
    ensures OptEdges(a + rest) == Ok((types, rest))
  {
    if a == [] {
      assert a + rest == rest;
    } else if a[1].kind == TLBracket {
      BracketsAccepted(a, types, rest);
    } else {
      var ts := a + rest;
      assert ts[1..][1..] == ts[2..] && ts[2..][1..] == rest && types == [types[0]];
    }
  }

  lemma BracketsAccepted(a: seq<Token>, types: seq<string>, rest: seq<Token>)
    requires |a| >= 4 && a[0].kind == TMinus && a[1].kind == TLBracket && SpellsTypes(a[2..|a| - 2], types)
    requires a[|a| - 2].kind == TRBracket && a[|a| - 1].kind == TArrow
    ensures RelatedEdgeClause(a + rest) == Ok((types, rest))
  {
    var ts, close := a + rest, a[|a| - 2..] + rest;
    assert ts[1..][1..] == a[2..|a| - 2] + close;
    assert close[1..][1..] == rest;
    TypesAccepted(a[2..|a| - 2], types, close);
  }

  lemma DirectionAccepted(a: seq<Token>, d: Graph.Direction, rest: seq<Token>)
    requires SpellsDirection(a, d) && Not(rest, "DIRECTION")
    ensures OptDirection(a + rest) == Ok((d, rest))
  {
    if a == [] {
      assert a + rest == rest;
    } else {
      var ts := a + rest;
      assert ts[1..][1..] == rest;
      WordIsKeyword(ts, "DIRECTION");
      DirectionWords(a[1].text);
    }
  }

  lemma TimeAfterAccepted(a: seq<Token>, kw: string, t: Option<string>, rest: seq<Token>, times: Times)
    requires InCapitals(kw) && SpellsTimeAfter(a, kw, t) && OptTime(t, times) && Not(rest, kw)
    ensures OptTimeAfter(a + rest, kw, times) == Ok((t, rest))
  {
    if t.None? {
      assert a + rest == rest;
    } else {
      var ts := a + rest;
      assert ts[1..][1..] == rest;
      WordIsKeyword(ts, kw);
    }
  }

  lemma BetweenAccepted(a: seq<Token>, b: Option<(string, string)>, rest: seq<Token>, times: Times)
    requires SpellsBetween(a, b) && (b.Some? ==> times(b.value.0) && times(b.value.1)) && Not(rest, "BETWEEN")
    ensures OptBetween(a + rest, times) == Ok((b, rest))
  {
    if b.None? {
      assert a + rest == rest;
    } else {
      var ts := a + rest;
      assert ts[1..][1..] == ts[2..] && ts[2..][1..] == ts[3..] && ts[3..][1..] == rest;
      WordIsKeyword(ts, "BETWEEN");
      WordIsKeyword(ts[2..], "AND");
    }
  }

  lemma JsonAccepted(a: seq<Token>, j: Option<string>, rest: seq<Token>)
    requires SpellsJson(a, j) && Peek(rest).kind != TJson
    ensures OptJson(a + rest) == Ok((j, rest))
  {
    if j.None? { assert a + rest == rest; } else { assert (a + rest)[1..] == rest; }
  }

  lemma JsonAtEnd(a: seq<Token>, j: Option<string>)
    requires SpellsJson(a, j)
    ensures OptJson(a) == Ok((j, []))
  {
    JsonAccepted(a, j, []);
    assert a + [] == a;
  }

  // ---- whole statements ----

  lemma CountsAccepted(z: seq<Token>, w: seq<Token>, limit: nat, offset: nat, lim: string, off: string)
    requires lim == "LIMIT" && off == "OFFSET" && SpellsCount(z, lim, limit) && SpellsCount(w, off, offset)
    ensures OptCount(z + w, lim) == Ok((limit, w)) && OptCount(w, off) == Ok((offset, []))
    ensures Starts(z + w, {lim, off})
  {
    CountWords();
    assert w + [] == w;
    StartsWord(w, [], off, {});
    CountAccepted(w, off, offset, []);
    CountAccepted(z, lim, limit, w);
    StartsWord(z, w, lim, {off});
    assert {off} + {lim} == {lim, off};
  }

  lemma GetAccepted(s: Stmt, verb: Verb, ts: seq<Token>, times: Times)
    requires s.GetStmt? && verb == Get && Printable(s, times) && SpellsBody(ts, s)
    ensures RestOf(verb, ts, times) == Ok(s)
  {
    var a, b :| ts == a + b && SpellsPath(a, (s.collection, s.key)) && SpellsAsOf(b, s.asOf);
    PathAccepted(a, (s.collection, s.key), b);
    AsOfAccepted(b, s.asOf, [], times);
    assert b + [] == b;
  }

  lemma DeleteAccepted(s: Stmt, verb: Verb, ts: seq<Token>, times: Times)
    requires s.DeleteStmt? && verb == Delete && SpellsBody(ts, s)
    ensures RestOf(verb, ts, times) == Ok(s)
  {
    PathAccepted(ts, (s.collection, s.key), []);
    assert ts + [] == ts;
  }

  lemma HistoryAccepted(s: Stmt, verb: Verb, ts: seq<Token>, times: Times)
    requires s.HistoryStmt? && verb == History && Printable(s, times) && SpellsBody(ts, s)
    ensures RestOf(verb, ts, times) == Ok(s)
  {
    var a, b :| ts == a + b && SpellsPath(a, (s.collection, s.key)) && SpellsBetween(b, s.between);
    PathAccepted(a, (s.collection, s.key), b);
    BetweenAccepted(b, s.between, [], times);
    assert b + [] == b;
  }

  lemma PutAccepted(s: Stmt, verb: Verb, ts: seq<Token>, times: Times, kw: string)
    requires s.PutStmt? && verb == Put && Printable(s, times) && SpellsBody(ts, s) && kw == "AT"
    ensures RestOf(verb, ts, times) == Ok(s)
  {
    var a, b, x := PutUnpacks(ts, s, kw);
    PathAccepted(a, (s.collection, s.key), b + x);
    TimeAfterAccepted(x, kw, s.at, [], times);
    assert (b + x)[1..] == x && x + [] == x;
    PutCompose(s, verb, ts, b + x, x, times, kw);
  }

  lemma PutUnpacks(ts: seq<Token>, s: Stmt, kw: string) returns (a: seq<Token>, b: seq<Token>, x: seq<Token>)
    requires s.PutStmt? && SpellsBody(ts, s) && kw == "AT"
    ensures ts == a + (b + x) && SpellsPath(a, (s.collection, s.key)) && SpellsJson(b, Some(s.json))
    ensures SpellsTimeAfter(x, kw, s.at) && InCapitals(kw)
  {
    a, b, x :| ts == a + (b + x) && SpellsPath(a, (s.collection, s.key)) && SpellsJson(b, Some(s.json)) &&
          SpellsTimeAfter(x, kw, s.at);
  }

  lemma PutCompose(s: Stmt, verb: Verb, t0: seq<Token>, t1: seq<Token>, t2: seq<Token>, times: Times, kw: string)
    requires s.PutStmt? && verb == Put && kw == "AT" && PathClause(t0) == Ok(((s.collection, s.key), t1))
    requires Expect(t1, TJson) == Ok((s.json, t2)) && OptTimeAfter(t2, kw, times) == Ok((s.at, []))
    ensures RestOf(verb, t0, times) == Ok(s)
  {
  }

  lemma EndsAccepted(from: (string, string), typ: string, to: (string, string), a: seq<Token>, b: seq<Token>,
                     x: seq<Token>, rest: seq<Token>)
    requires SpellsPath(a, from) && SpellsEdge(b, typ) && SpellsPath(x, to)
    ensures EdgeEnds(a + (b + (x + rest))) == Ok(((from, typ, to), rest))
  {
    PathAccepted(a, from, b + (x + rest));
    EdgeAccepted(b, typ, x + rest);
    PathAccepted(x, to, rest);
  }

  lemma RelateCompose(s: Stmt, verb: Verb, t0: seq<Token>, t1: seq<Token>, times: Times)
    requires s.RelateStmt? && verb == Relate
    requires EdgeEnds(t0) == Ok(((s.from, s.edgeType, s.to), t1)) && OptJson(t1) == Ok((s.props, []))
    ensures RestOf(verb, t0, times) == Ok(s)
  {
  }

  lemma RelateUnpacks(ts: seq<Token>, s: Stmt)
    returns (a: seq<Token>, b: seq<Token>, x: seq<Token>, y: seq<Token>)
    requires s.RelateStmt? && SpellsBody(ts, s)
    ensures ts == a + (b + (x + y)) && SpellsPath(a, s.from) && SpellsEdge(b, s.edgeType)
    ensures SpellsPath(x, s.to) && SpellsJson(y, s.props)
  {
    a, b, x, y :| ts == a + (b + (x + y)) && SpellsPath(a, s.from) && SpellsEdge(b, s.edgeType) &&
          SpellsPath(x, s.to) && SpellsJson(y, s.props);
  }

  lemma RelateAccepted(s: Stmt, verb: Verb, ts: seq<Token>, times: Times)
    requires s.RelateStmt? && verb == Relate && SpellsBody(ts, s)
    ensures RestOf(verb, ts, times) == Ok(s)
  {
    var a, b, x, y := RelateUnpacks(ts, s);
    EndsAccepted(s.from, s.edgeType, s.to, a, b, x, y);
    JsonAtEnd(y, s.props);
    RelateCompose(s, verb, ts, y, times);
  }

  lemma UnrelateCompose(s: Stmt, verb: Verb, t0: seq<Token>, times: Times)
    requires s.UnrelateStmt? && verb == Unrelate && EdgeEnds(t0) == Ok(((s.from, s.edgeType, s.to), []))
    ensures RestOf(verb, t0, times) == Ok(s)
  {
  }

  lemma UnrelateUnpacks(ts: seq<Token>, s: Stmt) returns (a: seq<Token>, b: seq<Token>, x: seq<Token>)
    requires s.UnrelateStmt? && SpellsBody(ts, s)
    ensures ts == a + (b + x) && SpellsPath(a, s.from) && SpellsEdge(b, s.edgeType) && SpellsPath(x, s.to)
  {
    a, b, x :| ts == a + (b + x) && SpellsPath(a, s.from) && SpellsEdge(b, s.edgeType) && SpellsPath(x, s.to);
  }

  lemma UnrelateAccepted(s: Stmt, verb: Verb, ts: seq<Token>, times: Times)
    requires s.UnrelateStmt? && verb == Unrelate && SpellsBody(ts, s)
    ensures RestOf(verb, ts, times) == Ok(s)
  {
    var a, b, x := UnrelateUnpacks(ts, s);
    EndsAccepted(s.from, s.edgeType, s.to, a, b, x, []);
    assert x + [] == x;
    UnrelateCompose(s, verb, ts, times);
  }

  lemma FindCompose(s: Stmt, verb: Verb, t0: seq<Token>, t1: seq<Token>, t2: seq<Token>, t3: seq<Token>,
        t4: seq<Token>, t5: seq<Token>, times: Times)
    requires s.FindStmt? && verb == Find && Expect(t0, TIdent) == Ok((s.collection, t1)) &&
          OptWhere(t1) == Ok((s.filter, t2))
    requires OptAsOf(t2, times) == Ok((s.asOf, t3)) && OptOrder(t3) == Ok(((s.orderBy, s.desc), t4))
    requires OptCount(t4, "LIMIT") == Ok((s.limit, t5)) && OptCount(t5, "OFFSET") == Ok((s.offset, []))
    ensures RestOf(verb, t0, times) == Ok(s)
  {
  }

  lemma OrderPart(y: seq<Token>, field: string, desc: bool, t4: seq<Token>)
    requires SpellsOrder(y, field, desc) && Starts(t4, {"LIMIT", "OFFSET"})
    ensures OptOrder(y + t4) == Ok(((field, desc), t4)) && Starts(y + t4, {"ORDER", "LIMIT", "OFFSET"})
  {
    OrderAccepted(y, field, desc, t4);
    StartsWord(y, t4, "ORDER", {"LIMIT", "OFFSET"});
    assert {"LIMIT", "OFFSET"} + {"ORDER"} == {"ORDER", "LIMIT", "OFFSET"};
  }

  lemma AsOfPart(x: seq<Token>, asOf: Option<string>, t3: seq<Token>, times: Times)
    requires SpellsAsOf(x, asOf) && OptTime(asOf, times) && Starts(t3, {"ORDER", "LIMIT", "OFFSET"})
    ensures OptAsOf(x + t3, times) == Ok((asOf, t3)) && Starts(x + t3, {"AS", "ORDER", "LIMIT", "OFFSET"})
  {
    AsOfAccepted(x, asOf, t3, times);
    StartsWord(x, t3, "AS", {"ORDER", "LIMIT", "OFFSET"});
    assert {"ORDER", "LIMIT", "OFFSET"} + {"AS"} == {"AS", "ORDER", "LIMIT", "OFFSET"};
  }

  lemma FindUnpacks(ts: seq<Token>, s: Stmt, lim: string, off: string)
    returns (a: seq<Token>, b: seq<Token>, x: seq<Token>, y: seq<Token>, z: seq<Token>, w: seq<Token>)
    requires s.FindStmt? && SpellsBody(ts, s) && lim == "LIMIT" && off == "OFFSET"
    ensures ts == a + (b + (x + (y + (z + w)))) && SpellsName(a, s.collection) && SpellsWhere(b, s.filter)
    ensures SpellsAsOf(x, s.asOf) && SpellsOrder(y, s.orderBy, s.desc)
    ensures SpellsCount(z, lim, s.limit) && SpellsCount(w, off, s.offset)
  {
    a, b, x, y, z, w :| ts == a + (b + (x + (y + (z + w))))
      && SpellsName(a, s.collection) && SpellsWhere(b, s.filter) && SpellsAsOf(x, s.asOf)
      && SpellsOrder(y, s.orderBy, s.desc) && SpellsCount(z, lim, s.limit) && SpellsCount(w, off, s.offset);
  }

  lemma FindAccepted(s: Stmt, verb: Verb, ts: seq<Token>, times: Times, lim: string, off: string)
    requires s.FindStmt? && verb == Find && Printable(s, times) && SpellsBody(ts, s)
    requires lim == "LIMIT" && off == "OFFSET"
    ensures RestOf(verb, ts, times) == Ok(s)
  {
    var a, b, x, y, z, w := FindUnpacks(ts, s, lim, off);
    var t4 := z + w;
    var t3 := y + t4;
    var t2 := x + t3;
    CountsAccepted(z, w, s.limit, s.offset, lim, off);
    OrderPart(y, s.orderBy, s.desc, t4);
    AsOfPart(x, s.asOf, t3, times);
    WhereAccepted(b, s.filter, t2);
    NameAccepted(a, s.collection, b + t2);
    FindCompose(s, verb, ts, b + t2, t2, t3, t4, w, times);
  }

  lemma RelatedCompose(s: Stmt, verb: Verb, t0: seq<Token>, t1: seq<Token>, t2: seq<Token>, t3: seq<Token>,
        t4: seq<Token>, t5: seq<Token>, times: Times)
    requires s.RelatedStmt? && verb == Related && PathClause(t0) == Ok(((s.collection, s.key), t1)) &&
          OptEdges(t1) == Ok((s.edgeTypes, t2))
    requires OptDirection(t2) == Ok((s.direction, t3)) && OptAsOf(t3, times) == Ok((s.asOf, t4))
    requires OptCount(t4, "LIMIT") == Ok((s.limit, t5)) && OptCount(t5, "OFFSET") == Ok((s.offset, []))
    ensures RestOf(verb, t0, times) == Ok(s)
  {
  }

  lemma DirectionPart(x: seq<Token>, d: Graph.Direction, t3: seq<Token>)
    requires SpellsDirection(x, d) && Starts(t3, {"AS", "ORDER", "LIMIT", "OFFSET"})
    ensures OptDirection(x + t3) == Ok((d, t3)) && Peek(x + t3).kind != TMinus
  {
    DirectionAccepted(x, d, t3);
    if x == [] { assert x + t3 == t3; }
  }

  lemma RelatedAccepted(s: Stmt, verb: Verb, ts: seq<Token>, times: Times, lim: string, off: string)
    requires s.RelatedStmt? && verb == Related && Printable(s, times) && SpellsBody(ts, s)
    requires lim == "LIMIT" && off == "OFFSET"
    ensures RestOf(verb, ts, times) == Ok(s)
  {
    var a, b, x, y, z, w :| ts == a + (b + (x + (y + (z + w))))
      && SpellsPath(a, (s.collection, s.key)) && SpellsEdges(b, s.edgeTypes) && SpellsDirection(x, s.direction)
      && SpellsAsOf(y, s.asOf) && SpellsCount(z, lim, s.limit) && SpellsCount(w, off, s.offset);
    var t4 := z + w;
    var t3 := y + t4;
    var t2 := x + t3;
    CountsAccepted(z, w, s.limit, s.offset, lim, off);
    AsOfPart(y, s.asOf, t4, times);
    DirectionPart(x, s.direction, t3);
    EdgesAccepted(b, s.edgeTypes, t2);
    PathAccepted(a, (s.collection, s.key), b + t2);
    RelatedCompose(s, verb, ts, b + t2, t2, t3, t4, w, times);
  }

  lemma SearchCompose(s: Stmt, verb: Verb, t0: seq<Token>, t1: seq<Token>, t2: seq<Token>, t3: seq<Token>,
        t4: seq<Token>, t5: seq<Token>, times: Times)
    requires s.SearchStmt? && verb == Search && Expect(t0, TIdent) == Ok((s.collection, t1)) &&
          Keyword(t1, "NEAR") == Ok(((), t2))
    requires Expect(t2, TString) == Ok((s.query, t3)) && OptWhere(t3) == Ok((s.filter, t4))
    requires OptCount(t4, "LIMIT") == Ok((s.limit, t5)) && OptCount(t5, "OFFSET") == Ok((s.offset, []))
    ensures RestOf(verb, t0, times) == Ok(s)
  {
  }

  lemma NearAccepted(a: seq<Token>, c: string, q: string, t3: seq<Token>)
    requires SpellsNear(a, c, q)
    ensures var t0 := a + t3;
            && Expect(t0, TIdent) == Ok((c, t0[1..])) && Keyword(t0[1..], "NEAR") == Ok(((), t0[2..]))
            && Expect(t0[2..], TString) == Ok((q, t3))
  {
    var t0 := a + t3;
    assert t0[1..][1..] == t0[2..] && t0[2..][1..] == t3;
    WordIsKeyword(t0[1..], "NEAR");
  }

  lemma SearchAccepted(s: Stmt, verb: Verb, ts: seq<Token>, times: Times, lim: string, off: string)
    requires s.SearchStmt? && verb == Search && Printable(s, times) && SpellsBody(ts, s)
    requires lim == "LIMIT" && off == "OFFSET"
    ensures RestOf(verb, ts, times) == Ok(s)
  {
    var a, b, x, y :| ts == a + (b + (x + y)) && SpellsNear(a, s.collection, s.query) && SpellsWhere(b, s.filter)
      && SpellsCount(x, lim, s.limit) && SpellsCount(y, off, s.offset);
    var t4 := x + y;
    CountsAccepted(x, y, s.limit, s.offset, lim, off);
    WhereAccepted(b, s.filter, t4);
    NearAccepted(a, s.collection, s.query, b + t4);
    SearchCompose(s, verb, ts, ts[1..], ts[2..], b + t4, t4, y, times);
  }

  lemma PurgeAccepted(s: Stmt, verb: Verb, ts: seq<Token>, times: Times)
    requires s.PurgeStmt? && verb == Purge && Printable(s, times) && SpellsBody(ts, s)
    ensures RestOf(verb, ts, times) == Ok(s)
  {
    assert ts[1..][1..] == ts[2..] && ts[2..][1..] == [];
    WordIsKeyword(ts[1..], "BEFORE");
  }

  lemma BodyAccepted(s: Stmt, verb: Verb, ts: seq<Token>, times: Times)
    requires HasVerb(s, verb) && Printable(s, times) && SpellsBody(ts, s)
    ensures RestOf(verb, ts, times) == Ok(s)
  {
    if verb == Get {
      GetAccepted(s, verb, ts, times);
    } else if verb == Find {
      FindAccepted(s, verb, ts, times, "LIMIT", "OFFSET");
    } else if verb == Put {
      PutAccepted(s, verb, ts, times, "AT");
    } else if verb == Delete {
      DeleteAccepted(s, verb, ts, times);
    } else if verb == History {
      HistoryAccepted(s, verb, ts, times);
    } else if verb == Relate {
      RelateAccepted(s, verb, ts, times);
    } else if verb == Unrelate {
      UnrelateAccepted(s, verb, ts, times);
    } else if verb == Related {
      RelatedAccepted(s, verb, ts, times, "LIMIT", "OFFSET");
    } else if verb == Search {
      SearchAccepted(s, verb, ts, times, "LIMIT", "OFFSET");
    } else if verb == Purge {
      PurgeAccepted(s, verb, ts, times);
    } else {
      EdgeTypesAccepted(s, verb, ts, times);
    }
  }

  lemma EdgeTypesAccepted(s: Stmt, verb: Verb, ts: seq<Token>, times: Times)
    requires s.EdgeTypesStmt? && verb == EdgeTypes && SpellsBody(ts, s)
    ensures RestOf(verb, ts, times) == Ok(s)
  {
  }

  lemma VerbWordsAreVerbs(s: Stmt)
    ensures VerbFrom(VerbWord(s)).Some? && HasVerb(s, VerbFrom(VerbWord(s)).value) && InCapitals(VerbWord(s))
  {
  }

  /** Every spelling of a statement is accepted as it. */
  lemma SpellingsAreAccepted(ts: seq<Token>, s: Stmt, times: Times)
    requires Spelling.Spells(ts, s) && Printable(s, times)
    ensures Statement(ts, times) == Ok(s)
  {
    VerbWordsAreVerbs(s);
    FoldsToKeyword(ts[0].text, VerbWord(s));
    BodyAccepted(s, VerbFrom(VerbWord(s)).value, ts[1..], times);
  }

  // ---- and nothing else ----

  lemma ClausesArePrintable(ts: seq<Token>, times: Times, kw: string)
    ensures OptAsOf(ts, times).Ok? ==> OptTime(OptAsOf(ts, times).value.0, times)
    ensures OptTimeAfter(ts, kw, times).Ok? ==> OptTime(OptTimeAfter(ts, kw, times).value.0, times)
    ensures OptCount(ts, kw).Ok? ==> OptCount(ts, kw).value.0 <= MAX_INT
    ensures OptWhere(ts).Ok? ==> FitsWhere(OptWhere(ts).value.0)
    ensures OptBetween(ts, times).Ok? ==>
              var b := OptBetween(ts, times).value.0; b.Some? ==> times(b.value.0) && times(b.value.1)
  {
    if AtKeyword(ts, "WHERE") { ParsedExprFits(ts[1..]); }
  }

  lemma {:induction false} ParsedValueFits(ts: seq<Token>)
    ensures ValueClause(ts).Ok? ==> FitsValue(ValueClause(ts).value.0)
    decreases |ts|, 0
  {
    if Peek(ts).kind == TLBracket && Peek(ts[1..]).kind != TRBracket {
      ParsedItemsFit(ts[1..]);
    }
  }

  lemma {:induction false} ParsedItemsFit(ts: seq<Token>)
    ensures Items(ts).Ok? ==> forall v :: v in Items(ts).value.0 ==> FitsValue(v)
    decreases |ts|, 1
  {
    ParsedValueFits(ts);
    if ValueClause(ts).Ok? && Peek(ValueClause(ts).value.1).kind == TComma {
      ParsedItemsFit(ValueClause(ts).value.1[1..]);
    }
  }

  lemma {:induction false} ParsedExprFits(ts: seq<Token>)
    ensures ExprClause(ts).Ok? ==> FitsExpr(ExprClause(ts).value.0)
    decreases |ts|
  {
    if ExprClause(ts).Ok? {
      var ts2 := CmpOpClause(Expect(ts, TIdent).value.1).value.1;
      ParsedValueFits(ts2);
      var ts3 := ValueClause(ts2).value.1;
      if AtKeyword(ts3, "AND") { ParsedExprFits(ts3[1..]); }
    }
  }

  lemma FindIsPrintable(ts: seq<Token>, times: Times)
    requires FindRest(ts, times).Ok?
    ensures Printable(FindRest(ts, times).value, times)
  {
    var ts1 := Expect(ts, TIdent).value.1;
    var ts2 := OptWhere(ts1).value.1;
    var ts3 := OptAsOf(ts2, times).value.1;
    var ts4 := OptOrder(ts3).value.1;
    var ts5 := OptCount(ts4, "LIMIT").value.1;
    ClausesArePrintable(ts1, times, "");
    ClausesArePrintable(ts2, times, "");
    ClausesArePrintable(ts4, times, "LIMIT");
    ClausesArePrintable(ts5, times, "OFFSET");
  }

  lemma RelatedIsPrintable(ts: seq<Token>, times: Times)
    requires RelatedRest(ts, times).Ok?
    ensures Printable(RelatedRest(ts, times).value, times)
  {
    var ts1 := PathClause(ts).value.1;
    var ts2 := OptEdges(ts1).value.1;
    var ts3 := OptDirection(ts2).value.1;
    var ts4 := OptAsOf(ts3, times).value.1;
    var ts5 := OptCount(ts4, "LIMIT").value.1;
    ClausesArePrintable(ts3, times, "");
    ClausesArePrintable(ts4, times, "LIMIT");
    ClausesArePrintable(ts5, times, "OFFSET");
  }

  lemma SearchIsPrintable(ts: seq<Token>, times: Times)
    requires SearchRest(ts).Ok?
    ensures Printable(SearchRest(ts).value, times)
  {
    var ts1 := Expect(ts, TIdent).value.1;
    var ts2 := Keyword(ts1, "NEAR").value.1;
    var ts3 := Expect(ts2, TString).value.1;
    var ts4 := OptWhere(ts3).value.1;
    var ts5 := OptCount(ts4, "LIMIT").value.1;
    ClausesArePrintable(ts3, times, "");
    ClausesArePrintable(ts4, times, "LIMIT");
    ClausesArePrintable(ts5, times, "OFFSET");
  }

  lemma OthersArePrintable(ts: seq<Token>, times: Times)
    ensures GetRest(ts, times).Ok? ==> Printable(GetRest(ts, times).value, times)
    ensures PutRest(ts, times).Ok? ==> Printable(PutRest(ts, times).value, times)
    ensures HistoryRest(ts, times).Ok? ==> Printable(HistoryRest(ts, times).value, times)
  {
    if PathClause(ts).Ok? {
      var ts1 := PathClause(ts).value.1;
      ClausesArePrintable(ts1, times, "");
      if Expect(ts1, TJson).Ok? { ClausesArePrintable(Expect(ts1, TJson).value.1, times, "AT"); }
    }
  }

  ghost predicate InRange(r: Result<Stmt>, times: Times) { r.Ok? ==> Printable(r.value, times) }

  lemma PlainOnesArePrintable(ts: seq<Token>, times: Times)
    ensures InRange(DeleteRest(ts), times) && InRange(RelateRest(ts), times) && InRange(UnrelateRest(ts), times)
    ensures InRange(PurgeRest(ts, times), times) && InRange(End(EdgeTypesStmt, ts), times)
  {
  }

  lemma AllArePrintable(ts: seq<Token>, times: Times)
    ensures InRange(FindRest(ts, times), times) && InRange(RelatedRest(ts, times), times)
    ensures InRange(SearchRest(ts), times) && InRange(GetRest(ts, times), times)
    ensures InRange(PutRest(ts, times), times) && InRange(HistoryRest(ts, times), times)
  {
    OthersArePrintable(ts, times);
    if FindRest(ts, times).Ok? { FindIsPrintable(ts, times); }
    if RelatedRest(ts, times).Ok? { RelatedIsPrintable(ts, times); }
    if SearchRest(ts).Ok? { SearchIsPrintable(ts, times); }
  }

  lemma BodiesArePrintable(verb: Verb, rest: seq<Token>, times: Times)
    ensures InRange(RestOf(verb, rest, times), times)
  {
    PlainOnesArePrintable(rest, times);
    AllArePrintable(rest, times);
  }

  /** The exact language of the parser: it reads a token list as a statement if and only if the list spells the
      statement, with its times, counts and numbers in range. */
  lemma AcceptedIff(ts: seq<Token>, s: Stmt, times: Times)
    ensures Statement(ts, times) == Ok(s) <==> Spelling.Spells(ts, s) && Printable(s, times)
  {
    if Statement(ts, times) == Ok(s) {
      AcceptedTokensSpell(ts, times);
      BodiesArePrintable(VerbFrom(Upper(ts[0].text)).value, ts[1..], times);
    }
    if Spelling.Spells(ts, s) && Printable(s, times) {
      SpellingsAreAccepted(ts, s, times);
    }
  }

  /** So no token list spells two statements. */
  lemma OneReading(ts: seq<Token>, s: Stmt, t: Stmt, times: Times)
    requires Spelling.Spells(ts, s) && Spelling.Spells(ts, t) && Printable(s, times) && Printable(t, times)
    ensures s == t
  {
    AcceptedIff(ts, s, times);
    AcceptedIff(ts, t, times);
  }
}
