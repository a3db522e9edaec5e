/** internal/tql/parser.go: the recursive-descent parser, as a cursor over the token array. */
module Parser {
  import opened Wrappers
  import opened Ast
  import opened Lexer
  import opened Grammar
  import opened Strings
  import Graph

  class TokenCursor {
    const toks: seq<Token>
    const times: Times
    var pos: nat

    /** The array ends in the end-of-input token and the cursor never leaves it. */
    ghost predicate Valid()
      reads this
    {
      pos < |toks| && toks[|toks| - 1] == EOF && forall i :: 0 <= i < |toks| - 1 ==> toks[i].kind != TEof
    }

    /** The tokens left, without the end-of-input token. */
    ghost function Rest(): seq<Token>
      reads this
      requires Valid()
    {
      toks[pos..|toks| - 1]
    }

    /** r is what the grammar makes of the tokens that were left, and the cursor stands where the grammar stops. */
    ghost predicate Tracks<T>(r: Result<T>, spec: Parsed<T>)
      reads this
    {
      Valid() && match spec case Ok((v, rest)) => r == Ok(v) && Rest() == rest case Err => r.Err?
    }

    constructor (toks: seq<Token>, times: Times)
      requires toks != [] && toks[|toks| - 1] == EOF && forall i :: 0 <= i < |toks| - 1 ==> toks[i].kind != TEof
      ensures Valid() && Rest() == toks[..|toks| - 1] && this.times == times
    {
      this.toks, this.times, pos := toks, times, 0;
    }

    // ---- cursor helpers ----

    method PeekToken() returns (t: Token)
      requires Valid()
      ensures t == Peek(Rest())
    {
      t := toks[pos];
    }

    method Next() returns (t: Token)
      requires Valid()
      modifies this
      ensures Valid() && t == Peek(old(Rest()))
      ensures Rest() == if old(Rest()) == [] then [] else old(Rest())[1..]
    {
      t := toks[pos];
      if pos < |toks| - 1 {
        assert toks[pos..|toks| - 1][1..] == toks[pos + 1..|toks| - 1];
        pos := pos + 1;
      }
    }

    method AtWord(kw: string) returns (b: bool)
      requires Valid()
      ensures b == AtKeyword(Rest(), kw)
      ensures InCapitals(kw) ==> (b <==> Peek(Rest()).kind == TIdent && SameWord(Peek(Rest()).text, kw))
    {
      var t := PeekToken();
      if InCapitals(kw) { FoldsToKeyword(t.text, kw); }
      b := t.kind == TIdent && Upper(t.text) == kw;
    }

    method ExpectKeyword(kw: string) returns (r: Result<()>)
      requires Valid()
      modifies this
      ensures Tracks(r, Keyword(old(Rest()), kw))
    {
      var b := AtWord(kw);
      if !b {
        return Err;
      }
      var t := Next();
      r := Ok(());
    }

    method ExpectKind(kind: Kind) returns (r: Result<string>)
      requires Valid() && kind != TEof
      modifies this
      ensures Tracks(r, Expect(old(Rest()), kind))
    {
      var t := PeekToken();
      if t.kind != kind {
        return Err;
      }
      t := Next();
      r := Ok(t.text);
    }

    method ExpectEnd<T>(v: T) returns (r: Result<T>)
      requires Valid()
      ensures r == End(v, Rest())
    {
      var t := PeekToken();
      r := if t.kind != TEof then Err else Ok(v);
    }

    // ---- clauses ----

    method ParsePath() returns (r: Result<(string, string)>)
      requires Valid()
      modifies this
      ensures Tracks(r, PathClause(old(Rest())))
    {
      var c :- ExpectKind(TIdent);
      var _ :- ExpectKind(TSlash);
      var k := PeekToken();
      if k.kind != TIdent && k.kind != TNumber && k.kind != TString {
        return Err;
      }
      k := Next();
      r := Ok((c, k.text));
    }

    method ParseTime() returns (r: Result<string>)
      requires Valid()
      modifies this
      ensures Tracks(r, TimeClause(old(Rest()), times))
    {
      var t :- ExpectKind(TString);
      r := if times(t) then Ok(t) else Err;
    }

    method ParseAsOf() returns (r: Result<string>)
      requires Valid()
      modifies this
      ensures Tracks(r, AsOfClause(old(Rest()), times))
    {
      var _ :- ExpectKeyword("AS");
      var _ :- ExpectKeyword("OF");
      r := ParseTime();
    }

    method ParseOptAsOf() returns (r: Result<Option<string>>)
      requires Valid()
      modifies this
      ensures Tracks(r, OptAsOf(old(Rest()), times))
    {
      var b := AtWord("AS");
      if !b {
        return Ok(None);
      }
      var t :- ParseAsOf();
      r := Ok(Some(t));
    }

    /** parseLimit and parseOffset, behind their keyword. */
    method ParseOptCount(kw: string) returns (r: Result<nat>)
      requires Valid()
      modifies this
      ensures Tracks(r, OptCount(old(Rest()), kw))
    {
      var b := AtWord(kw);
      if !b {
        return Ok(0);
      }
      var _ := Next();
      var n :- ExpectKind(TNumber);
      var count := Count(n);
      r := if count.None? then Err else Ok(count.value);
    }

    method ParseCmpOp() returns (r: Result<CmpOp>)
      requires Valid()
      modifies this
      ensures Tracks(r, CmpOpClause(old(Rest())))
    {
      var t := PeekToken();
      var op := CmpOpOf(t);
      if op.None? {
        return Err;
      }
      var _ := Next();
      r := Ok(op.value);
    }

    method ParseValue() returns (r: Result<Value>)
      requires Valid()
      modifies this
      ensures Tracks(r, ValueClause(old(Rest())))
      decreases |Rest()|, 0
    {
      var t := PeekToken();
      match t.kind {
        case TNumber =>
          var _ := Next();
          if !FitsFloat(t.text) {
            return Err;
          }
          return Ok(NumValue(t.text));
        case TString =>
          var _ := Next();
          return Ok(StrValue(t.text));
        case TIdent =>
          var v := WordValue(t.text);
          if v.None? {
            return Err;
          }
          var _ := Next();
          return Ok(v.value);
        case TLBracket =>
          var _ := Next();
          var b := PeekToken();
          if b.kind == TRBracket {
            var _ := Next();
            return Ok(ArrValue([]));
          }
          var vs :- ParseItems();
          var _ :- ExpectKind(TRBracket);
          return Ok(ArrValue(vs));
        case _ =>
          return Err;
      }
    }

    /** The loop of parseArrayValue. */
    method ParseItems() returns (r: Result<seq<Value>>)
      requires Valid()
      modifies this
      ensures Tracks(r, Items(old(Rest())))
      decreases |Rest()|, 1
    {
      ghost var start := Rest();
      var arr: seq<Value> := [];
      ItemsStart(start);
      while true
        invariant Valid() && |Rest()| <= |start| && ItemsContinue(arr, Rest(), start)
        decreases |Rest()|
      {
        ghost var ts := Rest();
        var v :- ParseValue();
        ItemsStep(arr, ts, v, Rest(), start);
        arr := arr + [v];
        var t := PeekToken();
        if t.kind != TComma {
          return Ok(arr);
        }
        var _ := Next();
      }
    }

    method ParseExpr() returns (r: Result<Expr>)
      requires Valid()
      modifies this
      ensures Tracks(r, ExprClause(old(Rest())))
    {
      ghost var start := Rest();
      var terms: Expr := [];
      ExprStart(start);
      while true
        invariant Valid() && ExprContinues(terms, Rest(), start)
        decreases |Rest()|
      {
        ghost var ts := Rest();
        var field :- ExpectKind(TIdent);
        var op :- ParseCmpOp();
        var v :- ParseValue();
        ExprStep(terms, ts, Cmp(field, op, v), Rest(), start);
        terms := terms + [Cmp(field, op, v)];
        var b := AtWord("AND");
        if !b {
          return Ok(terms);
        }
        var _ := Next();
      }
    }

    method ParseOptWhere() returns (r: Result<Option<Expr>>)
      requires Valid()
      modifies this
      ensures Tracks(r, OptWhere(old(Rest())))
    {
      var b := AtWord("WHERE");
      if !b {
        return Ok(None);
      }
      var _ := Next();
      var e :- ParseExpr();
      r := Ok(Some(e));
    }

    method ParseOptOrder() returns (r: Result<(string, bool)>)
      requires Valid()
      modifies this
      ensures Tracks(r, OptOrder(old(Rest())))
    {
      var b := AtWord("ORDER");
      if !b {
        return Ok(("", false));
      }
      var _ := Next();
      var _ :- ExpectKeyword("BY");
      var f :- ExpectKind(TIdent);
      var desc := AtWord("DESC");
      var asc := AtWord("ASC");
      if desc || asc {
        var _ := Next();
      }
      r := Ok((f, desc));
    }

    method ParseEdge() returns (r: Result<string>)
      requires Valid()
      modifies this
      ensures Tracks(r, EdgeClause(old(Rest())))
    {
      var _ :- ExpectKind(TMinus);
      var t :- ExpectKind(TIdent);
      var _ :- ExpectKind(TArrow);
      r := Ok(t);
    }

    method ParseRelatedEdgeClause() returns (r: Result<seq<string>>)
      requires Valid()
      modifies this
      ensures Tracks(r, RelatedEdgeClause(old(Rest())))
    {
      var _ :- ExpectKind(TMinus);
      var b := PeekToken();
      if b.kind == TLBracket {
        var _ := Next();
        var types :- ParseTypes();
        var _ :- ExpectKind(TRBracket);
        var _ :- ExpectKind(TArrow);
        return Ok(types);
      }
      var t :- ExpectKind(TIdent);
      var _ :- ExpectKind(TArrow);
      r := Ok([t]);
    }

    /** The loop of parseRelatedEdgeClause. */
    method ParseTypes() returns (r: Result<seq<string>>)
      requires Valid()
      modifies this
      ensures Tracks(r, Types(old(Rest())))
    {
      ghost var start := Rest();
      var types: seq<string> := [];
      TypesStart(start);
      while true
        invariant Valid() && TypesContinue(types, Rest(), start)
        decreases |Rest()|
      {
        ghost var ts := Rest();
        var t :- ExpectKind(TIdent);
        TypesStep(types, ts, t, Rest(), start);
        types := types + [t];
        var c := PeekToken();
        if c.kind != TComma {
          return Ok(types);
        }
        var _ := Next();
      }
    }

    method ParseOptEdges() returns (r: Result<seq<string>>)
      requires Valid()
      modifies this
      ensures Tracks(r, OptEdges(old(Rest())))
    {
      var t := PeekToken();
      if t.kind != TMinus {
        return Ok([]);
      }
      r := ParseRelatedEdgeClause();
    }

    method ParseOptDirection() returns (r: Result<Graph.Direction>)
      requires Valid()
      modifies this
      ensures Tracks(r, OptDirection(old(Rest())))
    {
      var b := AtWord("DIRECTION");
      if !b {
        return Ok(Graph.Out);
      }
      var _ := Next();
      var w :- ExpectKind(TIdent);
      var d := DirectionOf(w);
      r := if d.None? then Err else Ok(d.value);
    }

    method ParseOptTimeAfter(kw: string) returns (r: Result<Option<string>>)
      requires Valid()
      modifies this
      ensures Tracks(r, OptTimeAfter(old(Rest()), kw, times))
    {
      var b := AtWord(kw);
      if !b {
        return Ok(None);
      }
      var _ := Next();
      var t :- ParseTime();
      r := Ok(Some(t));
    }

    method ParseOptBetween() returns (r: Result<Option<(string, string)>>)
      requires Valid()
      modifies this
      ensures Tracks(r, OptBetween(old(Rest()), times))
    {
      var b := AtWord("BETWEEN");
      if !b {
        return Ok(None);
      }
      var _ := Next();
      var t1 :- ParseTime();
      var _ :- ExpectKeyword("AND");
      var t2 :- ParseTime();
      r := Ok(Some((t1, t2)));
    }

    method ParseOptJson() returns (r: Result<Option<string>>)
      requires Valid()
      modifies this
      ensures Tracks(r, OptJson(old(Rest())))
    {
      var t := PeekToken();
      if t.kind != TJson {
        return Ok(None);
      }
      var _ := Next();
      r := Ok(Some(t.text));
    }

    // ---- statements, from their verb on ----

    method ParseGet() returns (r: Result<Stmt>)
      requires Valid() && Rest() != []
      modifies this
      ensures r == GetRest(old(Rest())[1..], times)
      ensures Valid() && (r.Ok? ==> Rest() == [])
    {
      var _ := Next();
      var p :- ParsePath();
      var asOf :- ParseOptAsOf();
      r := ExpectEnd(GetStmt(p.0, p.1, asOf));
    }

    method ParseFind() returns (r: Result<Stmt>)
      requires Valid() && Rest() != []
      modifies this
      ensures r == FindRest(old(Rest())[1..], times)
      ensures Valid() && (r.Ok? ==> Rest() == [])
    {
      var _ := Next();
      var c :- ExpectKind(TIdent);
      var filter :- ParseOptWhere();
      var asOf :- ParseOptAsOf();
      var order :- ParseOptOrder();
      var limit :- ParseOptCount("LIMIT");
      var offset :- ParseOptCount("OFFSET");
      r := ExpectEnd(FindStmt(c, filter, asOf, order.0, order.1, limit, offset));
    }

    method ParsePut() returns (r: Result<Stmt>)
      requires Valid() && Rest() != []
      modifies this
      ensures r == PutRest(old(Rest())[1..], times)
      ensures Valid() && (r.Ok? ==> Rest() == [])
    {
      var _ := Next();
      var p :- ParsePath();
      var j :- ExpectKind(TJson);
      var at :- ParseOptTimeAfter("AT");
      r := ExpectEnd(PutStmt(p.0, p.1, j, at));
    }

    method ParseDelete() returns (r: Result<Stmt>)
      requires Valid() && Rest() != []
      modifies this
      ensures r == DeleteRest(old(Rest())[1..])
      ensures Valid() && (r.Ok? ==> Rest() == [])
    {
      var _ := Next();
      var p :- ParsePath();
      r := ExpectEnd(DeleteStmt(p.0, p.1));
    }

    method ParseHistory() returns (r: Result<Stmt>)
      requires Valid() && Rest() != []
      modifies this
      ensures r == HistoryRest(old(Rest())[1..], times)
      ensures Valid() && (r.Ok? ==> Rest() == [])
    {
      var _ := Next();
      var p :- ParsePath();
      var between :- ParseOptBetween();
      r := ExpectEnd(HistoryStmt(p.0, p.1, between));
    }

    method ParseRelate() returns (r: Result<Stmt>)
      requires Valid() && Rest() != []
      modifies this
      ensures r == RelateRest(old(Rest())[1..])
      ensures Valid() && (r.Ok? ==> Rest() == [])
    {
      var _ := Next();
      var from :- ParsePath();
      var typ :- ParseEdge();
      var to :- ParsePath();
      var props :- ParseOptJson();
      r := ExpectEnd(RelateStmt(from, typ, to, props));
    }

    method ParseUnrelate() returns (r: Result<Stmt>)
      requires Valid() && Rest() != []
      modifies this
      ensures r == UnrelateRest(old(Rest())[1..])
      ensures Valid() && (r.Ok? ==> Rest() == [])
    {
      var _ := Next();
      var from :- ParsePath();
      var typ :- ParseEdge();
      var to :- ParsePath();
      r := ExpectEnd(UnrelateStmt(from, typ, to));
    }

    method ParseRelated() returns (r: Result<Stmt>)
      requires Valid() && Rest() != []
      modifies this
      ensures r == RelatedRest(old(Rest())[1..], times)
      ensures Valid() && (r.Ok? ==> Rest() == [])
    {
      var _ := Next();
      var p :- ParsePath();
      var types :- ParseOptEdges();
      var dir :- ParseOptDirection();
      var asOf :- ParseOptAsOf();
      var limit :- ParseOptCount("LIMIT");
      var offset :- ParseOptCount("OFFSET");
      r := ExpectEnd(RelatedStmt(p.0, p.1, types, dir, asOf, limit, offset));
    }

    method ParseSearch() returns (r: Result<Stmt>)
      requires Valid() && Rest() != []
      modifies this
      ensures r == SearchRest(old(Rest())[1..])
      ensures Valid() && (r.Ok? ==> Rest() == [])
    {
      var _ := Next();
      var c :- ExpectKind(TIdent);
      var _ :- ExpectKeyword("NEAR");
      var q :- ExpectKind(TString);
      var filter :- ParseOptWhere();
      var limit :- ParseOptCount("LIMIT");
      var offset :- ParseOptCount("OFFSET");
      r := ExpectEnd(SearchStmt(c, q, filter, limit, offset));
    }

    method ParsePurge() returns (r: Result<Stmt>)
      requires Valid() && Rest() != []
      modifies this
      ensures r == PurgeRest(old(Rest())[1..], times)
      ensures Valid() && (r.Ok? ==> Rest() == [])
    {
      var _ := Next();
      var c :- ExpectKind(TIdent);
      var _ :- ExpectKeyword("BEFORE");
      var t :- ParseTime();
      r := ExpectEnd(PurgeStmt(c, t));
    }

    method ParseEdgeTypes() returns (r: Result<Stmt>)
      requires Valid() && Rest() != []
      modifies this
      ensures r == End(EdgeTypesStmt, old(Rest())[1..])
      ensures Valid() && (r.Ok? ==> Rest() == [])
    {
      var _ := Next();
      r := ExpectEnd(EdgeTypesStmt);
    }

    method ParseStatement() returns (r: Result<Stmt>)
      requires Valid()
      modifies this
      ensures r == Statement(old(Rest()), times)
      ensures Valid() && (r.Ok? ==> Rest() == [])
    {
      var verb := PeekToken();
      if verb.kind != TIdent {
        return Err;
      }
      var v := VerbFrom(Upper(verb.text));
      if v.None? {
        return Err;
      }
      r := ParseAfter(v.value);
    }

    /** The switch over the verbs. */
    method ParseAfter(verb: Verb) returns (r: Result<Stmt>)
      requires Valid() && Rest() != []
      modifies this
      ensures r == RestOf(verb, old(Rest())[1..], times)
      ensures Valid() && (r.Ok? ==> Rest() == [])
    {
      match verb {
        case Get => r := ParseGet();
        case Find => r := ParseFind();
        case Put => r := ParsePut();
        case Delete => r := ParseDelete();
        case History => r := ParseHistory();
        case Relate => r := ParseRelate();
        case Unrelate => r := ParseUnrelate();
        case Related => r := ParseRelated();
        case Search => r := ParseSearch();
        case Purge => r := ParsePurge();
        case EdgeTypes => r := ParseEdgeTypes();
      }
    }
  }

  lemma {:induction false} NoEndWithin(s: string, json: JsonScanner)
    requires Tokens(s, json).Ok?
    ensures forall i :: 0 <= i < |Tokens(s, json).value| ==> Tokens(s, json).value[i].kind != TEof
    decreases |s|
  {
    if SkipSpace(s) != "" {
      LexConsumes(SkipSpace(s), json);
      NoEndWithin(Lex(SkipSpace(s), json).value.1, json);
    }
  }

  method Parse(src: string, json: JsonScanner, times: Times) returns (r: Result<Stmt>)
    ensures r == ParseText(src, json, times)
  {
    var toks :- Tokenize(src, json);
    NoEndWithin(src, json);
    var p := new TokenCursor(toks, times);
    assert toks[..|toks| - 1] == Tokens(src, json).value;
    r := p.ParseStatement();
  }

  // ---- batches ----

  /** unicode.IsSpace. */
  predicate IsUnicodeSpace(c: char) {
    var n := c as int;
    (9 <= n <= 13) || n == 0x20 || n == 0x85 || n == 0xA0 || n == 0x1680 || (0x2000 <= n <= 0x200A)
    || n == 0x2028 || n == 0x2029 || n == 0x202F || n == 0x205F || n == 0x3000
  }

  function TrimLeft(s: string): string { if s != "" && IsUnicodeSpace(s[0]) then TrimLeft(s[1..]) else s }

  function TrimRight(s: string): string {
    if s != "" && IsUnicodeSpace(s[|s| - 1]) then TrimRight(s[..|s| - 1]) else s
  }

  function TrimSpace(s: string): string { TrimRight(TrimLeft(s)) }

  /** One statement a line, and none on a blank one. */
  function Line(line: string, json: JsonScanner, times: Times): Result<seq<Stmt>> {
    if TrimSpace(line) == "" then Ok([]) else
      var s :- ParseText(TrimSpace(line), json, times);
      Ok([s])
  }

  type LineParser = string -> Result<seq<Stmt>>

  function LineParserFor(json: JsonScanner, times: Times): LineParser { line => Line(line, json, times) }

  /** The first bad line fails the batch. */
  function Batch(lines: seq<string>, parse: LineParser): Result<seq<Stmt>> {
    if lines == [] then Ok([]) else Both(Batch(lines[..|lines| - 1], parse), parse(lines[|lines| - 1]))
  }

  function Both(a: Result<seq<Stmt>>, b: Result<seq<Stmt>>): Result<seq<Stmt>> {
    if a.Err? || b.Err? then Err else Ok(a.value + b.value)
  }

  /** The statements of a script, one a line. */
  function BatchOf(src: string, json: JsonScanner, times: Times): Result<seq<Stmt>> {
    Batch(Split(src, '\n'), LineParserFor(json, times))
  }

  /** One line of ParseBatch. */
  method ParseLine(text: string, json: JsonScanner, times: Times) returns (r: Result<seq<Stmt>>)
    ensures r == LineParserFor(json, times)(text)
  {
    var line := TrimSpace(text);
    if line == "" {
      return Ok([]);
    }
    var s :- Parse(line, json, times);
    r := Ok([s]);
  }

  method ParseBatch(src: string, json: JsonScanner, times: Times) returns (r: Result<seq<Stmt>>)
    ensures r == BatchOf(src, json, times)
  {
    ghost var parse := LineParserFor(json, times);
    var lines := Split(src, '\n');
    var stmts: seq<Stmt> := [];
    for i := 0 to |lines|
      invariant Batch(lines[..i], parse) == Ok(stmts)
    {
      BatchNext(lines, i, parse);
      var more :- ParseLine(lines[i], json, times);
      stmts := stmts + more;
    }
    assert lines[..|lines|] == lines;
    r := Ok(stmts);
  }

  lemma BatchNext(lines: seq<string>, i: nat, parse: LineParser)
    requires i < |lines|
    ensures Batch(lines[..i + 1], parse) == Both(Batch(lines[..i], parse), parse(lines[i]))
    ensures Batch(lines[..i + 1], parse).Err? ==> Batch(lines, parse).Err?
  {
    assert lines[..i + 1][..i] == lines[..i];
    BatchConcat(lines[..i + 1], lines[i + 1..], parse);
    assert lines[..i + 1] + lines[i + 1..] == lines;
  }

  lemma {:induction false} BatchConcat(a: seq<string>, b: seq<string>, parse: LineParser)
    ensures Batch(a + b, parse) == Both(Batch(a, parse), Batch(b, parse))
  {
    if b == [] {
      assert a + b == a;
      if Batch(a, parse).Ok? { assert Batch(a, parse).value + [] == Batch(a, parse).value; }
    } else {
      assert (a + b)[..|a + b| - 1] == a + b[..|b| - 1];
      BatchConcat(a, b[..|b| - 1], parse);
      BothIsAssociative(Batch(a, parse), Batch(b[..|b| - 1], parse), parse(b[|b| - 1]));
    }
  }

  lemma BothIsAssociative(x: Result<seq<Stmt>>, y: Result<seq<Stmt>>, z: Result<seq<Stmt>>)
    ensures Both(Both(x, y), z) == Both(x, Both(y, z))
  {
    if x.Ok? && y.Ok? && z.Ok? {
      assert x.value + y.value + z.value == x.value + (y.value + z.value);
    }
  }

  /** Two scripts joined by a newline mean one after the other: ParseBatch accepts them exactly if it accepts both, with
      their statements in order. */
  lemma JoinedBatches(a: string, b: string, json: JsonScanner, times: Times)
    ensures BatchOf(a + "\n" + b, json, times) == Both(BatchOf(a, json, times), BatchOf(b, json, times))
  {
    SplitJoins(a, b, '\n');
    BatchConcat(Split(a, '\n'), Split(b, '\n'), LineParserFor(json, times));
  }

  // ---- white space around and between the lines ----

  predicate Blank(s: string) { forall c :: c in s ==> IsUnicodeSpace(c) }

  /** Unicode's White_Space characters, by their codes. */
  lemma SpaceCharacters(c: char)
    ensures IsUnicodeSpace(c) <==>
            c in "\t\n\U{B}\U{C}\r \U{85}\U{A0}\U{1680}" || c in "\U{2028}\U{2029}\U{202F}\U{205F}\U{3000}"
            || c in "\U{2000}\U{2001}\U{2002}\U{2003}\U{2004}\U{2005}\U{2006}\U{2007}\U{2008}\U{2009}\U{200A}"
  {
  }

  lemma {:induction false} TrimLeftDrops(a: string, t: string)
    requires Blank(a) && (t == "" || !IsUnicodeSpace(t[0]))
    ensures TrimLeft(a + t) == t
  {
    if a == "" {
      assert a + t == t;
    } else {
      TrimLeftDrops(a[1..], t);
      assert (a + t)[1..] == a[1..] + t;
      assert a[0] in a;
    }
  }

  lemma {:induction false} TrimRightDrops(t: string, b: string)
    requires Blank(b) && (t == "" || !IsUnicodeSpace(t[|t| - 1]))
    ensures TrimRight(t + b) == t
  {
    if b == "" {
      assert t + b == t;
    } else {
      TrimRightDrops(t, b[..|b| - 1]);
      assert (t + b)[..|t + b| - 1] == t + b[..|b| - 1];
      assert b[|b| - 1] in b;
    }
  }

  /** t is s without the white space around it. */
  ghost predicate IsTrimmed(s: string, a: string, t: string, b: string) {
    s == a + t + b && Blank(a) && Blank(b)
    && (t == "" || (!IsUnicodeSpace(t[0]) && !IsUnicodeSpace(t[|t| - 1])))
  }

  lemma TrimSpaceDrops(s: string, a: string, t: string, b: string)
    requires IsTrimmed(s, a, t, b)
    ensures TrimSpace(s) == t
  {
    if t == "" {
      assert s == (a + b) + "";
      TrimLeftDrops(a + b, "");
    } else {
      assert s == a + (t + b);
      TrimLeftDrops(a, t + b);
      TrimRightDrops(t, b);
    }
  }

  lemma {:induction false} LeftPart(s: string) returns (a: string)
    ensures s == a + TrimLeft(s) && Blank(a) && (TrimLeft(s) == "" || !IsUnicodeSpace(TrimLeft(s)[0]))
  {
    if s != "" && IsUnicodeSpace(s[0]) {
      a := LeftPart(s[1..]);
      a := [s[0]] + a;
    } else {
      a := "";
    }
  }

  lemma {:induction false} RightPart(s: string) returns (b: string)
    ensures s == TrimRight(s) + b && Blank(b)
    ensures TrimRight(s) == "" || !IsUnicodeSpace(TrimRight(s)[|TrimRight(s)| - 1])
  {
    if s != "" && IsUnicodeSpace(s[|s| - 1]) {
      b := RightPart(s[..|s| - 1]);
      b := b + [s[|s| - 1]];
    } else {
      b := "";
    }
  }

  /** TrimSpace cuts the white space at both ends and nothing else. */
  lemma TrimSpaceParts(s: string) returns (a: string, b: string)
    ensures IsTrimmed(s, a, TrimSpace(s), b)
  {
    a := LeftPart(s);
    b := RightPart(TrimLeft(s));
    var t := TrimSpace(s);
    assert s == a + t + b;
    if t != "" { assert t[0] == TrimLeft(s)[0]; }
  }

  /** White space around a line, such as the CR of a CRLF script, does not matter to it. */
  lemma LineIgnoresSpaceAround(a: string, line: string, b: string, json: JsonScanner, times: Times)
    requires Blank(a) && Blank(b)
    ensures Line(a + line + b, json, times) == Line(line, json, times)
  {
    var x, y := TrimSpaceParts(line);
    var t := TrimSpace(line);
    assert a + line + b == (a + x) + t + (y + b);
    TrimSpaceDrops(a + line + b, a + x, t, y + b);
  }

  /** A line of white space only holds no statement and is no error. */
  lemma BlankLinesAreEmpty(line: string, json: JsonScanner, times: Times)
    requires Blank(line)
    ensures Line(line, json, times) == Ok([])
  {
    LineIgnoresSpaceAround(line, "", "", json, times);
    assert line + "" + "" == line;
  }

  /** A line with anything else on it is one statement or an error. */
  lemma OtherLinesAreStatements(line: string, json: JsonScanner, times: Times)
    requires !Blank(line)
    ensures Line(line, json, times).Ok? ==> |Line(line, json, times).value| == 1
  {
    var a, b := TrimSpaceParts(line);
  }

  /** A blank line adds nothing to a script and does not make it fail. */
  lemma BlankLinesDoNotMatter(a: string, line: string, b: string, json: JsonScanner, times: Times)
    requires Blank(line) && '\n' !in line
    ensures BatchOf(a + "\n" + line + "\n" + b, json, times) == BatchOf(a + "\n" + b, json, times)
  {
    var parse := LineParserFor(json, times);
    JoinedBatches(a + "\n" + line, b, json, times);
    JoinedBatches(a, line, json, times);
    JoinedBatches(a, b, json, times);
    SplitWhole(line, '\n');
    BlankLinesAreEmpty(line, json, times);
    assert Batch([line][..0], parse) == Ok([]);
    var r := BatchOf(a, json, times);
    if r.Ok? { assert r.value + ([] + []) == r.value; }
  }

  // ---- the loops against the recursive grammar ----

  ghost predicate ItemsContinue(arr: seq<Value>, ts: seq<Token>, start: seq<Token>) {
    match Items(ts) case Ok((vs, rest)) => Items(start) == Ok((arr + vs, rest)) case Err => Items(start).Err?
  }

  lemma ItemsStart(start: seq<Token>)
    ensures ItemsContinue([], start, start)
  {
    if Items(start).Ok? { assert [] + Items(start).value.0 == Items(start).value.0; }
  }

  lemma ItemsStep(arr: seq<Value>, ts: seq<Token>, v: Value, ts1: seq<Token>, start: seq<Token>)
    requires ItemsContinue(arr, ts, start) && ValueClause(ts) == Ok((v, ts1))
    ensures if Peek(ts1).kind == TComma then ItemsContinue(arr + [v], ts1[1..], start)
          else Items(start) == Ok((arr + [v], ts1))
  {
    if Peek(ts1).kind == TComma && Items(ts1[1..]).Ok? {
      assert arr + ([v] + Items(ts1[1..]).value.0) == arr + [v] + Items(ts1[1..]).value.0;
    }
  }

  ghost predicate ExprContinues(terms: Expr, ts: seq<Token>, start: seq<Token>) {
    match ExprClause(ts)
    case Ok((e, rest)) => ExprClause(start) == Ok((terms + e, rest))
    case Err => ExprClause(start).Err?
  }

  lemma ExprStart(start: seq<Token>)
    ensures ExprContinues([], start, start)
  {
    if ExprClause(start).Ok? { assert [] + ExprClause(start).value.0 == ExprClause(start).value.0; }
  }

  /** ts starts with one whole term, and ts1 is what follows it. */
  ghost predicate StartsWithTerm(ts: seq<Token>, c: Cmp, ts1: seq<Token>) {
    && Expect(ts, TIdent).Ok? && Expect(ts, TIdent).value.0 == c.field
    && var ts' := Expect(ts, TIdent).value.1;
       CmpOpClause(ts').Ok? && CmpOpClause(ts').value.0 == c.op &&
             ValueClause(CmpOpClause(ts').value.1) == Ok((c.value, ts1))
  }

  lemma ExprStep(terms: Expr, ts: seq<Token>, c: Cmp, ts1: seq<Token>, start: seq<Token>)
    requires ExprContinues(terms, ts, start) && StartsWithTerm(ts, c, ts1)
    ensures if AtKeyword(ts1, "AND") then ExprContinues(terms + [c], ts1[1..], start)
          else ExprClause(start) == Ok((terms + [c], ts1))
  {
    if AtKeyword(ts1, "AND") && ExprClause(ts1[1..]).Ok? {
      assert terms + ([c] + ExprClause(ts1[1..]).value.0) == terms + [c] + ExprClause(ts1[1..]).value.0;
    }
  }

  ghost predicate TypesContinue(types: seq<string>, ts: seq<Token>, start: seq<Token>) {
    match Types(ts) case Ok((more, rest)) => Types(start) == Ok((types + more, rest)) case Err => Types(start).Err?
  }

  lemma TypesStart(start: seq<Token>)
    ensures TypesContinue([], start, start)
  {
    if Types(start).Ok? { assert [] + Types(start).value.0 == Types(start).value.0; }
  }

  lemma TypesStep(types: seq<string>, ts: seq<Token>, t: string, ts1: seq<Token>, start: seq<Token>)
    requires TypesContinue(types, ts, start) && Expect(ts, TIdent) == Ok((t, ts1))
    ensures if Peek(ts1).kind == TComma then TypesContinue(types + [t], ts1[1..], start)
          else Types(start) == Ok((types + [t], ts1))
  {
    if Peek(ts1).kind == TComma && Types(ts1[1..]).Ok? {
      assert types + ([t] + Types(ts1[1..]).value.0) == types + [t] + Types(ts1[1..]).value.0;
    }
  }
}
