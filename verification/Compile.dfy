/** internal/tql/compile.go: WHERE compiled to SQL over live.value, and what SQLite makes of it. */
module Compile {
  import opened Wrappers
  import opened Json
  import opened Ast
  import opened Match
  import Strings

  /** One clause of the SQL text, with as many placeholders as its text holds. */
  datatype Clause = IsNull | IsNotNull | Compare(op: CmpOp) | Never | InList(n: nat) | EachContains

  /** A bound parameter. A Go slice cannot be bound. */
  datatype Arg = TextArg(s: string) | NumArg(n: real) | NullArg | Unbindable

  function SqlValue(v: Value): Arg {
    match v
    case NullValue => NullArg
    case BoolValue(b) => NumArg(if b then 1.0 else 0.0)
    case NumValue(lexeme) => NumArg(Decimal(lexeme))
    case StrValue(s) => TextArg(s)
    case ArrValue(_) => Unbindable
  }

  function SqlValues(vs: seq<Value>): (r: seq<Arg>)
    ensures |r| == |vs| && forall i :: 0 <= i < |vs| ==> r[i] == SqlValue(vs[i])
  {
    seq(|vs|, i requires 0 <= i < |vs| => SqlValue(vs[i]))
  }

  /** compileTerm; None is its error. */
  function CompileTerm(path: string, op: CmpOp, value: Value): Option<(Clause, seq<Arg>)> {
    match op
    case Eq => if value.NullValue? then Some((IsNull, [TextArg(path)]))
          else Some((Compare(Eq), [TextArg(path), SqlValue(value)]))
    case Neq => if value.NullValue? then Some((IsNotNull, [TextArg(path)]))
          else Some((Compare(Neq), [TextArg(path), SqlValue(value)]))
    case In =>
      if !value.ArrValue? then None
      else if value.items == [] then Some((Never, []))
      else Some((InList(|value.items|), [TextArg(path)] + SqlValues(value.items)))
    case Contains => Some((EachContains, [TextArg(path), SqlValue(value)]))
    case _ => Some((Compare(op), [TextArg(path), SqlValue(value)]))
  }

  function Join(expr: Expr): Option<(seq<Clause>, seq<Arg>)> {
    if expr == [] then Some(([], [])) else
      var rest, last := Join(expr[..|expr| - 1]), CompileTerm("$." + expr[|expr| - 1].field, expr[|expr| - 1].op,
            expr[|expr| - 1].value);
      if rest.None? || last.None? then None else Some((rest.value.0 + [last.value.0], rest.value.1 + last.value.1))
  }

  method CompileExpr(expr: Option<Expr>) returns (r: Option<(seq<Clause>, seq<Arg>)>)
    ensures r == Join(if expr.None? then [] else expr.value)
    ensures r.None? <==> expr.Some? && exists t :: t in expr.value && t.op == In && !t.value.ArrValue?
  {
    CompileFailsIff(if expr.None? then [] else expr.value);
    if expr.None? || |expr.value| == 0 {
      return Some(([], []));
    }
    var clauses: seq<Clause>, args: seq<Arg> := [], [];
    for i := 0 to |expr.value|
      invariant Join(expr.value[..i]) == Some((clauses, args))
    {
      var term := expr.value[i];
      assert expr.value[..i + 1][..i] == expr.value[..i];
      var c := CompileTerm("$." + term.field, term.op, term.value);
      if c.None? {
        JoinFails(expr.value, i + 1);
        return None;
      }
      clauses := clauses + [c.value.0];
      args := args + c.value.1;
    }
    assert expr.value[..|expr.value|] == expr.value;
    r := Some((clauses, args));
  }

  lemma {:induction false} JoinFails(expr: Expr, i: nat)
    requires i <= |expr| && Join(expr[..i]).None?
    ensures Join(expr).None?
  {
    if i < |expr| {
      assert expr[..|expr| - 1][..i] == expr[..i];
      JoinFails(expr[..|expr| - 1], i);
    } else {
      assert expr[..i] == expr;
    }
  }

  // ---- SQLite ----

  datatype Truth = True | False | Unknown

  function And(a: Truth, b: Truth): Truth {
    if a == False || b == False then False else if a == True && b == True then True else Unknown
  }

  function TruthOf(b: bool): Truth { if b then True else False }

  datatype Sql = SqlNull | SqlNum(n: real) | SqlText(s: string)

  /** The text SQLite renders for an array or object. */
  type Render = Json -> string

  function ToSql(j: Json, render: Render): Sql {
    match j
    case Null => SqlNull
    case Bool(b) => SqlNum(if b then 1.0 else 0.0)
    case Num(n) => SqlNum(n)
    case Str(s) => SqlText(s)
    case _ => SqlText(render(j))
  }

  function Bound(a: Arg): Sql {
    match a
    case TextArg(s) => SqlText(s)
    case NumArg(n) => SqlNum(n)
    case _ => SqlNull
  }

  /** Every number sorts before every text. */
  predicate SqlLess(a: Sql, b: Sql) {
    (a.SqlNum? && b.SqlNum? && a.n < b.n) || (a.SqlNum? && b.SqlText?) || (a.SqlText? && b.SqlText? &&
          Strings.Less(a.s, b.s))
  }

  /** Comparison with NULL is unknown. */
  function SqlCompare(op: CmpOp, a: Sql, b: Sql): Truth {
    if a.SqlNull? || b.SqlNull? then Unknown
    else match op
      case Eq => TruthOf(a == b)
      case Neq => TruthOf(a != b)
      case Lt => TruthOf(SqlLess(a, b))
      case Lte => TruthOf(SqlLess(a, b) || a == b)
      case Gt => TruthOf(SqlLess(b, a))
      case Gte => TruthOf(SqlLess(b, a) || a == b)
      case _ => Unknown
  }

  /** The element a "$.a.b" path names. */
  function AtPath(doc: Json, path: Arg): Option<Json> {
    if path.TextArg? && |path.s| >= 2 then Lookup(doc, Strings.Split(path.s[2..], '.')) else None
  }

  function JsonExtract(doc: Json, path: Arg, render: Render): Sql {
    var j := AtPath(doc, path);
    if j.None? then SqlNull else ToSql(j.value, render)
  }

  /** x IN (...): true on a match, else unknown if x or an element is NULL. */
  function SqlIn(x: Sql, list: seq<Arg>): Truth {
    if list == [] then False
    else if x.SqlNull? then Unknown
    else if exists a :: a in list && Bound(a) == x then True
    else if exists a :: a in list && Bound(a).SqlNull? then Unknown
    else False
  }

  /** Some row of json_each(j) has value = arg: array elements, object members, or the scalar itself. */
  ghost predicate SomeEach(j: Json, arg: Arg, render: Render) {
    match j
    case Arr(items) => exists x :: x in items && SqlCompare(Eq, ToSql(x, render), Bound(arg)) == True
    case Obj(fields) => exists k :: k in fields && SqlCompare(Eq, ToSql(fields[k], render), Bound(arg)) == True
    case _ => SqlCompare(Eq, ToSql(j, render), Bound(arg)) == True
  }

  function Arity(c: Clause): nat {
    match c
    case IsNull => 1
    case IsNotNull => 1
    case Compare(_) => 2
    case Never => 0
    case InList(n) => n + 1
    case EachContains => 2
  }

  ghost function EvalClause(c: Clause, args: seq<Arg>, doc: Json, render: Render): Truth
    requires |args| == Arity(c)
  {
    match c
    case IsNull => TruthOf(JsonExtract(doc, args[0], render).SqlNull?)
    case IsNotNull => TruthOf(!JsonExtract(doc, args[0], render).SqlNull?)
    case Compare(op) => SqlCompare(op, JsonExtract(doc, args[0], render), Bound(args[1]))
    case Never => False
    case InList(_) => SqlIn(JsonExtract(doc, args[0], render), args[1..])
    case EachContains =>
      var j := AtPath(doc, args[0]);
      TruthOf(j.Some? && SomeEach(j.value, args[1], render))
  }

  /** The AND chain; placeholders take their arguments from left to right. */
  ghost function EvalWhere(clauses: seq<Clause>, args: seq<Arg>, doc: Json, render: Render): Truth {
    if clauses == [] then True
    else
      var c := clauses[|clauses| - 1];
      if |args| < Arity(c) then Unknown else
        var n := |args| - Arity(c);
        And(EvalWhere(clauses[..|clauses| - 1], args[..n], doc, render), EvalClause(c, args[n..], doc, render))
  }

  // ---- where the two engines agree ----

  /** SQL sees a boolean as 0 or 1 and an array or object as its text, so these pairs are equal to it alone. */
  predicate Coerced(j: Json, v: Value, render: Render) {
    match j
    case Bool(b) => v.NumValue? && Decimal(v.lexeme) == if b then 1.0 else 0.0
    case Num(n) => v.BoolValue? && n == if v.b then 1.0 else 0.0
    case Arr(_) => v.StrValue? && v.s == render(j)
    case Obj(_) => v.StrValue? && v.s == render(j)
    case _ => false
  }

  lemma EqualOrCoerced(j: Json, v: Value, render: Render)
    requires !v.ArrValue?
    ensures SqlCompare(Eq, ToSql(j, render), Bound(SqlValue(v))) == True
       <==> !j.Null? && !v.NullValue? && (CompareEqual(j, v) || Coerced(j, v, render))
    ensures SqlCompare(Neq, ToSql(j, render), Bound(SqlValue(v))) == True
       <==> !j.Null? && !v.NullValue? && !CompareEqual(j, v) && !Coerced(j, v, render)
  {
  }

  /** A term SQLite accepts: no empty segment in the path, and no array to bind but the list of IN. */
  predicate Bindable(term: Cmp) {
    "" !in Strings.Split(term.field, '.') &&
    if term.op == In then term.value.ArrValue? && forall v :: v in term.value.items ==> !v.ArrValue?
    else !term.value.ArrValue?
  }

  /** Exactly when SQL and matchTerm decide a term alike on a document. */
  ghost predicate Agrees(doc: Json, term: Cmp, render: Render)
    requires Bindable(term)
  {
    var got, v := Lookup(doc, Strings.Split(term.field, '.')), term.value;
    match term.op
    case Eq => got.None? || !Coerced(got.value, v, render)
    case Neq => v.NullValue? || (got.Some? && !got.value.Null? && !Coerced(got.value, v, render))
    case In =>
      got.None? || if got.value.Null? then NullValue !in v.items
                   else (exists x :: x in v.items && Coerced(got.value, x, render)) ==>
                         exists x :: x in v.items && CompareEqual(got.value, x)
    case Contains =>
      got.None? || (
        match got.value
        case Arr(items) =>
          if v.NullValue? then Null !in items
          else (exists x :: x in items && Coerced(x, v, render)) ==> exists x :: x in items && CompareEqual(x, v)
        case Obj(fields) =>
          v.NullValue? || forall k :: k in fields ==>
            fields[k].Null? || (!CompareEqual(fields[k], v) && !Coerced(fields[k], v, render))
        case j => v.NullValue? || j.Null? || (!CompareEqual(j, v) && !Coerced(j, v, render)))
    case _ =>
      got.None? || (got.value.Num? && v.NumValue?) || !OrderedBySql(term.op, got.value, v, render)
  }

  predicate Numeric(j: Json) { j.Num? || j.Bool? }

  predicate NumericLiteral(v: Value) { v.NumValue? || v.BoolValue? }

  function OneOrZero(b: bool): real { if b then 1.0 else 0.0 }

  predicate TextsCompare(op: CmpOp, a: string, b: string) {
    match op
    case Lt => Strings.Less(a, b)
    case Lte => Strings.Less(a, b) || a == b
    case Gt => Strings.Less(b, a)
    case Gte => Strings.Less(b, a) || a == b
    case _ => false
  }

  /** What < <= > >= hold of in SQL: booleans count as 0 and 1, every number comes before every text, texts compare by
      code points, an array or object is its rendered text, and nothing holds of null. */
  predicate OrderedBySql(op: CmpOp, j: Json, v: Value, render: Render)
    requires !v.ArrValue?
  {
    if j.Null? || v.NullValue? then false
    else if Numeric(j) && NumericLiteral(v) then
      NumbersCompare(op, if j.Bool? then OneOrZero(j.b) else j.n,
                     if v.BoolValue? then OneOrZero(v.b) else Decimal(v.lexeme))
    else if Numeric(j) then op == Lt || op == Lte
    else if NumericLiteral(v) then op == Gt || op == Gte
    else TextsCompare(op, if j.Str? then j.s else render(j), v.s)
  }

  lemma OrderingAgrees(doc: Json, term: Cmp, render: Render)
    requires Bindable(term) && (term.op == Lt || term.op == Lte || term.op == Gt || term.op == Gte)
    ensures (SqlKeepsTerm(doc, term, render) <==> MatchTerm(doc, term)) <==> Agrees(doc, term, render)
  {
    PathKeepsField(doc, term.field);
    var got := Lookup(doc, Strings.Split(term.field, '.'));
    if got.Some? { OrderingInSql(term.op, got.value, term.value, render); }
  }

  lemma OrderingInSql(op: CmpOp, j: Json, v: Value, render: Render)
    requires !v.ArrValue? && (op == Lt || op == Lte || op == Gt || op == Gte)
    ensures SqlCompare(op, ToSql(j, render), Bound(SqlValue(v))) == True <==> OrderedBySql(op, j, v, render)
  {
  }

  lemma PathKeepsField(doc: Json, field: string)
    ensures AtPath(doc, TextArg("$." + field)) == Lookup(doc, Strings.Split(field, '.'))
  {
    assert ("$." + field)[2..] == field;
  }

  ghost predicate SqlKeepsTerm(doc: Json, term: Cmp, render: Render)
    requires Bindable(term)
  {
    var c := CompileTerm("$." + term.field, term.op, term.value).value;
    |c.1| == Arity(c.0) && EvalClause(c.0, c.1, doc, render) == True
  }

  lemma InAgrees(got: Json, items: seq<Value>, render: Render)
    requires items != [] && forall v :: v in items ==> !v.ArrValue?
    ensures SqlIn(ToSql(got, render), SqlValues(items)) == True
       <==> !got.Null? && exists v :: v in items && (CompareEqual(got, v) || Coerced(got, v, render))
  {
    var args := SqlValues(items);
    if exists v :: v in items && !got.Null? && (CompareEqual(got, v) || Coerced(got, v, render)) {
      var v :| v in items && !got.Null? && (CompareEqual(got, v) || Coerced(got, v, render));
      EqualOrCoerced(got, v, render);
      var i :| 0 <= i < |items| && items[i] == v;
      assert args[i] in args && Bound(args[i]) == ToSql(got, render);
    }
    if !got.Null? && exists a :: a in args && Bound(a) == ToSql(got, render) {
      var a :| a in args && Bound(a) == ToSql(got, render);
      var i :| 0 <= i < |args| && args[i] == a;
      EqualOrCoerced(got, items[i], render);
      assert items[i] in items;
    }
  }

  /** For every document and every bindable term: the compiled clause keeps the row iff matchTerm accepts it,
      exactly when Agrees holds. */
  lemma TermsAgreeIff(doc: Json, term: Cmp, render: Render)
    requires Bindable(term)
    ensures (SqlKeepsTerm(doc, term, render) <==> MatchTerm(doc, term)) <==> Agrees(doc, term, render)
  {
    match term.op
    case Eq => EqualityAgrees(doc, term, render);
    case Neq => EqualityAgrees(doc, term, render);
    case In => InTermAgrees(doc, term, render);
    case Contains => ContainsAgrees(doc, term, render);
    case _ => OrderingAgrees(doc, term, render);
  }

  lemma EqualityAgrees(doc: Json, term: Cmp, render: Render)
    requires Bindable(term) && (term.op == Eq || term.op == Neq)
    ensures (SqlKeepsTerm(doc, term, render) <==> MatchTerm(doc, term)) <==> Agrees(doc, term, render)
  {
    PathKeepsField(doc, term.field);
    var got := Lookup(doc, Strings.Split(term.field, '.'));
    if got.Some? { EqualOrCoerced(got.value, term.value, render); }
  }

  lemma InTermAgrees(doc: Json, term: Cmp, render: Render)
    requires Bindable(term) && term.op == In
    ensures (SqlKeepsTerm(doc, term, render) <==> MatchTerm(doc, term)) <==> Agrees(doc, term, render)
  {
    PathKeepsField(doc, term.field);
    var got, items := Lookup(doc, Strings.Split(term.field, '.')), term.value.items;
    if items != [] {
      var args := [TextArg("$." + term.field)] + SqlValues(items);
      assert args[1..] == SqlValues(items);
      if got.Some? { InAgrees(got.value, items, render); }
    }
  }

  lemma ContainsAgrees(doc: Json, term: Cmp, render: Render)
    requires Bindable(term) && term.op == Contains
    ensures (SqlKeepsTerm(doc, term, render) <==> MatchTerm(doc, term)) <==> Agrees(doc, term, render)
  {
    PathKeepsField(doc, term.field);
    var got, v := Lookup(doc, Strings.Split(term.field, '.')), term.value;
    if got.Some? {
      forall j: Json ensures SqlCompare(Eq, ToSql(j, render), Bound(SqlValue(v))) == True
        <==> !j.Null? && !v.NullValue? && (CompareEqual(j, v) || Coerced(j, v, render)) {
        EqualOrCoerced(j, v, render);
      }
    }
  }

  lemma EvalLast(clauses: seq<Clause>, args: seq<Arg>, c: Clause, cargs: seq<Arg>, doc: Json, render: Render)
    requires |cargs| == Arity(c)
    ensures EvalWhere(clauses + [c], args + cargs, doc, render)
          == And(EvalWhere(clauses, args, doc, render), EvalClause(c, cargs, doc, render))
  {
    assert (clauses + [c])[..|clauses|] == clauses;
    assert (args + cargs)[..|args|] == args && (args + cargs)[|args|..] == cargs;
  }

  lemma BindableCompiles(term: Cmp)
    requires Bindable(term)
    ensures var c := CompileTerm("$." + term.field, term.op, term.value); c.Some? && |c.value.1| == Arity(c.value.0)
  {
  }

  /** The whole WHERE, for an AND chain of any length: if both engines decide each term alike, the SQL keeps the row
      iff matchExpr accepts the document. */
  lemma {:induction false} WhereAgrees(doc: Json, expr: Expr, render: Render)
    requires doc.Obj? && forall t :: t in expr ==> Bindable(t) && Agrees(doc, t, render)
    ensures Join(expr).Some?
    ensures EvalWhere(Join(expr).value.0, Join(expr).value.1, doc, render) == True <==>
          forall t :: t in expr ==> MatchTerm(doc, t)
  {
    if expr != [] {
      var init, last := expr[..|expr| - 1], expr[|expr| - 1];
      assert expr == init + [last];
      assert last in expr && forall t :: t in init ==> t in expr;
      WhereAgrees(doc, init, render);
      TermsAgreeIff(doc, last, render);
      BindableCompiles(last);
      var (clauses, args) := Join(init).value;
      var (c, cargs) := CompileTerm("$." + last.field, last.op, last.value).value;
      EvalLast(clauses, args, c, cargs, doc, render);
    }
  }

  /** The everyday fragment: the field is absent, null or a scalar of the literal's own type; != with a value only where
      the field is present and not null; ordering only between numbers. */
  predicate Everyday(doc: Json, term: Cmp) {
    var got := Lookup(doc, Strings.Split(term.field, '.'));
    match term.op
    case Eq => term.value.NullValue? || got.None? || got.value.Null? || SameKind(got.value, term.value)
    case Neq => term.value.NullValue? || (got.Some? && SameKind(got.value, term.value))
    case In => term.value.ArrValue? && forall v :: v in term.value.items ==>
          got.None? || (got.value.Null? && !v.NullValue?) || SameKind(got.value, v)
    case Contains => got.None? || (got.value.Arr? && forall j :: j in got.value.items ==> SameKind(j, term.value))
    case _ => term.value.NumValue? && (got.None? || got.value.Null? || got.value.Num?)
  }

  predicate SameKind(j: Json, v: Value) {
    (j.Num? && v.NumValue?) || (j.Str? && v.StrValue?) || (j.Bool? && v.BoolValue?)
  }

  lemma EverydayTermsAgree(doc: Json, term: Cmp, render: Render)
    requires Bindable(term) && Everyday(doc, term)
    ensures Agrees(doc, term, render)
  {
  }

  // ---- what is bound, and what does not compile ----

  /** A comparison with an integer literal binds that integer, its sign included. */
  lemma IntegerIsBound(path: string, op: CmpOp, z: int)
    requires IsComparison(op)
    ensures CompileTerm(path, op, NumValue(IntLexeme(z)))
         == Some((Compare(op), [TextArg(path), NumArg(z as real)]))
  {
    IntegerValue(z);
  }

  /** So in SQL too it is the comparison with the integer. */
  lemma IntegerTermInSql(doc: Json, field: string, op: CmpOp, z: int, render: Render)
    requires IsComparison(op) && "" !in Strings.Split(field, '.')
    requires Lookup(doc, Strings.Split(field, '.')).Some? && Lookup(doc, Strings.Split(field, '.')).value.Num?
    ensures var x := Lookup(doc, Strings.Split(field, '.')).value.n;
            SqlKeepsTerm(doc, Cmp(field, op, NumValue(IntLexeme(z))), render) <==> Compares(op, x, z as real)
  {
    var term := Cmp(field, op, NumValue(IntLexeme(z)));
    IntegerTerm(doc, field, op, z);
    TermsAgreeIff(doc, term, render);
  }

  /** A WHERE fails to compile exactly if it asks for IN with something that is not a list. */
  lemma {:induction false} CompileFailsIff(expr: Expr)
    ensures Join(expr).None? <==> exists t :: t in expr && t.op == In && !t.value.ArrValue?
  {
    if expr != [] {
      var init, last := expr[..|expr| - 1], expr[|expr| - 1];
      CompileFailsIff(init);
      assert forall t :: t in expr <==> t in init || t == last;
    }
  }

  /** No WHERE is no condition. */
  lemma EmptyWhereKeepsAll(doc: Json, render: Render)
    ensures Join([]) == Some(([], [])) && EvalWhere([], [], doc, render) == True
  {
  }
}
