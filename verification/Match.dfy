/** internal/tql/match.go: WHERE evaluated in memory. */
module Match {
  import opened Wrappers
  import opened Json
  import opened Ast
  import opened Strings

  function Lookup(doc: Json, parts: seq<string>): Option<Json> {
    if parts == [] then Some(doc)
    else if doc.Obj? && parts[0] in doc.fields then Lookup(doc.fields[parts[0]], parts[1..])
    else None
  }

  method LookupPath(doc: Json, path: string) returns (r: Option<Json>)
    ensures r == Lookup(doc, Split(path, '.'))
  {
    var cur, parts := doc, Split(path, '.');
    var i := 0;
    while i < |parts|
      invariant 0 <= i <= |parts|
      invariant Lookup(doc, parts) == Lookup(cur, parts[i..])
    {
      if !cur.Obj? || parts[i] !in cur.fields {
        return None;
      }
      cur := cur.fields[parts[i]];
      assert parts[i..][1..] == parts[i + 1..];
      i := i + 1;
    }
    r := Some(cur);
  }

  /** Type-strict: a string never equals a number or a boolean. */
  predicate CompareEqual(a: Json, b: Value) {
    match a
    case Num(n) => b.NumValue? && n == Decimal(b.lexeme)
    case Str(s) => b.StrValue? && s == b.s
    case Bool(x) => b.BoolValue? && x == b.b
    case Null => b.NullValue?
    case _ => false
  }

  predicate NumbersCompare(op: CmpOp, a: real, b: real) {
    match op
    case Lt => a < b
    case Lte => a <= b
    case Gt => a > b
    case Gte => a >= b
    case _ => false
  }

  predicate MatchTerm(doc: Json, term: Cmp) {
    var got := Lookup(doc, Split(term.field, '.'));
    match term.op
    case Eq =>
      if term.value.NullValue? then got.None? || got.value.Null?
      else got.Some? && CompareEqual(got.value, term.value)
    case Neq =>
      if term.value.NullValue? then got.Some? && !got.value.Null?
      else got.None? || !CompareEqual(got.value, term.value)
    case In => got.Some? && term.value.ArrValue? && exists v :: v in term.value.items && CompareEqual(got.value, v)
    case Contains => got.Some? && got.value.Arr? && exists j :: j in got.value.items && CompareEqual(j, term.value)
    case _ =>
      got.Some? && got.value.Num? && term.value.NumValue? &&
            NumbersCompare(term.op, got.value.n, Decimal(term.value.lexeme))
  }

  /** A missing value decodes to an empty document, and anything but an object or null fails to decode. */
  predicate MatchExpr(value: Option<Json>, expr: Option<Expr>) {
    if expr.None? then true
    else if value.Some? && !value.value.Obj? && !value.value.Null? then false
    else
      var doc := if value.Some? && value.value.Obj? then value.value else Obj(map[]);
      forall t :: t in expr.value ==> MatchTerm(doc, t)
  }

  // ---- what paths and number literals mean ----

  /** A path of one name is the field of that name; one of several names goes on in the value of the first. */
  lemma FieldOfPath(doc: Json, name: string, path: string)
    requires '.' !in name
    ensures Lookup(doc, Split(name, '.')) == if doc.Obj? && name in doc.fields then Some(doc.fields[name]) else None
    ensures Lookup(doc, Split(name + "." + path, '.'))
         == if doc.Obj? && name in doc.fields then Lookup(doc.fields[name], Split(path, '.')) else None
  {
    SplitWhole(name, '.');
    SplitJoins(name, path, '.');
    assert Split(name + "." + path, '.') == [name] + Split(path, '.');
    assert ([name] + Split(path, '.'))[1..] == Split(path, '.') && [name][1..] == [];
  }

  /** Equality with a text, a boolean or null is of that kind alone, and an absent field counts as null; IN and CONTAINS
      are membership. */
  lemma OtherTerms(doc: Json, field: string, s: string, b: bool, items: seq<Value>, texts: seq<string>)
    requires |items| == |texts| && forall i :: 0 <= i < |items| ==> items[i] == StrValue(texts[i])
    ensures var got := Lookup(doc, Split(field, '.'));
            && (MatchTerm(doc, Cmp(field, Eq, StrValue(s))) <==> got == Some(Str(s)))
            && (MatchTerm(doc, Cmp(field, Neq, StrValue(s))) <==> got != Some(Str(s)))
            && (MatchTerm(doc, Cmp(field, Eq, BoolValue(b))) <==> got == Some(Bool(b)))
            && (MatchTerm(doc, Cmp(field, Neq, BoolValue(b))) <==> got != Some(Bool(b)))
            && (MatchTerm(doc, Cmp(field, Eq, NullValue)) <==> got == None || got == Some(Null))
            && (MatchTerm(doc, Cmp(field, Neq, NullValue)) <==> got.Some? && got.value != Null)
            && (MatchTerm(doc, Cmp(field, Contains, StrValue(s))) <==>
                got.Some? && got.value.Arr? && Str(s) in got.value.items)
            && (MatchTerm(doc, Cmp(field, In, ArrValue(items))) <==>
                got.Some? && got.value.Str? && got.value.s in texts)
  {
    var got := Lookup(doc, Split(field, '.'));
    if got.Some? && got.value.Str? && got.value.s in texts {
      var i :| 0 <= i < |texts| && texts[i] == got.value.s;
      assert items[i] in items;
    }
  }

  /** AND: a document meets two lists of terms joined if it meets both, and no terms ask for nothing of an object. */
  lemma AndOfTerms(value: Option<Json>, a: Expr, b: Expr)
    ensures MatchExpr(value, Some(a + b)) <==> MatchExpr(value, Some(a)) && MatchExpr(value, Some(b))
    ensures MatchExpr(value, Some([])) <==> value.None? || value.value.Obj? || value.value.Null?
  {
    assert forall t :: t in a + b <==> t in a || t in b;
  }

  /** What a comparison says of two numbers; not of the other operators. */
  predicate Compares(op: CmpOp, x: real, y: real) {
    (op == Eq && x == y) || (op == Neq && x != y) || (op == Lt && x < y) || (op == Lte && (x < y || x == y))
    || (op == Gt && y < x) || (op == Gte && (y < x || x == y))
  }

  predicate IsComparison(op: CmpOp) { op != In && op != Contains }

  /** On a number, a comparison with an integer literal is that comparison with the integer, its sign included. */
  lemma IntegerTerm(doc: Json, field: string, op: CmpOp, z: int)
    requires IsComparison(op)
    requires Lookup(doc, Split(field, '.')).Some? && Lookup(doc, Split(field, '.')).value.Num?
    ensures var x := Lookup(doc, Split(field, '.')).value.n;
            MatchTerm(doc, Cmp(field, op, NumValue(IntLexeme(z)))) <==> Compares(op, x, z as real)
  {
    IntegerValue(z);
  }
}
