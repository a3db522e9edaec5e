/** internal/tql/ast.go: the parsed shapes of TQL. A number literal is kept as its lexeme; Decimal is its exact
    value. */
module Ast {
  import opened Wrappers
  import opened Decimals
  import Graph

  datatype Value =
    | NullValue
    | BoolValue(b: bool)
    | NumValue(lexeme: string)
    | StrValue(s: string)
    | ArrValue(items: seq<Value>)

  datatype CmpOp = Eq | Neq | Lt | Lte | Gt | Gte | In | Contains

  datatype Cmp = Cmp(field: string, op: CmpOp, value: Value)

  /** AND-conjoined comparisons. */
  type Expr = seq<Cmp>

  /** A parsed statement. A time is kept as its literal, a JSON object as its text; a limit or offset of 0 is none. */
  datatype Stmt =
    | GetStmt(collection: string, key: string, asOf: Option<string>)
    | FindStmt(collection: string, filter: Option<Expr>, asOf: Option<string>,
               orderBy: string, desc: bool, limit: nat, offset: nat)
    | PutStmt(collection: string, key: string, json: string, at: Option<string>)
    | DeleteStmt(collection: string, key: string)
    | HistoryStmt(collection: string, key: string, between: Option<(string, string)>)
    | RelateStmt(from: (string, string), edgeType: string, to: (string, string), props: Option<string>)
    | UnrelateStmt(from: (string, string), edgeType: string, to: (string, string))
    | RelatedStmt(collection: string, key: string, edgeTypes: seq<string>, direction: Graph.Direction,
                  asOf: Option<string>, limit: nat, offset: nat)
    | SearchStmt(collection: string, query: string, filter: Option<Expr>, limit: nat, offset: nat)
    | PurgeStmt(collection: string, before: string)
    | EdgeTypesStmt

  // ---- number lexemes ----

  function WholeLen(s: string): nat
    ensures WholeLen(s) <= |s|
  {
    if s == "" || s[0] == '.' then 0 else 1 + WholeLen(s[1..])
  }

  /** The exact value of a lexeme of the form -?digits(.digits)?. */
  function Decimal(lexeme: string): real {
    if lexeme != "" && lexeme[0] == '-' then 0.0 - Unsigned(lexeme[1..]) else Unsigned(lexeme)
  }

  function Unsigned(s: string): real {
    var w := WholeLen(s);
    var frac := if w < |s| then s[w + 1..] else "";
    DigitsValue(s[..w]) as real + DigitsValue(frac) as real / TenTo(|frac|) as real
  }

  // ---- what a lexeme is worth ----

  lemma {:induction false} WholeLenOf(a: string, rest: string)
    requires AllDigits(a) && (rest == "" || rest[0] == '.')
    ensures WholeLen(a + rest) == |a|
  {
    if a == "" {
      assert a + rest == rest;
    } else {
      assert (a + rest)[1..] == a[1..] + rest && IsDigit(a[0]);
      WholeLenOf(a[1..], rest);
    }
  }

  lemma WholeNumberValue(a: string)
    requires AllDigits(a)
    ensures Decimal(a) == DigitsValue(a) as real
  {
    WholeLenOf(a, "");
    assert a + "" == a && a[..|a|] == a;
    assert a != "" ==> IsDigit(a[0]);
  }

  /** A decimal fraction is its digits, before and after the point, over that power of ten. */
  lemma FractionValue(a: string, b: string)
    requires AllDigits(a) && AllDigits(b)
    ensures Decimal(a + "." + b) == DigitsValue(a + b) as real / TenTo(|b|) as real
  {
    PointSplits(a, b);
    DigitsConcat(a, b);
    Shares(DigitsValue(a), DigitsValue(b), TenTo(|b|), DigitsValue(a + b));
  }

  lemma PointSplits(a: string, b: string)
    requires AllDigits(a)
    ensures Decimal(a + "." + b) == DigitsValue(a) as real + DigitsValue(b) as real / TenTo(|b|) as real
  {
    var s := a + "." + b;
    assert s == a + ("." + b) && s[..|a|] == a && s[|a| + 1..] == b;
    WholeLenOf(a, "." + b);
    ValueAtPoint(s, |a|, b);
    assert a != "" ==> IsDigit(a[0]) && s[0] == a[0];
  }

  lemma ValueAtPoint(s: string, w: nat, b: string)
    requires WholeLen(s) == w < |s| && s[w + 1..] == b
    ensures Unsigned(s) == DigitsValue(s[..w]) as real + DigitsValue(b) as real / TenTo(|b|) as real
  {
  }

  lemma Shares(a: int, b: int, p: int, v: int)
    requires p > 0 && v == a * p + b
    ensures a as real + b as real / p as real == v as real / p as real
  {
    assert v as real == a as real * p as real + b as real;
  }

  lemma MinusNegates(s: string)
    requires s == "" || s[0] != '-'
    ensures Decimal("-" + s) == -Decimal(s)
  {
    assert ("-" + s)[1..] == s;
  }

  /** An integer as it is written in TQL. */
  function IntLexeme(z: int): string { if z < 0 then "-" + Pad(-z, 1) else Pad(z, 1) }

  lemma IntegerValue(z: int)
    ensures Decimal(IntLexeme(z)) == z as real
  {
    var n := if z < 0 then -z else z;
    PadLength(n, 1);
    PadValue(n, 1);
    WholeNumberValue(Pad(n, 1));
    assert IsDigit(Pad(n, 1)[0]);
    if z < 0 { MinusNegates(Pad(n, 1)); }
  }

  /** From this on a number rounds past the largest float64. */
  const FLOAT_LIMIT: int := TwoTo(1024) - TwoTo(970)

  /** strconv.ParseFloat does not report a range error. */
  predicate FitsFloat(lexeme: string) { -FLOAT_LIMIT as real < Decimal(lexeme) < FLOAT_LIMIT as real }

  /** So an integer literal is in range exactly if its size is under 2^1024 - 2^970. */
  lemma FitsFloatIff(z: int)
    ensures FitsFloat(IntLexeme(z)) <==> -(TwoTo(1024) - TwoTo(970)) < z < TwoTo(1024) - TwoTo(970)
  {
    IntegerValue(z);
  }

  lemma SmallNumbersFit(z: int)
    requires -1_000_000 < z < 1_000_000
    ensures FitsFloat(IntLexeme(z))
  {
    IntegerValue(z);
    TwoTo54();
    LimitIsLarge(970, 54);
  }

  lemma LimitIsLarge(m: nat, n: nat)
    requires TwoTo(n) == 18014398509481984
    ensures TwoTo(m + n) - TwoTo(m) >= 1_000_000
  {
    TwoToSum(m, n);
  }

  predicate FitsValue(v: Value) {
    (v.NumValue? ==> FitsFloat(v.lexeme)) && (v.ArrValue? ==> forall w :: w in v.items ==> FitsValue(w))
  }
}
