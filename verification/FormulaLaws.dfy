/**
  What the formula evaluator computes, as equations between texts: an operand, a product and one more
  factor, a formula and one more product.  They speak of characters and real numbers only, so they fix
  the value of every formula text from left to right.
*/
module FormulaLaws {
  import opened Options
  import opened Cells
  import opened Text
  import opened Formula
  import Seqs

  /** The number an operand stands for: a literal's, else that of the row's cell in the column of this name. */
  function Number(literal: string -> Option<real>, row: Row, operand: string): Option<real> {
    var name := Strip(operand);
    if literal(name).Some? then literal(name)
    else if name in row && row[name].Filled? then row[name].number
    else None
  }

  /** Something but blanks, and no operator character. */
  predicate IsOperandText(t: string) {
    Strip(t) != "" && '+' !in t && '-' !in t && '*' !in t && '/' !in t
  }

  /** An operator character and the operand after it. */
  datatype Term = Term(sign: char, operand: string)

  predicate IsTerm(t: Term) {
    (t.sign == '+' || t.sign == '-' || t.sign == '*' || t.sign == '/') && IsOperandText(t.operand)
  }

  predicate IsFactor(t: Term) {
    (t.sign == '*' || t.sign == '/') && IsOperandText(t.operand)
  }

  predicate IsFormula(first: string, rest: seq<Term>) {
    IsOperandText(first) && forall i :: 0 <= i < |rest| ==> IsTerm(rest[i])
  }

  predicate IsProduct(first: string, rest: seq<Term>) {
    IsOperandText(first) && forall i :: 0 <= i < |rest| ==> IsFactor(rest[i])
  }

  /** The text of an operand and some terms. */
  function Spelled(first: string, rest: seq<Term>): string {
    if rest == [] then first
    else
      var last := rest[|rest| - 1];
      Spelled(first, rest[..|rest| - 1]) + [last.sign] + last.operand
  }

  // ----- the operands and operators of a text

  function Values(literal: string -> Option<real>, row: Row, s: string): seq<Option<real>> {
    OperandsIn(literal, row, Tokens(s))
  }

  function Operations(s: string): seq<Op> {
    OperatorsIn(Tokens(s))
  }

  lemma {:induction false} TokensConcat(a: string, c: char, b: string)
    requires IsOpChar(c)
    ensures Tokens(a + [c] + b) == Tokens(a) + [[c]] + Tokens(b)
  {
    if a == "" {
      assert a + [c] + b == [c] + b;
      Seqs.ConsParts(c, b);
      assert ["", [c]] + Tokens(b) == [""] + [[c]] + Tokens(b);
    } else {
      TokensConcat(a[1..], c, b);
      assert a + [c] + b == [a[0]] + (a[1..] + [c] + b);
      Seqs.Assoc(Tokens(a[1..]), [[c]], Tokens(b));
      TokensConcatStep(a[0], a[1..] + [c] + b, a, Tokens(a[1..]), [[c]] + Tokens(b));
      Seqs.Assoc(Tokens(a), [[c]], Tokens(b));
    }
  }

  lemma TokensConcatStep(x: char, rest: string, a: string, t: seq<string>, u: seq<string>)
    requires a != "" && a[0] == x && t == Tokens(a[1..]) && Tokens(rest) == t + u
    ensures Tokens([x] + rest) == Tokens(a) + u
  {
    hide IsOpChar;
    Seqs.ConsParts(x, rest);
    if IsOpChar(x) {
      Seqs.Assoc(["", [x]], t, u);
    } else {
      Seqs.TailOfConcat(t, u);
      Seqs.Assoc([[x] + t[0]], t[1..], u);
    }
  }

  lemma {:induction false} OperandsConcat(literal: string -> Option<real>, row: Row, a: seq<string>, b: seq<string>)
    ensures OperandsIn(literal, row, a + b) == OperandsIn(literal, row, a) + OperandsIn(literal, row, b)
    ensures OperatorsIn(a + b) == OperatorsIn(a) + OperatorsIn(b)
  {
    hide Strip, IsOpToken, Resolve, OpOf;
    if b == [] {
      Seqs.EmptyUnit(a);
      Seqs.EmptyUnit(OperandsIn(literal, row, a));
      Seqs.EmptyUnit(OperatorsIn(a));
    } else {
      var n := |b| - 1;
      OperandsConcat(literal, row, a, b[..n]);
      Seqs.SplitLast(b);
      Seqs.Assoc(a, b[..n], [b[n]]);
      Seqs.InitOfSnoc(a + b[..n], b[n]);
      var value := if IsOperand(b[n]) then [Resolve(literal, row, Strip(b[n]))] else [];
      var op := if IsOpToken(Strip(b[n])) then [OpOf(Strip(b[n]))] else [];
      Seqs.Assoc(OperandsIn(literal, row, a), OperandsIn(literal, row, b[..n]), value);
      Seqs.Assoc(OperatorsIn(a), OperatorsIn(b[..n]), op);
    }
  }

  lemma TokenAlone(literal: string -> Option<real>, row: Row, t: string)
    ensures OperandsIn(literal, row, [t]) == if IsOperand(t) then [Resolve(literal, row, Strip(t))] else []
    ensures OperatorsIn([t]) == if IsOpToken(Strip(t)) then [OpOf(Strip(t))] else []
  {
    hide Strip, IsOpToken, Resolve, OpOf;
    assert [t][..0] == [];
  }

  /** An operator character splits a text's operands and operators. */
  lemma SplitsAtOperator(literal: string -> Option<real>, row: Row, a: string, c: char, b: string)
    requires IsOpChar(c)
    ensures Values(literal, row, a + [c] + b) == Values(literal, row, a) + Values(literal, row, b)
    ensures Operations(a + [c] + b) == Operations(a) + [OpOf([c])] + Operations(b)
  {
    hide Tokens, OperandsIn, OperatorsIn, Resolve, Strip;
    TokensConcat(a, c, b);
    OperandsConcat(literal, row, Tokens(a) + [[c]], Tokens(b));
    OperandsConcat(literal, row, Tokens(a), [[c]]);
    StripOperator([c]);
    TokenAlone(literal, row, [c]);
    Seqs.EmptyUnit(OperandsIn(literal, row, Tokens(a)));
  }

  lemma {:induction false} OperandText(literal: string -> Option<real>, row: Row, t: string)
    requires IsOperandText(t)
    ensures Values(literal, row, t) == [Number(literal, row, t)] && Operations(t) == []
  {
    hide Strip, Tokens, OperandsIn, OperatorsIn;
    NoOperators(t);
    NotAnOperator(t);
    TokenAlone(literal, row, t);
  }

  lemma NotAnOperator(t: string)
    requires IsOperandText(t)
    ensures IsOperand(t) && !IsOpToken(Strip(t))
  {
    StripKeepsMembers(t);
    assert |Strip(t)| == 1 ==> Strip(t)[0] in Strip(t);
  }

  lemma {:induction false} NoOperators(t: string)
    requires '+' !in t && '-' !in t && '*' !in t && '/' !in t
    ensures Tokens(t) == [t]
  {
    if t != "" {
      assert t[0] in t;
      NoOperators(t[1..]);
      Seqs.SplitFirst(t);
    }
  }

  // ----- blanks around a text

  lemma PadToken(literal: string -> Option<real>, row: Row, a: string, t: string, b: string)
    requires Blank(a) && Blank(b)
    ensures OperandsIn(literal, row, [a + t + b]) == OperandsIn(literal, row, [t])
    ensures OperatorsIn([a + t + b]) == OperatorsIn([t])
  {
    hide Strip, IsOpToken, Resolve, OpOf, OperandsIn, OperatorsIn;
    StripPadded(a, t, b);
    TokenAlone(literal, row, a + t + b);
    TokenAlone(literal, row, t);
  }

  lemma SpaceIsBlank(x: char)
    requires IsSpace(x)
    ensures Blank([x]) && !IsOpChar(x)
  {
  }

  lemma PadLeft(literal: string -> Option<real>, row: Row, x: char, s: string)
    requires IsSpace(x)
    ensures Values(literal, row, [x] + s) == Values(literal, row, s) && Operations([x] + s) == Operations(s)
  {
    hide OperandsIn, OperatorsIn, IsSpace, Blank;
    var t := Tokens(s);
    SpaceIsBlank(x);
    NothingIsBlank();
    Seqs.ConsParts(x, s);
    assert Tokens([x] + s) == [[x] + t[0]] + t[1..];
    Seqs.SplitFirst(t);
    OperandsConcat(literal, row, [[x] + t[0]], t[1..]);
    OperandsConcat(literal, row, [t[0]], t[1..]);
    PadToken(literal, row, [x], t[0], "");
    Seqs.EmptyUnit([x] + t[0]);
  }

  /** The tokens of a text after one more character in front, or at the end. */
  function Prefixed(c: char, t: seq<string>): seq<string>
    requires t != []
  {
    if IsOpChar(c) then ["", [c]] + t else [[c] + t[0]] + t[1..]
  }

  function Suffixed(t: seq<string>, x: char): seq<string>
    requires t != []
  {
    t[..|t| - 1] + [t[|t| - 1] + [x]]
  }

  lemma TokensCons(c: char, s: string)
    ensures Tokens([c] + s) == Prefixed(c, Tokens(s))
  {
    hide IsOpChar;
    Seqs.ConsParts(c, s);
  }

  lemma PrefixedSuffixed(c: char, t: seq<string>, x: char)
    requires t != []
    ensures Prefixed(c, Suffixed(t, x)) == Suffixed(Prefixed(c, t), x)
  {
    hide IsOpChar;
    var last := t[|t| - 1] + [x];
    if IsOpChar(c) {
      Seqs.LastGrows(["", [c]], t, last);
    } else if |t| == 1 {
      SuffixedOne(c, t[0], x);
      assert t == [t[0]];
    } else {
      SuffixedMore(c, t, x);
    }
  }

  lemma SuffixedOne(c: char, t: string, x: char)
    ensures [[c] + Suffixed([t], x)[0]] + Suffixed([t], x)[1..] == Suffixed([[c] + t] + [t][1..], x)
  {
    assert Suffixed([t], x) == [t + [x]];
    assert [[c] + t] + [t][1..] == [[c] + t];
    Seqs.Assoc([c], t, [x]);
  }

  lemma SuffixedMore(c: char, t: seq<string>, x: char)
    requires |t| > 1
    ensures [[c] + Suffixed(t, x)[0]] + Suffixed(t, x)[1..] == Suffixed([[c] + t[0]] + t[1..], x)
  {
    var last := t[|t| - 1] + [x];
    Seqs.TailOfConcat(t[..|t| - 1], [last]);
    assert t[..|t| - 1][1..] == t[1..][..|t| - 2];
    Seqs.LastGrows([[c] + t[0]], t[1..], last);
  }

  lemma {:induction false} TokensSnoc(s: string, x: char)
    requires !IsOpChar(x)
    ensures Tokens(s + [x]) == Suffixed(Tokens(s), x)
  {
    if s == "" {
      EmptyTokensSnoc(x);
    } else {
      hide Tokens, Prefixed, Suffixed;
      TokensSnoc(s[1..], x);
      Seqs.SplitFirst(s);
      TokensCons(s[0], s[1..]);
      Seqs.Assoc([s[0]], s[1..], [x]);
      TokensCons(s[0], s[1..] + [x]);
      PrefixedSuffixed(s[0], Tokens(s[1..]), x);
    }
  }

  lemma EmptyTokensSnoc(x: char)
    requires !IsOpChar(x)
    ensures Tokens("" + [x]) == Suffixed(Tokens(""), x)
  {
    assert "" + [x] == [x] && [x][1..] == "";
    assert Tokens("") == [""];
    assert [x] + "" == [x];
    assert Tokens([x]) == [[x] + ""];
  }

  lemma PadRight(literal: string -> Option<real>, row: Row, s: string, x: char)
    requires IsSpace(x)
    ensures Values(literal, row, s + [x]) == Values(literal, row, s) && Operations(s + [x]) == Operations(s)
  {
    hide OperandsIn, OperatorsIn, IsSpace, Blank, Tokens;
    var t := Tokens(s);
    var n := |t| - 1;
    SpaceIsBlank(x);
    NothingIsBlank();
    TokensSnoc(s, x);
    Seqs.SplitLast(t);
    OperandsConcat(literal, row, t[..n], [t[n] + [x]]);
    OperandsConcat(literal, row, t[..n], [t[n]]);
    PadToken(literal, row, "", t[n], [x]);
    Seqs.EmptyUnit(t[n]);
  }

  lemma {:induction false} LStripKeepsParts(literal: string -> Option<real>, row: Row, s: string)
    ensures Values(literal, row, LStrip(s)) == Values(literal, row, s) && Operations(LStrip(s)) == Operations(s)
  {
    hide Values, Operations, IsSpace;
    if s != "" && IsSpace(s[0]) {
      LStripKeepsParts(literal, row, s[1..]);
      Seqs.SplitFirst(s);
      PadLeft(literal, row, s[0], s[1..]);
    }
  }

  lemma {:induction false} RStripKeepsParts(literal: string -> Option<real>, row: Row, s: string)
    ensures Values(literal, row, RStrip(s)) == Values(literal, row, s) && Operations(RStrip(s)) == Operations(s)
  {
    hide Values, Operations, IsSpace;
    if s != "" && IsSpace(s[|s| - 1]) {
      var n := |s| - 1;
      RStripKeepsParts(literal, row, s[..n]);
      Seqs.SplitLast(s);
      PadRight(literal, row, s[..n], s[n]);
    }
  }

  lemma ValueOfParts(literal: string -> Option<real>, row: Row, s: string)
    ensures var values, ops := Values(literal, row, s), Operations(s);
      && (values == [] ==> FormulaValue(literal, row, s) == Value(None))
      && (|values| == |ops| + 1 ==> FormulaValue(literal, row, s) == Value(Eval(Parse(values, ops))))
  {
    hide OperandsIn, OperatorsIn, LStrip, RStrip, Tokens, Eval, Parse;
    LStripKeepsParts(literal, row, s);
    RStripKeepsParts(literal, row, LStrip(s));
  }

  // ----- formulas and products

  lemma {:induction false} FormulaParts(literal: string -> Option<real>, row: Row, first: string, rest: seq<Term>)
    requires IsFormula(first, rest)
    ensures |Values(literal, row, Spelled(first, rest))| == |rest| + 1 == |Operations(Spelled(first, rest))| + 1
  {
    hide Values, Operations, IsOperandText, OpOf;
    if rest == [] {
      OperandText(literal, row, first);
    } else {
      var init, last := rest[..|rest| - 1], rest[|rest| - 1];
      assert IsTerm(last) && IsFormula(first, init);
      FormulaParts(literal, row, first, init);
      SplitsAtOperator(literal, row, Spelled(first, init), last.sign, last.operand);
      OperandText(literal, row, last.operand);
    }
  }

  lemma {:induction false} ProductParts(first: string, rest: seq<Term>)
    requires IsProduct(first, rest)
    ensures forall i :: 0 <= i < |Operations(Spelled(first, rest))| ==>
      Multiplicative(Operations(Spelled(first, rest))[i])
  {
    hide Operations, IsOperandText;
    if rest == [] {
      OperandText(NoNumbers, map[], first);
    } else {
      var init, last := rest[..|rest| - 1], rest[|rest| - 1];
      assert IsFactor(last) && IsProduct(first, init);
      ProductParts(first, init);
      SplitsAtOperator(NoNumbers, map[], Spelled(first, init), last.sign, last.operand);
      OperandText(NoNumbers, map[], last.operand);
      FactorSign(last.sign);
    }
  }

  function NoNumbers(s: string): Option<real> {
    None
  }

  lemma FactorSign(c: char)
    requires c == '*' || c == '/'
    ensures IsOpChar(c) && Multiplicative(OpOf([c]))
  {
  }

  lemma ProductIsFormula(first: string, rest: seq<Term>)
    requires IsProduct(first, rest)
    ensures IsFormula(first, rest)
  {
    hide IsOperandText;
    forall i | 0 <= i < |rest| ensures IsTerm(rest[i]) {
      assert IsFactor(rest[i]);
    }
  }

  // ----- trees

  lemma {:induction false} ProductTree(values: seq<Option<real>>, ops: seq<Op>, op: Op, v: Option<real>)
    requires |values| == |ops| + 1 && Multiplicative(op)
    requires forall i :: 0 <= i < |ops| ==> Multiplicative(ops[i])
    ensures Parse(values + [v], ops + [op]) == Bin(op, Parse(values, ops), Leaf(v))
    decreases |ops|
  {
    ParseSnoc(values, ops, op, v);
    if ops != [] {
      var n := |ops| - 1;
      ProductTree(values[..n + 1], ops[..n], ops[n], values[n + 1]);
      Seqs.SplitLast(values);
      Seqs.SplitLast(ops);
    }
  }

  lemma {:induction false} SumTree(values: seq<Option<real>>, ops: seq<Op>, op: Op,
                                   factors: seq<Option<real>>, products: seq<Op>)
    requires |values| == |ops| + 1 && |factors| == |products| + 1 && !Multiplicative(op)
    requires forall i :: 0 <= i < |products| ==> Multiplicative(products[i])
    ensures Parse(values + factors, ops + [op] + products) == Bin(op, Parse(values, ops), Parse(factors, products))
    decreases |products|
  {
    if products == [] {
      assert factors == [factors[0]] && ops + [op] + products == ops + [op];
      ParseSnoc(values, ops, op, factors[0]);
    } else {
      var n := |products| - 1;
      var fs, ps := factors[..n + 1], products[..n];
      Seqs.SplitLast(factors);
      Seqs.SplitLast(products);
      SumTree(values, ops, op, fs, ps);
      ProductTree(fs, ps, products[n], factors[n + 1]);
      ParseSnoc(values + fs, ops + [op] + ps, products[n], factors[n + 1]);
      Seqs.Assoc(values, fs, [factors[n + 1]]);
      Seqs.Assoc(ops + [op], ps, [products[n]]);
    }
  }

  // ----- the laws

  /** An operand's value is its number. */
  lemma OperandLaw(literal: string -> Option<real>, row: Row, t: string)
    requires IsOperandText(t)
    ensures FormulaValue(literal, row, t) == Value(Number(literal, row, t))
  {
    hide FormulaValue, Values, Operations, IsOperandText, Number;
    OperandText(literal, row, t);
    ValueOfParts(literal, row, t);
  }

  /** A product times or over one more number: no number, or zero to divide by, leaves no value. */
  function WithFactor(x: Option<real>, sign: char, y: Option<real>): Option<real> {
    if x.None? || y.None? then None
    else if sign == '*' then Some(x.value * y.value)
    else if y.value == 0.0 then None
    else Some(x.value / y.value)
  }

  /** A sum plus or minus one more number. */
  function WithProduct(x: Option<real>, sign: char, y: Option<real>): Option<real> {
    if x.None? || y.None? then None
    else if sign == '+' then Some(x.value + y.value)
    else Some(x.value - y.value)
  }

  lemma EvalBin(op: Op, left: Expr, v: Option<real>)
    ensures Eval(Bin(op, left, Leaf(v))) == Apply(op, Eval(left), v)
  {
    hide Apply;
    assert Eval(Leaf(v)) == v;
  }

  lemma ApplyFactor(sign: char, x: Option<real>, y: Option<real>)
    requires sign == '*' || sign == '/'
    ensures Apply(OpOf([sign]), x, y) == WithFactor(x, sign, y)
  {
  }

  /** The value of a product and one more factor. */
  lemma ProductLaw(literal: string -> Option<real>, row: Row, first: string, rest: seq<Term>, sign: char, t: string)
    requires IsProduct(first, rest) && (sign == '*' || sign == '/') && IsOperandText(t)
    ensures var p, y := FormulaValue(literal, row, Spelled(first, rest)), Number(literal, row, t);
      && p.Value?
      && FormulaValue(literal, row, Spelled(first, rest) + [sign] + t) == Value(WithFactor(p.amount, sign, y))
  {
    hide FormulaValue, Values, Operations, IsOperandText, Number, Parse, Spelled, IsFormula, IsProduct, Multiplicative;
    hide Apply, OpOf;
    var p := Spelled(first, rest);
    ProductIsFormula(first, rest);
    FormulaParts(literal, row, first, rest);
    ProductParts(first, rest);
    FactorSign(sign);
    SplitsAtOperator(literal, row, p, sign, t);
    OperandText(literal, row, t);
    Seqs.EmptyUnit(Operations(p) + [OpOf([sign])]);
    ProductTree(Values(literal, row, p), Operations(p), OpOf([sign]), Number(literal, row, t));
    var x, y := Eval(Parse(Values(literal, row, p), Operations(p))), Number(literal, row, t);
    EvalBin(OpOf([sign]), Parse(Values(literal, row, p), Operations(p)), y);
    ApplyFactor(sign, x, y);
    ValueOfParts(literal, row, p);
    ValueOfParts(literal, row, p + [sign] + t);
  }

  /** The value of a formula and one more product: `*` and `/` bind more tightly, and sums go from left to right. */
  lemma SumLaw(literal: string -> Option<real>, row: Row, first: string, rest: seq<Term>, sign: char,
               factor: string, factors: seq<Term>)
    requires IsFormula(first, rest) && (sign == '+' || sign == '-') && IsProduct(factor, factors)
    ensures var s := FormulaValue(literal, row, Spelled(first, rest));
      var p := FormulaValue(literal, row, Spelled(factor, factors));
      && s.Value? && p.Value?
      && FormulaValue(literal, row, Spelled(first, rest) + [sign] + Spelled(factor, factors))
           == Value(WithProduct(s.amount, sign, p.amount))
  {
    hide FormulaValue, Values, Operations, IsOperandText, Parse, Spelled, IsFormula, IsProduct, Multiplicative;
    var s, p := Spelled(first, rest), Spelled(factor, factors);
    ProductIsFormula(factor, factors);
    FormulaParts(literal, row, first, rest);
    FormulaParts(literal, row, factor, factors);
    ProductParts(factor, factors);
    SumSign(sign);
    SplitsAtOperator(literal, row, s, sign, p);
    SumTree(Values(literal, row, s), Operations(s), OpOf([sign]), Values(literal, row, p), Operations(p));
    ValueOfParts(literal, row, s);
    ValueOfParts(literal, row, p);
    ValueOfParts(literal, row, s + [sign] + p);
  }

  lemma SumSign(c: char)
    requires c == '+' || c == '-'
    ensures IsOpChar(c) && !Multiplicative(OpOf([c]))
  {
  }

  ghost predicate ReadsSmallNumbers(literal: string -> Option<real>) {
    && literal("10") == Some(10.0) && literal("2") == Some(2.0) && literal("3") == Some(3.0)
    && literal("8") == Some(8.0) && literal("4") == Some(4.0)
  }

  lemma ExampleProducts(literal: string -> Option<real>, row: Row)
    requires ReadsSmallNumbers(literal)
    ensures FormulaValue(literal, row, "2*3") == Value(Some(6.0))
    ensures FormulaValue(literal, row, "8/4") == Value(Some(2.0))
    ensures Spelled("2", [Term('*', "3")]) == "2*3" && Spelled("8", [Term('/', "4")]) == "8/4"
    ensures IsProduct("2", [Term('*', "3")]) && IsProduct("8", [Term('/', "4")])
  {
    hide FormulaValue;
    OperandLaw(literal, row, "2");
    OperandLaw(literal, row, "8");
    ProductLaw(literal, row, "2", [], '*', "3");
    ProductLaw(literal, row, "8", [], '/', "4");
    SpelledOne("2", '*', "3");
    SpelledOne("8", '/', "4");
    assert Spelled("2", []) == "2" && Spelled("8", []) == "8";
    assert "2" + ['*'] + "3" == "2*3" && "8" + ['/'] + "4" == "8/4";
  }

  const EXAMPLE := [Term('-', "2"), Term('*', "3")]

  lemma ExampleDifference(literal: string -> Option<real>, row: Row)
    requires ReadsSmallNumbers(literal)
    ensures FormulaValue(literal, row, Spelled("10", EXAMPLE)) == Value(Some(4.0))
    ensures IsFormula("10", EXAMPLE) && Spelled("10", EXAMPLE) == "10-2*3"
  {
    hide FormulaValue;
    OperandLaw(literal, row, "10");
    ExampleProducts(literal, row);
    SumLaw(literal, row, "10", [], '-', "2", [Term('*', "3")]);
    ExampleSpelled();
  }

  lemma ExampleSpelled()
    ensures IsFormula("10", EXAMPLE) && Spelled("10", EXAMPLE) == "10-2*3" == Spelled("10", []) + ['-'] + "2*3"
  {
    assert EXAMPLE[..1] == [Term('-', "2")];
    SpelledOne("10", '-', "2");
  }

  /** For example, `10 - 2 * 3 + 8 / 4` is 6. */
  lemma PrecedenceExample(literal: string -> Option<real>, row: Row)
    requires ReadsSmallNumbers(literal)
    ensures FormulaValue(literal, row, "10-2*3+8/4") == Value(Some(6.0))
  {
    hide FormulaValue, Spelled, IsFormula, IsProduct, ReadsSmallNumbers, EXAMPLE;
    ExampleProducts(literal, row);
    ExampleDifference(literal, row);
    SumLaw(literal, row, "10", EXAMPLE, '+', "8", [Term('/', "4")]);
    assert "10-2*3" + ['+'] + "8/4" == "10-2*3+8/4";
  }

  lemma SpelledOne(first: string, sign: char, operand: string)
    ensures Spelled(first, [Term(sign, operand)]) == first + [sign] + operand
  {
    assert [Term(sign, operand)][..0] == [];
  }

  /** A text of blanks has no value. */
  lemma BlankLaw(literal: string -> Option<real>, row: Row, s: string)
    requires Strip(s) == ""
    ensures FormulaValue(literal, row, s) == Value(None)
  {
    BlankFormula(literal, row);
  }
}
