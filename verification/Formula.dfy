/**
  The formula evaluator of the Excel audit (`src/excel_audit/rules_engine.py`).

  The program splits the text at operator characters, keeps operands and operators in two
  parallel lists, and shortens both lists in place: one pass for `*` and `/`, one for `+`
  and `-`.  The reference is an expression tree: `Grouped` trees are exactly those built with
  the usual precedence and left association.
*/
module Formula {
  import Seqs
  import opened Options
  import opened Cells
  import opened Text

  /** A number, or "no value". */
  type Amount = Option<real>

  datatype Op = Add | Sub | Mul | Div

  predicate Multiplicative(op: Op) {
    op == Mul || op == Div
  }

  /** One binary operation: "no value" spreads, and so does division by zero. */
  function Apply(op: Op, a: Amount, b: Amount): Amount {
    if a.None? || b.None? then None
    else match op
      case Add => Some(a.value + b.value)
      case Sub => Some(a.value - b.value)
      case Mul => Some(a.value * b.value)
      case Div => if b.value == 0.0 then None else Some(a.value / b.value)
  }

  // ----- reference: expression trees

  datatype Expr = Leaf(amount: Amount) | Bin(op: Op, left: Expr, right: Expr)

  function Eval(e: Expr): Amount {
    match e
    case Leaf(v) => v
    case Bin(op, l, r) => Apply(op, Eval(l), Eval(r))
  }

  /** Operands joined by `*` and `/` only, grouped to the left. */
  predicate Product(e: Expr) {
    match e
    case Leaf(_) => true
    case Bin(op, l, r) => Multiplicative(op) && Product(l) && r.Leaf?
  }

  /** Products joined by `+` and `-`, grouped to the left: what an unbracketed formula means. */
  predicate Grouped(e: Expr) {
    match e
    case Leaf(_) => true
    case Bin(op, l, r) => if Multiplicative(op) then Product(e) else Grouped(l) && Product(r)
  }

  function Operands(e: Expr): seq<Amount> {
    match e
    case Leaf(v) => [v]
    case Bin(_, l, r) => Operands(l) + Operands(r)
  }

  function Operators(e: Expr): seq<Op> {
    match e
    case Leaf(_) => []
    case Bin(op, l, r) => Operators(l) + [op] + Operators(r)
  }

  predicate AdditiveRoot(e: Expr) {
    e.Bin? && !Multiplicative(e.op)
  }

  /** The tree for a formula followed by one more operator and operand. */
  function Attach(e: Expr, op: Op, v: Amount): Expr {
    if Multiplicative(op) && AdditiveRoot(e) then Bin(e.op, e.left, Bin(op, e.right, Leaf(v)))
    else Bin(op, e, Leaf(v))
  }

  function Parse(values: seq<Amount>, ops: seq<Op>): Expr
    requires |values| == |ops| + 1
    decreases |ops|
  {
    if ops == [] then Leaf(values[0])
    else Attach(Parse(values[..|ops|], ops[..|ops| - 1]), ops[|ops| - 1], values[|ops|])
  }

  lemma AttachAppends(t: Expr, op: Op, v: Amount)
    ensures Operands(Attach(t, op, v)) == Operands(t) + [v]
    ensures Operators(Attach(t, op, v)) == Operators(t) + [op]
    ensures Grouped(t) ==> Grouped(Attach(t, op, v))
  {
    assert Operands(Leaf(v)) == [v] && Operators(Leaf(v)) == [];
    if Multiplicative(op) && AdditiveRoot(t) {
      var right := Bin(op, t.right, Leaf(v));
      assert Operators(right) == Operators(t.right) + [op];
    }
  }

  /** Every list of operands and operators has a grouped tree. */
  lemma {:induction false} ParseGroups(values: seq<Amount>, ops: seq<Op>)
    requires |values| == |ops| + 1
    ensures Grouped(Parse(values, ops))
    ensures Operands(Parse(values, ops)) == values && Operators(Parse(values, ops)) == ops
    decreases |ops|
  {
    if ops != [] {
      var n := |ops|;
      ParseGroups(values[..n], ops[..n - 1]);
      var t := Parse(values[..n], ops[..n - 1]);
      AttachAppends(t, ops[n - 1], values[n]);
    }
  }

  lemma ListsMatch(e: Expr)
    ensures |Operands(e)| == |Operators(e)| + 1
  {
  }

  lemma ParseSnoc(values: seq<Amount>, ops: seq<Op>, op: Op, v: Amount)
    requires |values| == |ops| + 1
    ensures Parse(values + [v], ops + [op]) == Attach(Parse(values, ops), op, v)
  {
    var vs, os := values + [v], ops + [op];
    assert vs[..|os|] == values && os[..|os| - 1] == ops;
  }

  lemma ProductIsGrouped(e: Expr)
    ensures Product(e) ==> Grouped(e)
  {
  }

  /** ... and only one. */
  lemma {:induction false} GroupedTreeIsUnique(e: Expr)
    requires Grouped(e)
    ensures |Operands(e)| == |Operators(e)| + 1
    ensures Parse(Operands(e), Operators(e)) == e
    decreases |Operators(e)|
  {
    ListsMatch(e);
    match e {
      case Leaf(_) =>
      case Bin(op, l, Leaf(v)) =>
        ProductIsGrouped(l);
        GroupedTreeIsUnique(l);
        ParseSnoc(Operands(l), Operators(l), op, v);
        AttachAppends(l, op, v);
      case Bin(op, l, Bin(m, p, q)) =>
        var shorter := Bin(op, l, p);
        GroupedTreeIsUnique(shorter);
        ParseSnoc(Operands(shorter), Operators(shorter), m, q.amount);
        AttachAppends(shorter, m, q.amount);
    }
  }

  // ----- why shortening the lists keeps the meaning

  /** The trees agree in value, now and whatever is attached to them. */
  ghost predicate SameSoFar(t: Expr, u: Expr) {
    && Eval(t) == Eval(u)
    && AdditiveRoot(t) == AdditiveRoot(u)
    && (AdditiveRoot(t) ==> t.op == u.op && Eval(t.left) == Eval(u.left) && Eval(t.right) == Eval(u.right))
  }

  /** Attaching the same operators and operands to trees that agree keeps them in agreement. */
  lemma {:induction false} ExtendBoth(vs: seq<Amount>, os: seq<Op>, vs': seq<Amount>, os': seq<Op>,
                                      moreValues: seq<Amount>, moreOps: seq<Op>)
    requires |vs| == |os| + 1 && |vs'| == |os'| + 1 && |moreValues| == |moreOps|
    requires SameSoFar(Parse(vs, os), Parse(vs', os'))
    ensures SameSoFar(Parse(vs + moreValues, os + moreOps), Parse(vs' + moreValues, os' + moreOps))
    decreases |moreOps|
  {
    var n := |moreOps|;
    if n == 0 {
      assert vs + moreValues == vs && os + moreOps == os;
      assert vs' + moreValues == vs' && os' + moreOps == os';
    } else {
      var mv, mo := moreValues[..n - 1], moreOps[..n - 1];
      ExtendBoth(vs, os, vs', os', mv, mo);
      ParseSnoc(vs + mv, os + mo, moreOps[n - 1], moreValues[n - 1]);
      ParseSnoc(vs' + mv, os' + mo, moreOps[n - 1], moreValues[n - 1]);
      assert vs + moreValues == vs + mv + [moreValues[n - 1]] && os + moreOps == os + mo + [moreOps[n - 1]];
      assert vs' + moreValues == vs' + mv + [moreValues[n - 1]] && os' + moreOps == os' + mo + [moreOps[n - 1]];
    }
  }

  /** The lists after `values[i] = ...; del values[i + 1]; del ops[i]`. */
  function ReducedValues(values: seq<Amount>, ops: seq<Op>, i: nat): seq<Amount>
    requires i < |ops| && i + 1 < |values|
  {
    values[..i] + [Apply(ops[i], values[i], values[i + 1])] + values[i + 2..]
  }

  function ReducedOps(ops: seq<Op>, i: nat): seq<Op>
    requires i < |ops|
  {
    ops[..i] + ops[i + 1..]
  }

  /** The tree up to operand `i` when only `+` and `-` come before it. */
  lemma LastOperandIsItsOwnProduct(values: seq<Amount>, ops: seq<Op>, v: Amount)
    requires |values| == |ops| && forall j :: 0 <= j < |ops| ==> !Multiplicative(ops[j])
    ensures var t := Parse(values + [v], ops);
            if ops == [] then t == Leaf(v)
            else t == Bin(ops[|ops| - 1], Parse(values, ops[..|ops| - 1]), Leaf(v))
  {
    if ops != [] {
      ParseSnoc(values, ops[..|ops| - 1], ops[|ops| - 1], v);
      assert ops[..|ops| - 1] + [ops[|ops| - 1]] == ops;
    }
  }

  lemma CombineInTree(pending: Op, left: Expr, v: Amount, op: Op, w: Amount)
    requires Multiplicative(op) && !Multiplicative(pending)
    ensures SameSoFar(Attach(Bin(pending, left, Leaf(v)), op, w), Bin(pending, left, Leaf(Apply(op, v, w))))
    ensures SameSoFar(Attach(Leaf(v), op, w), Leaf(Apply(op, v, w)))
  {
    hide Apply;
    assert Eval(Bin(op, Leaf(v), Leaf(w))) == Apply(op, v, w);
    assert Eval(Leaf(Apply(op, v, w))) == Apply(op, v, w);
  }

  /** Combining operand `i` with its right neighbour before or after parsing is the same. */
  lemma CombineEarly(values: seq<Amount>, ops: seq<Op>, v: Amount, op: Op, w: Amount)
    requires |values| == |ops| && forall j :: 0 <= j < |ops| ==> !Multiplicative(ops[j])
    requires Multiplicative(op)
    ensures SameSoFar(Parse(values + [v] + [w], ops + [op]), Parse(values + [Apply(op, v, w)], ops))
  {
    hide Parse, SameSoFar, Apply, Attach;
    LastOperandIsItsOwnProduct(values, ops, v);
    LastOperandIsItsOwnProduct(values, ops, Apply(op, v, w));
    ParseSnoc(values + [v], ops, op, w);
    if ops == [] {
      CombineInTree(Add, Leaf(v), v, op, w);
    } else {
      CombineInTree(ops[|ops| - 1], Parse(values, ops[..|ops| - 1]), v, op, w);
    }
  }

  lemma CombineInContext(vs: seq<Amount>, os: seq<Op>, v: Amount, op: Op, w: Amount,
                         moreValues: seq<Amount>, moreOps: seq<Op>)
    requires |vs| == |os| && forall j :: 0 <= j < |os| ==> !Multiplicative(os[j])
    requires Multiplicative(op) && |moreValues| == |moreOps|
    ensures Eval(Parse(vs + [v] + [w] + moreValues, os + [op] + moreOps))
         == Eval(Parse(vs + [Apply(op, v, w)] + moreValues, os + moreOps))
  {
    hide Parse, Eval, Apply;
    CombineEarly(vs, os, v, op, w);
    ExtendBoth(vs + [v] + [w], os + [op], vs + [Apply(op, v, w)], os, moreValues, moreOps);
  }

  lemma AroundTwo<T>(s: seq<T>, i: nat)
    requires i + 1 < |s|
    ensures s[..i] + [s[i]] + [s[i + 1]] + s[i + 2..] == s
  {
  }

  lemma AroundOne<T>(s: seq<T>, i: nat)
    requires i < |s|
    ensures s[..i] + [s[i]] + s[i + 1..] == s
  {
  }

  /** Shortening at the first `*` or `/` keeps the meaning of the whole formula. */
  lemma ReductionKeepsMeaning(values: seq<Amount>, ops: seq<Op>, i: nat)
    requires |values| == |ops| + 1 && i < |ops| && Multiplicative(ops[i])
    requires forall j :: 0 <= j < i ==> !Multiplicative(ops[j])
    ensures Eval(Parse(ReducedValues(values, ops, i), ReducedOps(ops, i))) == Eval(Parse(values, ops))
  {
    hide Parse, Eval, Apply;
    AroundTwo(values, i);
    AroundOne(ops, i);
    CombineInContext(values[..i], ops[..i], values[i], ops[i], values[i + 1], values[i + 2..], ops[i + 1..]);
  }

  // ----- when there is no value

  /** In the tree: an unresolved leaf, or a division by a zero leaf. */
  predicate Poisoned(e: Expr) {
    match e
    case Leaf(v) => v == None
    case Bin(op, l, r) => Poisoned(l) || Poisoned(r) || (op == Div && r == Leaf(Some(0.0)))
  }

  lemma {:induction false} NoValueInTree(e: Expr)
    requires Grouped(e)
    ensures Eval(e) == None <==> Poisoned(e)
  {
    if e.Bin? {
      ProductIsGrouped(e.left);
      ProductIsGrouped(e.right);
      NoValueInTree(e.left);
      NoValueInTree(e.right);
      assert e.op == Div ==> e.right.Leaf?;
    }
  }

  lemma PoisonedAttach(t: Expr, op: Op, v: Amount)
    requires Grouped(t)
    ensures Poisoned(Attach(t, op, v)) <==> Poisoned(t) || v == None || (op == Div && v == Some(0.0))
  {
    if Multiplicative(op) && AdditiveRoot(t) {
      assert Poisoned(Bin(op, t.right, Leaf(v))) <==> Poisoned(t.right) || v == None || (op == Div && v == Some(0.0));
    }
  }

  /** Operand `n` is unresolved or a zero divisor. */
  ghost predicate UndefinedAt(values: seq<Amount>, ops: seq<Op>, n: nat)
    requires n < |values| == |ops| + 1
  {
    values[n] == None || (n > 0 && ops[n - 1] == Div && values[n] == Some(0.0))
  }

  lemma {:induction false} PoisonedOperand(values: seq<Amount>, ops: seq<Op>)
    requires |values| == |ops| + 1
    ensures Poisoned(Parse(values, ops)) <==> exists n :: 0 <= n < |values| && UndefinedAt(values, ops, n)
    decreases |ops|
  {
    if ops == [] {
      assert UndefinedAt(values, ops, 0) <==> values[0] == None;
    } else {
      hide Poisoned, Attach;
      var n := |ops|;
      var vs, os := values[..n], ops[..n - 1];
      PoisonedOperand(vs, os);
      ParseGroups(vs, os);
      PoisonedAttach(Parse(vs, os), ops[n - 1], values[n]);
      assert forall k :: 0 <= k < n ==> UndefinedAt(vs, os, k) == UndefinedAt(values, ops, k);
      assert Poisoned(Parse(values, ops)) <==> Poisoned(Parse(vs, os)) || UndefinedAt(values, ops, n);
    }
  }

  /** A formula has no value exactly when an operand is unresolved or a division is by a zero operand. */
  lemma NoValueExactly(values: seq<Amount>, ops: seq<Op>)
    requires |values| == |ops| + 1
    ensures Eval(Parse(values, ops)) == None <==>
      || (exists n :: 0 <= n < |values| && values[n] == None)
      || (exists n :: 0 <= n < |ops| && ops[n] == Div && values[n + 1] == Some(0.0))
  {
    ParseGroups(values, ops);
    NoValueInTree(Parse(values, ops));
    PoisonedOperand(values, ops);
    forall n | 0 <= n < |ops| ensures UndefinedAt(values, ops, n + 1) <==>
      values[n + 1] == None || (ops[n] == Div && values[n + 1] == Some(0.0)) {
    }
    if n :| 0 <= n < |values| && UndefinedAt(values, ops, n) {
      assert n > 0 && values[n] != None ==> ops[n - 1] == Div && values[n - 1 + 1] == Some(0.0);
    }
    if n :| 0 <= n < |values| && values[n] == None {
      assert UndefinedAt(values, ops, n);
    }
  }

  // ----- the text

  predicate IsOpChar(c: char) {
    c == '+' || c == '-' || c == '*' || c == '/'
  }

  predicate IsOpToken(token: string) {
    |token| == 1 && IsOpChar(token[0])
  }

  function OpOf(token: string): Op
    requires IsOpToken(token)
  {
    match token[0]
    case '+' => Add
    case '-' => Sub
    case '*' => Mul
    case _ => Div
  }

  /** The pieces between operator characters, with the operators between them. */
  function Tokens(s: string): (tokens: seq<string>)
    ensures tokens != []
  {
    if s == "" then [""]
    else if IsOpChar(s[0]) then ["", [s[0]]] + Tokens(s[1..])
    else var rest := Tokens(s[1..]); [[s[0]] + rest[0]] + rest[1..]
  }

  function Concat(tokens: seq<string>): string {
    if tokens == [] then "" else tokens[0] + Concat(tokens[1..])
  }

  /** Operators sit at the odd positions, operator-free pieces at the even ones, and no text is lost. */
  lemma {:induction false} TokensAlternate(s: string)
    ensures |Tokens(s)| % 2 == 1
    ensures Alternating(Tokens(s))
    ensures Concat(Tokens(s)) == s
  {
    if s != "" {
      TokensAlternate(s[1..]);
      Seqs.SplitFirst(s);
      if IsOpChar(s[0]) {
        OperatorToken(s[0], Tokens(s[1..]));
      } else {
        PieceGrows(s[0], Tokens(s[1..]));
      }
    }
  }

  lemma OperatorToken(c: char, rest: seq<string>)
    requires Alternating(rest) && |rest| % 2 == 1 && IsOpChar(c)
    ensures Alternating(["", [c]] + rest)
    ensures Concat(["", [c]] + rest) == [c] + Concat(rest)
  {
    OperatorTokenAlternates(c, rest);
    hide Alternating;
    Seqs.TailOfConcat([""], [[c]] + rest);
    Seqs.TailOfConcat([[c]], rest);
    assert ["", [c]] + rest == [""] + ([[c]] + rest);
    assert [""][1..] + ([[c]] + rest) == [[c]] + rest;
    assert [[c]][1..] + rest == rest;
  }

  lemma OperatorTokenAlternates(c: char, rest: seq<string>)
    requires Alternating(rest) && IsOpChar(c)
    ensures Alternating(["", [c]] + rest)
  {
    var all := ["", [c]] + rest;
    assert forall k :: 2 <= k < |all| ==> all[k] == rest[k - 2];
  }

  lemma PieceGrows(c: char, rest: seq<string>)
    requires Alternating(rest) && |rest| % 2 == 1 && !IsOpChar(c)
    ensures Alternating([[c] + rest[0]] + rest[1..])
    ensures Concat([[c] + rest[0]] + rest[1..]) == [c] + Concat(rest)
  {
    PieceGrowsAlternates(c, rest);
    hide Alternating, Concat;
    ConcatCons([c] + rest[0], rest[1..]);
    ConcatCons(rest[0], rest[1..]);
    Seqs.SplitFirst(rest);
    Seqs.Assoc([c], rest[0], Concat(rest[1..]));
  }

  lemma ConcatCons(t: string, rest: seq<string>)
    ensures Concat([t] + rest) == t + Concat(rest)
  {
    Seqs.ConsParts(t, rest);
  }

  lemma PieceGrowsAlternates(c: char, rest: seq<string>)
    requires Alternating(rest) && rest != [] && !IsOpChar(c)
    ensures Alternating([[c] + rest[0]] + rest[1..])
  {
    var all := [[c] + rest[0]] + rest[1..];
    assert forall k :: 1 <= k < |all| ==> all[k] == rest[k];
  }

  /** `resolve`: a number literal, else the row's cell as a number. `literal` is Python's `float(str)`. */
  function Resolve(literal: string -> Amount, row: Row, token: string): Amount {
    if literal(token).Some? then literal(token) else Get(row, token).Number()
  }

  predicate IsOperand(token: string) {
    Strip(token) != "" && !IsOpToken(Strip(token))
  }

  function OperandsIn(literal: string -> Amount, row: Row, tokens: seq<string>): seq<Amount> {
    if tokens == [] then []
    else
      var last := tokens[|tokens| - 1];
      OperandsIn(literal, row, tokens[..|tokens| - 1])
      + if IsOperand(last) then [Resolve(literal, row, Strip(last))] else []
  }

  function OperatorsIn(tokens: seq<string>): seq<Op> {
    if tokens == [] then []
    else
      var last := Strip(tokens[|tokens| - 1]);
      OperatorsIn(tokens[..|tokens| - 1]) + if IsOpToken(last) then [OpOf(last)] else []
  }

  /** The value of a formula text, or the `IndexError` an operator without its operand ends in. */
  datatype Outcome = Value(amount: Amount) | IndexError

  /** `_eval_simple_formula`: what it returns, in terms of the tree its text stands for. */
  function FormulaValue(literal: string -> Amount, row: Row, formula: string): Outcome {
    var tokens := Tokens(Strip(formula));
    var values, ops := OperandsIn(literal, row, tokens), OperatorsIn(tokens);
    if values == [] then Value(None)
    else if |values| == |ops| + 1 then Value(Eval(Parse(values, ops)))
    else IndexError
  }

  /** Tokens with operators at the odd positions and operator-free pieces at the even ones. */
  ghost predicate Alternating(tokens: seq<string>) {
    forall k :: 0 <= k < |tokens| ==>
      if k % 2 == 1 then IsOpToken(tokens[k]) else forall c :: c in tokens[k] ==> !IsOpChar(c)
  }

  lemma PieceOrOperator(tokens: seq<string>, k: nat)
    requires Alternating(tokens) && k < |tokens|
    ensures k % 2 == 1 ==> IsOpToken(Strip(tokens[k])) && !IsOperand(tokens[k])
    ensures k % 2 == 0 ==> !IsOpToken(Strip(tokens[k])) && (IsOperand(tokens[k]) <==> Strip(tokens[k]) != "")
  {
    if k % 2 == 1 {
      StripOperator(tokens[k]);
    } else {
      StripKeepsMembers(tokens[k]);
    }
  }

  lemma OperatorStep(tokens: seq<string>, n: nat)
    requires n < |tokens| && Alternating(tokens)
    ensures |OperatorsIn(tokens[..n + 1])| == |OperatorsIn(tokens[..n])| + if n % 2 == 1 then 1 else 0
  {
    hide Strip, Alternating, IsOpToken;
    Seqs.TakeSucc(tokens, n);
    PieceOrOperator(tokens, n);
  }

  lemma {:induction false} OperatorCount(tokens: seq<string>, n: nat)
    requires n <= |tokens| && Alternating(tokens)
    ensures |OperatorsIn(tokens[..n])| == n / 2
    decreases n
  {
    hide OperatorsIn, Alternating;
    if n == 0 {
      NoOperators(tokens);
    } else {
      OperatorCount(tokens, n - 1);
      OperatorStep(tokens, n - 1);
    }
  }

  lemma NoOperators(tokens: seq<string>)
    ensures OperatorsIn(tokens[..0]) == []
  {
  }

  lemma OperandStep(literal: string -> Amount, row: Row, tokens: seq<string>, n: nat)
    requires n < |tokens| && Alternating(tokens)
    ensures |OperandsIn(literal, row, tokens[..n + 1])| ==
            |OperandsIn(literal, row, tokens[..n])| + if n % 2 == 0 && Strip(tokens[n]) != "" then 1 else 0
  {
    var t := tokens[..n + 1];
    assert t[..n] == tokens[..n] && t[n] == tokens[n];
    PieceOrOperator(tokens, n);
  }

  /** Some piece (a token at an even position) below `n` is blank. */
  ghost predicate SomeBlank(tokens: seq<string>, n: nat)
    requires n <= |tokens|
  {
    exists k :: 0 <= k < n && k % 2 == 0 && Strip(tokens[k]) == ""
  }

  ghost predicate SomeFilled(tokens: seq<string>, n: nat)
    requires n <= |tokens|
  {
    exists k :: 0 <= k < n && k % 2 == 0 && Strip(tokens[k]) != ""
  }

  lemma PiecesStep(tokens: seq<string>, n: nat)
    requires n < |tokens|
    ensures SomeBlank(tokens, n + 1) <==> SomeBlank(tokens, n) || (n % 2 == 0 && Strip(tokens[n]) == "")
    ensures SomeFilled(tokens, n + 1) <==> SomeFilled(tokens, n) || (n % 2 == 0 && Strip(tokens[n]) != "")
  {
  }

  lemma NoPieces(literal: string -> Amount, row: Row, tokens: seq<string>)
    ensures OperandsIn(literal, row, tokens[..0]) == [] && !SomeBlank(tokens, 0) && !SomeFilled(tokens, 0)
  {
  }

  lemma {:induction false} OperandCount(literal: string -> Amount, row: Row, tokens: seq<string>, n: nat)
    requires n <= |tokens| && Alternating(tokens)
    ensures |OperandsIn(literal, row, tokens[..n])| <= (n + 1) / 2
    ensures |OperandsIn(literal, row, tokens[..n])| < (n + 1) / 2 <==> SomeBlank(tokens, n)
    ensures |OperandsIn(literal, row, tokens[..n])| > 0 <==> SomeFilled(tokens, n)
    decreases n
  {
    hide OperandsIn, SomeBlank, SomeFilled, Strip, Alternating;
    if n == 0 {
      NoPieces(literal, row, tokens);
    } else {
      OperandCount(literal, row, tokens, n - 1);
      OperandStep(literal, row, tokens, n - 1);
      PiecesStep(tokens, n - 1);
    }
  }

  lemma StripOperator(token: string)
    requires IsOpToken(token)
    ensures Strip(token) == token
  {
  }

  /**
    Which texts fail: the evaluator runs off the end of its lists exactly when some operand
    between operators is blank while another is not.
  */
  lemma FailsExactlyOnMissingOperand(literal: string -> Amount, row: Row, formula: string)
    ensures var tokens := Tokens(Strip(formula));
            FormulaValue(literal, row, formula) == IndexError <==>
              SomeBlank(tokens, |tokens|) && SomeFilled(tokens, |tokens|)
  {
    var tokens := Tokens(Strip(formula));
    TokensAlternate(Strip(formula));
    OperatorCount(tokens, |tokens|);
    OperandCount(literal, row, tokens, |tokens|);
    assert tokens[..|tokens|] == tokens;
  }

  /**
    Agreement with ordinary precedence: whatever tree a text's operands and operators are the
    reading of, the evaluator returns that tree's value.
  */
  lemma AgreesWithPrecedence(literal: string -> Amount, row: Row, formula: string, e: Expr)
    requires Grouped(e)
    requires Operands(e) == OperandsIn(literal, row, Tokens(Strip(formula)))
    requires Operators(e) == OperatorsIn(Tokens(Strip(formula)))
    ensures FormulaValue(literal, row, formula) == Value(Eval(e))
  {
    GroupedTreeIsUnique(e);
  }

  // ----- the program

  /** `_eval_simple_formula` */
  method EvalSimpleFormula(formula: string, literal: string -> Amount, row: Row) returns (r: Outcome)
    ensures r == FormulaValue(literal, row, formula)
  {
    hide Strip, Resolve, Alternating, Parse, Eval, OpOf;
    var text := Strip(formula);
    if text == "" {
      BlankFormula(literal, row);
      return Value(None);
    }
    var tokens := Tokens(text);
    var values: seq<Amount>, ops: seq<Op> := [], [];
    for n := 0 to |tokens|
      invariant values == OperandsIn(literal, row, tokens[..n])
      invariant ops == OperatorsIn(tokens[..n])
    {
      Seqs.TakeSucc(tokens, n);
      var token := Strip(tokens[n]);
      if token == "" {
        continue;
      }
      if IsOpToken(token) {
        ops := ops + [OpOf(token)];
      } else {
        values := values + [Resolve(literal, row, token)];
      }
    }
    assert tokens[..|tokens|] == tokens;
    if values == [] {
      return Value(None);
    }
    TokensAlternate(text);
    OperatorCount(tokens, |tokens|);
    OperandCount(literal, row, tokens, |tokens|);
    r := ReduceInPlace(values, ops);
  }

  lemma BlankFormula(literal: string -> Amount, row: Row)
    ensures OperandsIn(literal, row, Tokens("")) == []
  {
    assert Tokens("") == [""];
    assert OperandsIn(literal, row, [""]) == OperandsIn(literal, row, []) + [];
  }

  lemma ParseOne(values: seq<Amount>)
    requires values != []
    ensures Eval(Parse(values[..1], [])) == values[0]
  {
  }

  /** One step of the second pass. */
  lemma SumSnoc(values: seq<Amount>, ops: seq<Op>, k: nat)
    requires |values| == |ops| + 1 && k < |ops| && !Multiplicative(ops[k])
    ensures Eval(Parse(values[..k + 2], ops[..k + 1]))
      == Apply(ops[k], Eval(Parse(values[..k + 1], ops[..k])), values[k + 1])
  {
    hide Parse;
    ParseSnoc(values[..k + 1], ops[..k], ops[k], values[k + 1]);
    Seqs.TakeSucc(values, k + 1);
    Seqs.TakeSucc(ops, k);
  }

  lemma ReducedByDeletion(values: seq<Amount>, ops: seq<Op>, i: nat)
    requires i < |ops| && i + 1 < |values|
    ensures var combined := values[i := Apply(ops[i], values[i], values[i + 1])];
            combined[..i + 1] + combined[i + 2..] == ReducedValues(values, ops, i)
  {
  }

  /** The two passes over the parallel lists. */
  method ReduceInPlace(values0: seq<Amount>, ops0: seq<Op>) returns (r: Outcome)
    requires values0 != [] && |values0| <= |ops0| + 1
    ensures |values0| == |ops0| + 1 ==> r == Value(Eval(Parse(values0, ops0)))
    ensures |values0| <= |ops0| ==> r == IndexError
  {
    hide Parse, Eval, ReducedValues;
    var values, ops := values0, ops0;
    var i := 0;
    while i < |ops|
      invariant 0 <= i <= |ops| && values != []
      invariant |values| - |ops| == |values0| - |ops0|
      invariant forall j :: 0 <= j < i ==> !Multiplicative(ops[j])
      invariant |values| == |ops| + 1 ==> Eval(Parse(values, ops)) == Eval(Parse(values0, ops0))
      decreases |ops| - i
    {
      if Multiplicative(ops[i]) {
        if i + 1 >= |values| {
          return IndexError;
        }
        if |values| == |ops| + 1 {
          ReductionKeepsMeaning(values, ops, i);
        }
        ghost var before := values;
        var left, right := values[i], values[i + 1];
        if left.None? || right.None? {
          values := values[i := None];
        } else if ops[i] == Div && right.value == 0.0 {
          values := values[i := None];
        } else {
          values := values[i := Apply(ops[i], left, right)];
        }
        values := values[..i + 1] + values[i + 2..];
        ReducedByDeletion(before, ops, i);
        ops := ops[..i] + ops[i + 1..];
      } else {
        i := i + 1;
      }
    }
    var result := values[0];
    ParseOne(values);
    for k := 0 to |ops|
      invariant k < |values|
      invariant |values| == |ops| + 1 ==> result == Eval(Parse(values[..k + 1], ops[..k]))
    {
      if k + 1 >= |values| {
        return IndexError;
      }
      if |values| == |ops| + 1 {
        SumSnoc(values, ops, k);
      }
      var right := values[k + 1];
      if result.None? || right.None? {
        result := None;
      } else {
        result := Apply(ops[k], result, right);
      }
    }
    Seqs.TakeAll(values);
    Seqs.TakeAll(ops);
    return Value(result);
  }
}
