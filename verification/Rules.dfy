/** Conditions and rules of the Excel audit (`src/excel_audit/rules_engine.py`). */
module Rules {
  import Seqs
  import opened Options
  import opened Cells
  import opened Text
  import opened Audit
  import opened Formula

  // ----- conditions

  datatype Comparison = Eq | Ne | Ge | Le | Gt | Lt {
    function Symbol(): string {
      match this
      case Eq => "=="
      case Ne => "!="
      case Ge => ">="
      case Le => "<="
      case Gt => ">"
      case Lt => "<"
    }

    /** The place in the order in which a condition is searched for an operator. */
    function Rank(): nat {
      match this
      case Eq => 0
      case Ne => 1
      case Ge => 2
      case Le => 3
      case Gt => 4
      case Lt => 5
    }

    predicate Numbers(a: real, b: real) {
      match this
      case Eq => a == b
      case Ne => a != b
      case Ge => a >= b
      case Le => a <= b
      case Gt => a > b
      case Lt => a < b
    }

    /** Texts can only be equal or different. */
    predicate Texts(a: string, b: string) {
      match this
      case Eq => a == b
      case Ne => a != b
      case _ => false
    }
  }

  const SEARCH_ORDER := [Eq, Ne, Ge, Le, Gt, Lt]

  /** A column's cell against a literal: as numbers when both are, else as texts. */
  predicate Compare(literal: string -> Amount, op: Comparison, cell: Cell, right: string) {
    if cell.Number().Some? && literal(right).Some? then op.Numbers(cell.Number().value, literal(right).value)
    else op.Texts(if cell.Empty? then "" else cell.text, right)
  }

  /** A condition taken apart: the column's name, the operator, the literal. */
  datatype Split = Split(op: Comparison, column: string, literal: string)

  /** The first operator of `SEARCH_ORDER[from..]` that occurs anywhere splits the text where it first occurs. */
  function SplitFrom(text: string, from: nat): Option<Split>
    requires from <= |SEARCH_ORDER|
    decreases |SEARCH_ORDER| - from
  {
    if from == |SEARCH_ORDER| then None
    else
      var op := SEARCH_ORDER[from];
      var k := Find(text, op.Symbol());
      if k < 0 then SplitFrom(text, from + 1)
      else Some(Split(op, Strip(text[..k]), Strip(text[k + |op.Symbol()|..])))
  }

  function SplitCondition(condition: string): Option<Split> {
    SplitFrom(Strip(condition), 0)
  }

  /** `_eval_condition` */
  predicate EvalCondition(literal: string -> Amount, row: Row, condition: string) {
    || Strip(condition) == ""
    || match SplitCondition(condition)
       case None => true
       case Some(s) => Compare(literal, s.op, Get(row, s.column), s.literal)
  }

  // ----- where a condition is split

  /** `sub` occurs at `k` and nowhere before. */
  ghost predicate FirstAt(text: string, sub: string, k: nat) {
    OccursAt(text, sub, k) && forall j :: 0 <= j < k ==> !OccursAt(text, sub, j)
  }

  /** No operator that is searched for before `op` occurs in the text. */
  ghost predicate NoneEarlier(text: string, op: Comparison) {
    forall other: Comparison :: other.Rank() < op.Rank() ==> !Contains(text, other.Symbol())
  }

  lemma FindsFirst(text: string, sub: string, k: nat)
    requires FirstAt(text, sub, k)
    ensures Find(text, sub) == k
  {
    hide OccursAt;
    assert k <= |text| by {
      InText(text, sub, k);
    }
    var found := Find(text, sub);
  }

  lemma InText(text: string, sub: string, k: nat)
    requires OccursAt(text, sub, k)
    ensures k + |sub| <= |text|
  {
  }

  lemma SearchedAt(op: Comparison)
    ensures |SEARCH_ORDER| == 6 && op.Rank() < 6 && SEARCH_ORDER[op.Rank()] == op
    ensures forall i :: 0 <= i < 6 ==> SEARCH_ORDER[i].Rank() == i
  {
  }

  /** The search stops at `op` if nothing earlier occurs, and otherwise at an earlier operator. */
  lemma {:induction false} SearchStops(text: string, op: Comparison, k: nat, from: nat)
    requires FirstAt(text, op.Symbol(), k) && k + |op.Symbol()| <= |text| && from <= op.Rank()
    requires forall other: Comparison :: other.Rank() < from ==> !Contains(text, other.Symbol())
    ensures var s := SplitFrom(text, from);
      && s.Some?
      && (if NoneEarlier(text, op) then s.value == Split(op, Strip(text[..k]), Strip(text[k + |op.Symbol()|..]))
          else s.value.op.Rank() < op.Rank())
    decreases op.Rank() - from
  {
    hide Find, FirstAt, Strip, Comparison.Symbol, Comparison.Rank;
    SearchedAt(op);
    var tried := SEARCH_ORDER[from];
    SearchedAt(tried);
    if from == op.Rank() {
      FindsFirst(text, op.Symbol(), k);
    } else if Find(text, tried.Symbol()) < 0 {
      forall other: Comparison | other.Rank() < from + 1 ensures !Contains(text, other.Symbol()) {
        SearchedAt(other);
      }
      SearchStops(text, op, k, from + 1);
    }
  }

  /** What an operator symbol is made of. */
  lemma SymbolFacts(op: Comparison)
    ensures 1 <= |op.Symbol()| <= 2 && (|op.Symbol()| == 2 <==> op.Rank() < 4)
    ensures forall i :: 0 <= i < |op.Symbol()| ==> IsComparisonChar(op.Symbol()[i]) && !IsSpace(op.Symbol()[i])
    ensures Stripped(op.Symbol())
  {
  }

  // ----- blanks around a condition

  lemma BlankAt(s: string)
    requires Blank(s)
    ensures forall i :: 0 <= i < |s| ==> IsSpace(s[i])
  {
    hide IsSpace;
    assert forall i :: 0 <= i < |s| ==> s[i] in s;
  }

  /** A text without blanks occurs in a padded text exactly where it occurs inside the padding. */
  lemma OccursInside(a: string, text: string, b: string, sub: string, k: nat)
    requires Blank(a) && Blank(b) && sub != "" && !IsSpace(sub[0]) && !IsSpace(sub[|sub| - 1])
    ensures OccursAt(a + text + b, sub, k) <==> k >= |a| && OccursAt(text, sub, k - |a|)
  {
    hide IsSpace;
    var all := a + text + b;
    if k >= |a| && OccursAt(text, sub, k - |a|) {
      assert all[k..k + |sub|] == text[k - |a|..k - |a| + |sub|];
    }
    if OccursAt(all, sub, k) {
      assert all[k] == all[k..k + |sub|][0] == sub[0];
      assert all[k + |sub| - 1] == all[k..k + |sub|][|sub| - 1] == sub[|sub| - 1];
      BlankAt(a);
      BlankAt(b);
      Seqs.ThreeParts(a, text, b, k);
      Seqs.ThreeParts(a, text, b, k + |sub| - 1);
      assert all[k..k + |sub|] == text[k - |a|..k - |a| + |sub|];
    }
  }

  lemma ContainsExactly(text: string, sub: string)
    ensures Contains(text, sub) <==> exists k :: 0 <= k <= |text| && OccursAt(text, sub, k)
  {
    hide OccursAt;
  }

  /** Padding changes neither which operators occur nor, but for the shift, where one occurs first. */
  lemma PaddingIsHarmless(a: string, text: string, b: string, op: Comparison)
    requires Blank(a) && Blank(b)
    ensures Contains(a + text + b, op.Symbol()) <==> Contains(text, op.Symbol())
    ensures forall k :: k >= |a| ==> (FirstAt(a + text + b, op.Symbol(), k) ==> FirstAt(text, op.Symbol(), k - |a|))
  {
    hide OccursAt, Contains, Blank, Comparison.Symbol;
    var all, sub := a + text + b, op.Symbol();
    SymbolFacts(op);
    ContainsExactly(all, sub);
    ContainsExactly(text, sub);
    forall k: nat ensures OccursAt(all, sub, k) <==> k >= |a| && OccursAt(text, sub, k - |a|) {
      OccursInside(a, text, b, sub, k);
    }
    if Contains(text, sub) {
      var k :| 0 <= k <= |text| && OccursAt(text, sub, k);
      assert OccursAt(all, sub, k + |a|);
    }
    if Contains(all, sub) {
      var k :| 0 <= k <= |all| && OccursAt(all, sub, k);
      InText(text, sub, k - |a|);
    }
    forall k | k >= |a| && FirstAt(all, sub, k) ensures FirstAt(text, sub, k - |a|) {
      forall j | 0 <= j < k - |a| ensures !OccursAt(text, sub, j) {
        assert !OccursAt(all, sub, j + |a|);
      }
    }
  }

  lemma Around(l: string, sym: string, r: string)
    ensures (l + sym + r)[..|l|] == l && (l + sym + r)[|l| + |sym|..] == r
  {
  }

  /**
    Where a condition is split: at the first occurrence of an operator exactly when no operator
    searched for before it occurs anywhere in the text; otherwise at such an earlier one.
  */
  lemma SplitsExactly(left: string, op: Comparison, right: string)
    requires FirstAt(left + op.Symbol() + right, op.Symbol(), |left|)
    ensures var c := left + op.Symbol() + right;
      && SplitCondition(c).Some?
      && (SplitCondition(c) == Some(Split(op, Strip(left), Strip(right))) <==> NoneEarlier(c, op))
      && (!NoneEarlier(c, op) ==> SplitCondition(c).value.op.Rank() < op.Rank())
  {
    hide Strip, LStrip, RStrip, FirstAt, Find, Blank, Contains, SplitFrom, Comparison.Symbol, Comparison.Rank;
    var sym := op.Symbol();
    SymbolFacts(op);
    var l, r := LStrip(left), RStrip(right);
    var a, d := TrimAround(left, sym, right);
    HalfStrips(left);
    HalfStrips(right);
    var text, c := l + sym + r, left + sym + right;
    Seqs.Padded(a, l, sym, r, d);
    PaddingIsHarmless(a, text, d, op);
    assert FirstAt(c, sym, |left|);
    forall other: Comparison ensures Contains(c, other.Symbol()) <==> Contains(text, other.Symbol()) {
      PaddingIsHarmless(a, text, d, other);
    }
    assert NoneEarlier(c, op) == NoneEarlier(text, op);
    NothingBeforeFirst(text);
    SearchStops(text, op, |l|, 0);
    Around(l, sym, r);
  }

  lemma NothingBeforeFirst(text: string)
    ensures forall other: Comparison :: other.Rank() < 0 ==> !Contains(text, other.Symbol())
  {
  }

  // ----- conditions as they are written

  /** The operator written first in the text stands at `k`: no operator begins before it, and none there is longer. */
  ghost predicate Written(text: string, op: Comparison, k: nat) {
    && OccursAt(text, op.Symbol(), k)
    && forall other: Comparison, j: nat :: OccursAt(text, other.Symbol(), j) ==>
         j > k || (j == k && |other.Symbol()| <= |op.Symbol()|)
  }

  lemma WrittenIsFirst(text: string, op: Comparison, k: nat)
    requires Written(text, op, k)
    ensures FirstAt(text, op.Symbol(), k)
  {
    hide OccursAt, Comparison.Symbol;
    forall j: nat | j < k ensures !OccursAt(text, op.Symbol(), j) {
    }
  }

  /**
    A condition is read as it is written, at its leftmost operator, if and only if no operator that is
    searched for earlier occurs elsewhere in the text.
  */
  lemma ConditionReadsAsWritten(literal: string -> Amount, row: Row, left: string, op: Comparison, right: string)
    requires Written(left + op.Symbol() + right, op, |left|)
    ensures var c := left + op.Symbol() + right;
      && (SplitCondition(c) == Some(Split(op, Strip(left), Strip(right))) <==> NoneEarlier(c, op))
      && (NoneEarlier(c, op) ==>
            EvalCondition(literal, row, c) == Compare(literal, op, Get(row, Strip(left)), Strip(right)))
  {
    hide Strip, Written, FirstAt, Contains, SplitCondition, NoneEarlier, Compare, Comparison.Symbol, Comparison.Rank;
    var c := left + op.Symbol() + right;
    WrittenIsFirst(c, op, |left|);
    SplitsExactly(left, op, right);
    OperatorIsVisible(left, op, right);
  }

  lemma OperatorIsVisible(left: string, op: Comparison, right: string)
    ensures Strip(left + op.Symbol() + right) != ""
  {
    hide Strip, LStrip, RStrip, Blank, Comparison.Symbol;
    SymbolFacts(op);
    var a, d := TrimAround(left, op.Symbol(), right);
  }

  /** In particular the first `==` always splits the text: nothing is searched for before it. */
  lemma FirstEqualsSplits(left: string, right: string)
    requires FirstAt(left + "==" + right, "==", |left|)
    ensures SplitCondition(left + "==" + right) == Some(Split(Eq, Strip(left), Strip(right)))
  {
    hide Strip, FirstAt, Contains, SplitCondition;
    assert Eq.Symbol() == "==" && NoneEarlier(left + "==" + right, Eq);
    SplitsExactly(left, Eq, right);
  }

  predicate IsComparisonChar(c: char) {
    c == '=' || c == '!' || c == '<' || c == '>'
  }

  predicate Plain(s: string) {
    forall i :: 0 <= i < |s| ==> !IsComparisonChar(s[i])
  }

  /** `other` stands inside `op`, which stands at `p`. */
  predicate Inside(other: Comparison, j: nat, op: Comparison, p: nat) {
    && p <= j && j + |other.Symbol()| <= p + |op.Symbol()|
    && (|other.Symbol()| == |op.Symbol()| ==> other == op)
  }

  /** An operator that occurs within the bounds of another is inside it. */
  lemma MatchesInside(text: string, op: Comparison, p: nat, other: Comparison, j: nat)
    requires OccursAt(text, op.Symbol(), p) && OccursAt(text, other.Symbol(), j)
    requires p <= j && j + |other.Symbol()| <= p + |op.Symbol()|
    ensures Inside(other, j, op, p)
  {
    hide OccursAt;
    OccursChars(text, op.Symbol(), p);
    OccursChars(text, other.Symbol(), j);
    assert other.Symbol()[0] == text[j + 0] == text[p + (j - p)] == op.Symbol()[j - p];
    assert |other.Symbol()| == 2 ==> other.Symbol()[1] == text[j + 1] == op.Symbol()[1];
  }

  lemma OccursChars(text: string, sub: string, k: nat)
    requires OccursAt(text, sub, k)
    ensures k + |sub| <= |text| && forall i :: 0 <= i < |sub| ==> text[k + i] == sub[i]
  {
    forall i | 0 <= i < |sub| ensures text[k + i] == sub[i] {
      assert text[k..k + |sub|][i] == text[k + i];
    }
  }

  /** Between plain texts, operators stand only inside the two that were written. */
  lemma OnlyInside(l: string, a: Comparison, m: string, b: Comparison, r: string, other: Comparison, j: nat)
    requires Plain(l) && Plain(m) && Plain(r) && m != ""
    requires OccursAt(l + a.Symbol() + m + b.Symbol() + r, other.Symbol(), j)
    ensures Inside(other, j, a, |l|) || Inside(other, j, b, |l + a.Symbol() + m|)
  {
    hide OccursAt, IsComparisonChar, IsSpace, Stripped, Comparison.Symbol, Comparison.Rank;
    var text, p := l + a.Symbol() + m + b.Symbol() + r, |l + a.Symbol() + m|;
    SymbolFacts(other);
    OccursChars(text, other.Symbol(), j);
    var e := |other.Symbol()| - 1;
    assert text[j + 0] == other.Symbol()[0] && text[j + e] == other.Symbol()[e];
    ComparisonCharAt(l, a, m, b, r, j);
    ComparisonCharAt(l, a, m, b, r, j + e);
    OccursHere(l, a.Symbol(), m + b.Symbol() + r);
    Seqs.RegroupTail(l, a.Symbol(), m, b.Symbol(), r);
    OccursHere(l + a.Symbol() + m, b.Symbol(), r);
    if j < p {
      SymbolFacts(a);
      MatchesInside(text, a, |l|, other, j);
    } else {
      MatchesInside(text, b, p, other, j);
    }
  }

  lemma ComparisonCharAt(l: string, a: Comparison, m: string, b: Comparison, r: string, i: nat)
    requires Plain(l) && Plain(m) && Plain(r)
    requires i < |l + a.Symbol() + m + b.Symbol() + r| && IsComparisonChar((l + a.Symbol() + m + b.Symbol() + r)[i])
    ensures |l| <= i < |l| + |a.Symbol()| || |l + a.Symbol() + m| <= i < |l + a.Symbol() + m| + |b.Symbol()|
  {
    hide IsComparisonChar, Comparison.Symbol;
    Seqs.ThreeParts(l + a.Symbol() + m, b.Symbol(), r, i);
    Seqs.ThreeParts(l, a.Symbol(), m, i);
  }

  /** The same with one operator. */
  lemma OnlyInsideOne(l: string, a: Comparison, r: string, other: Comparison, j: nat)
    requires Plain(l) && Plain(r)
    requires OccursAt(l + a.Symbol() + r, other.Symbol(), j)
    ensures Inside(other, j, a, |l|)
  {
    hide OccursAt, IsComparisonChar, IsSpace, Stripped, Comparison.Symbol, Comparison.Rank;
    var text := l + a.Symbol() + r;
    SymbolFacts(other);
    OccursChars(text, other.Symbol(), j);
    var e := |other.Symbol()| - 1;
    assert text[j + 0] == other.Symbol()[0] && text[j + e] == other.Symbol()[e];
    Seqs.ThreeParts(l, a.Symbol(), r, j);
    Seqs.ThreeParts(l, a.Symbol(), r, j + e);
    OccursHere(l, a.Symbol(), r);
    MatchesInside(text, a, |l|, other, j);
  }

  lemma InsideIsNotEarlier(other: Comparison, j: nat, op: Comparison, p: nat)
    requires Inside(other, j, op, p)
    ensures other.Rank() >= op.Rank() && (j == p || |op.Symbol()| == 2)
  {
    SymbolFacts(other);
    SymbolFacts(op);
  }

  /** With one operator between plain texts, the condition holds for every operator and any spacing. */
  lemma PlainConditionsRead(left: string, op: Comparison, right: string)
    requires Plain(left) && Plain(right)
    ensures var c := left + op.Symbol() + right; Written(c, op, |left|) && NoneEarlier(c, op)
  {
    hide Plain, OccursAt, Contains, Comparison.Symbol, Comparison.Rank;
    var c := left + op.Symbol() + right;
    OccursHere(left, op.Symbol(), right);
    forall other: Comparison, j: nat | OccursAt(c, other.Symbol(), j)
      ensures Inside(other, j, op, |left|) && other.Rank() >= op.Rank()
    {
      OnlyInsideOne(left, op, right, other, j);
      InsideIsNotEarlier(other, j, op, |left|);
    }
    forall other: Comparison | other.Rank() < op.Rank() ensures !Contains(c, other.Symbol()) {
      ContainsExactly(c, other.Symbol());
    }
  }

  /** The cell that a plain condition is about, and the text on its other side. */
  ghost predicate BothNumbers(literal: string -> Amount, row: Row, left: string, right: string) {
    Strip(left) in row && row[Strip(left)].Number().Some? && literal(Strip(right)).Some?
  }

  /** Two numbers are compared as numbers, in all six ways. */
  lemma NumbersAreCompared(literal: string -> Amount, row: Row, left: string, right: string)
    requires Plain(left) && Plain(right) && BothNumbers(literal, row, left, right)
    ensures var x, y := row[Strip(left)].Number().value, literal(Strip(right)).value;
      && (EvalCondition(literal, row, left + "==" + right) <==> x == y)
      && (EvalCondition(literal, row, left + "!=" + right) <==> x != y)
      && (EvalCondition(literal, row, left + ">=" + right) <==> x >= y)
      && (EvalCondition(literal, row, left + "<=" + right) <==> x <= y)
      && (EvalCondition(literal, row, left + ">" + right) <==> x > y)
      && (EvalCondition(literal, row, left + "<" + right) <==> x < y)
  {
    hide EvalCondition, Plain, Strip;
    SixConditions(literal, row, left, right);
  }

  /** Other cells are compared as texts: a missing or empty one is the empty text, and none is more or less. */
  lemma TextsAreCompared(literal: string -> Amount, row: Row, left: string, right: string)
    requires Plain(left) && Plain(right) && !BothNumbers(literal, row, left, right)
    ensures var t := if Strip(left) in row && row[Strip(left)].Filled? then row[Strip(left)].text else "";
      && (EvalCondition(literal, row, left + "==" + right) <==> t == Strip(right))
      && (EvalCondition(literal, row, left + "!=" + right) <==> t != Strip(right))
      && !EvalCondition(literal, row, left + ">=" + right) && !EvalCondition(literal, row, left + "<=" + right)
      && !EvalCondition(literal, row, left + ">" + right) && !EvalCondition(literal, row, left + "<" + right)
  {
    hide EvalCondition, Plain, Strip;
    SixConditions(literal, row, left, right);
  }

  lemma SixConditions(literal: string -> Amount, row: Row, left: string, right: string)
    requires Plain(left) && Plain(right)
    ensures forall op: Comparison ::
      EvalCondition(literal, row, left + op.Symbol() + right) ==
      Compare(literal, op, Get(row, Strip(left)), Strip(right))
    ensures Eq.Symbol() == "==" && Ne.Symbol() == "!=" && Ge.Symbol() == ">=" && Le.Symbol() == "<="
    ensures Gt.Symbol() == ">" && Lt.Symbol() == "<"
  {
    hide EvalCondition, Plain, Strip, Compare, Written, NoneEarlier;
    forall op: Comparison ensures
      EvalCondition(literal, row, left + op.Symbol() + right) ==
      Compare(literal, op, Get(row, Strip(left)), Strip(right))
    {
      PlainConditionsRead(left, op, right);
      ConditionReadsAsWritten(literal, row, left, op, right);
    }
  }

  /** A condition that is blank, or that has no operator in it, holds. */
  lemma NoConditionHolds(literal: string -> Amount, row: Row, condition: string)
    requires Strip(condition) == "" || Plain(condition)
    ensures EvalCondition(literal, row, condition)
  {
    if Strip(condition) != "" {
      hide Strip, Compare, Find, Plain;
      PlainStripped(condition);
      forall op: Comparison ensures Find(Strip(condition), op.Symbol()) < 0 {
        NotInPlain(Strip(condition), op);
      }
      NothingSplits(Strip(condition), 0);
    }
  }

  lemma PlainStripped(s: string)
    requires Plain(s)
    ensures Plain(Strip(s))
  {
    hide Strip, IsComparisonChar;
    StripKeepsMembers(s);
    forall i | 0 <= i < |Strip(s)| ensures !IsComparisonChar(Strip(s)[i]) {
      assert Strip(s)[i] in s;
    }
  }

  lemma NotInPlain(s: string, op: Comparison)
    requires Plain(s)
    ensures Find(s, op.Symbol()) < 0
  {
    SymbolFacts(op);
    var sub := op.Symbol();
    forall k: nat ensures !OccursAt(s, sub, k) {
      assert k + |sub| <= |s| ==> s[k..k + |sub|][0] == s[k];
    }
  }

  lemma {:induction false} NothingSplits(text: string, from: nat)
    requires from <= |SEARCH_ORDER| && forall op: Comparison :: Find(text, op.Symbol()) < 0
    ensures SplitFrom(text, from).None?
    decreases |SEARCH_ORDER| - from
  {
    if from < |SEARCH_ORDER| {
      NothingSplits(text, from + 1);
    }
  }


  lemma OccursHere(l: string, sub: string, r: string)
    ensures OccursAt(l + sub + r, sub, |l|)
  {
    assert (l + sub + r)[|l|..|l| + |sub|] == sub;
  }

  /**
    Where the condition fails: of two operators between plain texts, the second one splits the text
    whenever it is searched for earlier, although the first one is what is written first.
  */
  lemma SecondOperatorSplits(l: string, a: Comparison, m: string, b: Comparison, r: string)
    requires Plain(l) && Plain(m) && Plain(r) && m != "" && b.Rank() < a.Rank()
    ensures var c := l + a.Symbol() + m + b.Symbol() + r;
      && Written(c, a, |l|)
      && SplitCondition(c) == Some(Split(b, Strip(l + a.Symbol() + m), Strip(r)))
  {
    hide Plain, OccursAt, Contains, Strip, SplitCondition, Comparison.Symbol, Comparison.Rank;
    var left := l + a.Symbol() + m;
    var c := left + b.Symbol() + r;
    SymbolFacts(a);
    OccursHere(left, b.Symbol(), r);
    OccursHere(l, a.Symbol(), m + b.Symbol() + r);
    Seqs.RegroupTail(l, a.Symbol(), m, b.Symbol(), r);
    forall other: Comparison, j: nat | OccursAt(c, other.Symbol(), j)
      ensures other.Rank() >= b.Rank() && (Inside(other, j, a, |l|) || Inside(other, j, b, |left|))
      ensures other == b ==> j >= |left|
    {
      OnlyInside(l, a, m, b, r, other, j);
      if Inside(other, j, a, |l|) {
        InsideIsNotEarlier(other, j, a, |l|);
      } else {
        InsideIsNotEarlier(other, j, b, |left|);
      }
    }
    assert FirstAt(c, b.Symbol(), |left|);
    forall other: Comparison | other.Rank() < b.Rank() ensures !Contains(c, other.Symbol()) {
      ContainsExactly(c, other.Symbol());
    }
    SplitsExactly(left, b, r);
  }

  /** For example, a column named `x > a` is compared here, not the column `x`. */
  lemma SecondOperatorExample()
    ensures Written("x > a != b", Gt, 2) && SplitCondition("x > a != b") == Some(Split(Ne, "x > a", "b"))
  {
    hide Written, SplitCondition, Strip;
    SecondOperatorSplits("x ", Gt, " a ", Ne, " b");
    var left := "x " + Gt.Symbol() + " a ";
    assert left == "x > a " == "" + "x > a" + " ";
    assert left + Ne.Symbol() + " b" == "x > a != b";
    assert " b" == " " + "b" + "";
    StripToCore("", "x > a", " ");
    StripToCore(" ", "b", "");
  }

  // ----- rules

  datatype Rule = Rule(id: string, condition: string, formula: string)

  /** How rules are evaluated: number literals, the column with expected values ("" for none), the tolerance. */
  datatype Setting = Setting(literal: string -> Amount, expectedColumn: string, tolerance: real)

  /** The findings of a rule, or the exception of a malformed formula. */
  datatype Evaluation = Findings(findings: seq<Finding>) | Raised

  const ORDER_COLUMN := "订单编号"

  /** The rule applies to the row and its formula is malformed. */
  ghost predicate Breaks(rule: Rule, s: Setting, row: Row) {
    EvalCondition(s.literal, row, rule.condition) && FormulaValue(s.literal, row, rule.formula) == IndexError
  }

  predicate WithinTolerance(computed: real, actual: Option<real>, tolerance: real) {
    actual.Some? && Abs(computed - actual.value) <= tolerance
  }

  /** The rule applies, computes a number, and the expected column has no number within the tolerance of it. */
  ghost predicate Mismatch(rule: Rule, s: Setting, row: Row) {
    && EvalCondition(s.literal, row, rule.condition)
    && s.expectedColumn != ""
    && match FormulaValue(s.literal, row, rule.formula)
       case IndexError => false
       case Value(v) => v.Some? && !WithinTolerance(v.value, Get(row, s.expectedColumn).Number(), s.tolerance)
  }

  ghost function MismatchFinding(rule: Rule, s: Setting, row: Row, i: nat): Finding
    requires Mismatch(rule, s, row)
  {
    var computed := FormulaValue(s.literal, row, rule.formula).amount.value;
    var cell := Get(row, s.expectedColumn);
    match cell.Number()
    case None => Finding(i, rule.id, Warning, Key(row, ORDER_COLUMN), Number(computed), Raw(cell), None)
    case Some(actual) =>
      Finding(i, rule.id, DiffSeverity(Abs(computed - actual)), Key(row, ORDER_COLUMN),
              Number(computed), Number(actual), Some(Abs(computed - actual)))
  }

  lemma MismatchFindingRow(rule: Rule, s: Setting, row: Row, i: nat)
    requires Mismatch(rule, s, row)
    ensures MismatchFinding(rule, s, row, i).rowIndex == i
  {
    hide FormulaValue, EvalCondition;
  }

  /** Reference: one finding for each mismatching row, in row order. */
  ghost function Mismatches(rule: Rule, s: Setting, rows: seq<Row>, n: nat): seq<Finding>
    requires n <= |rows|
  {
    if n == 0 then []
    else Mismatches(rule, s, rows, n - 1)
         + if Mismatch(rule, s, rows[n - 1]) then [MismatchFinding(rule, s, rows[n - 1], n - 1)] else []
  }

  /** `evaluate_rule` */
  method EvaluateRule(rule: Rule, rows: seq<Row>, s: Setting) returns (r: Evaluation)
    ensures r.Raised? <==> exists i :: 0 <= i < |rows| && Breaks(rule, s, rows[i])
    ensures r.Findings? ==> r.findings == Mismatches(rule, s, rows, |rows|)
  {
    hide EvalCondition, FormulaValue;
    var findings: seq<Finding> := [];
    for idx := 0 to |rows|
      invariant findings == Mismatches(rule, s, rows, idx)
      invariant forall i :: 0 <= i < idx ==> !Breaks(rule, s, rows[i])
    {
      var row := rows[idx];
      if !EvalCondition(s.literal, row, rule.condition) {
        continue;
      }
      var outcome := EvalSimpleFormula(rule.formula, s.literal, row);
      if outcome.IndexError? {
        assert Breaks(rule, s, rows[idx]);
        return Raised;
      }
      var computed := outcome.amount;
      if computed.None? || s.expectedColumn == "" {
        continue;
      }
      var actual := Get(row, s.expectedColumn);
      if actual.Number().None? {
        findings := findings + [Finding(idx, rule.id, Warning, Key(row, ORDER_COLUMN),
                                        Number(computed.value), Raw(actual), None)];
        continue;
      }
      var diff := Abs(computed.value - actual.Number().value);
      if diff > s.tolerance {
        findings := findings + [Finding(idx, rule.id, DiffSeverity(diff), Key(row, ORDER_COLUMN),
                                        Number(computed.value), Number(actual.Number().value), Some(diff))];
      }
    }
    return Findings(findings);
  }

  /** No row is reported twice, and rows never go backwards. */
  ghost predicate StrictRowOrder(findings: seq<Finding>, bound: int) {
    && (forall k :: 0 <= k < |findings| ==> findings[k].rowIndex < bound)
    && (forall a, b :: 0 <= a < b < |findings| ==> findings[a].rowIndex < findings[b].rowIndex)
  }

  /** A row is reported exactly when it mismatches, once, in row order. */
  lemma {:induction false} MismatchesExactly(rule: Rule, s: Setting, rows: seq<Row>, n: nat)
    requires n <= |rows|
    ensures forall i :: Reports(Mismatches(rule, s, rows, n), i) <==> 0 <= i < n && Mismatch(rule, s, rows[i])
    ensures StrictRowOrder(Mismatches(rule, s, rows, n), n)
  {
    hide Mismatch, MismatchFinding, Reports, StrictRowOrder;
    if n == 0 {
      NothingReported();
    } else {
      MismatchesExactly(rule, s, rows, n - 1);
      var fs := Mismatches(rule, s, rows, n - 1);
      if Mismatch(rule, s, rows[n - 1]) {
        MismatchFindingRow(rule, s, rows[n - 1], n - 1);
        AddReport(fs, MismatchFinding(rule, s, rows[n - 1], n - 1), n - 1);
      } else {
        Seqs.EmptyUnit(fs);
        MoreRoom(fs, n - 1);
      }
    }
  }

  lemma WithinToleranceExactly(computed: real, actual: real, tolerance: real)
    ensures WithinTolerance(computed, Some(actual), tolerance) <==> -tolerance <= computed - actual <= tolerance
  {
  }

  /** What a finding says: the rule, the row's order number, and the computed value beside the expected one. */
  ghost predicate Explains(f: Finding, rule: Rule, s: Setting, row: Row) {
    var v := FormulaValue(s.literal, row, rule.formula);
    var cell := Get(row, s.expectedColumn);
    && f.ruleId == rule.id && f.keyValue == Key(row, "订单编号")
    && v.Value? && v.amount.Some?
    && match cell.Number()
       case None => StatesCell(f, Number(v.amount.value), Raw(cell), Warning)
       case Some(actual) =>
         StatesNumbers(f, v.amount.value, actual) && !(-s.tolerance <= v.amount.value - actual <= s.tolerance)
  }

  lemma MismatchExplains(rule: Rule, s: Setting, row: Row, i: nat)
    requires Mismatch(rule, s, row)
    ensures Explains(MismatchFinding(rule, s, row, i), rule, s, row)
  {
    hide FormulaValue, EvalCondition;
  }

  /** Every finding is about a row on which the rule applies, and tells the two values apart. */
  lemma {:induction false} MismatchesExplained(rule: Rule, s: Setting, rows: seq<Row>, n: nat)
    requires n <= |rows|
    ensures forall f :: f in Mismatches(rule, s, rows, n) ==> f.rowIndex < n && Explains(f, rule, s, rows[f.rowIndex])
  {
    hide Mismatch, MismatchFinding, Explains;
    if n > 0 {
      MismatchesExplained(rule, s, rows, n - 1);
      if Mismatch(rule, s, rows[n - 1]) {
        MismatchFindingRow(rule, s, rows[n - 1], n - 1);
        MismatchExplains(rule, s, rows[n - 1], n - 1);
      }
    }
  }

  lemma NothingReported()
    ensures StrictRowOrder([], 0) && forall i :: !Reports([], i)
  {
  }

  lemma MoreRoom(fs: seq<Finding>, n: nat)
    requires StrictRowOrder(fs, n)
    ensures StrictRowOrder(fs, n + 1)
  {
  }

  lemma AddReport(fs: seq<Finding>, f: Finding, n: nat)
    requires StrictRowOrder(fs, n) && f.rowIndex == n
    ensures StrictRowOrder(fs + [f], n + 1)
    ensures forall i :: Reports(fs + [f], i) <==> Reports(fs, i) || i == n
  {
    forall i ensures Reports(fs + [f], i) <==> Reports(fs, i) || i == n {
      ReportsConcat(fs, [f], i);
      assert [f][0].rowIndex == n;
    }
  }

  ghost function AllMismatches(rules: seq<Rule>, s: Setting, rows: seq<Row>, n: nat): seq<Finding>
    requires n <= |rules|
  {
    if n == 0 then [] else AllMismatches(rules, s, rows, n - 1) + Mismatches(rules[n - 1], s, rows, |rows|)
  }

  /** `evaluate_rules`: rule by rule; one malformed formula that applies somewhere spoils the whole audit. */
  method EvaluateRules(rules: seq<Rule>, rows: seq<Row>, s: Setting) returns (r: Option<Result>)
    ensures r.None? <==> exists k, i :: 0 <= k < |rules| && 0 <= i < |rows| && Breaks(rules[k], s, rows[i])
    ensures r.Some? ==> r.value == Result(|rules|, |rows|, AllMismatches(rules, s, rows, |rules|))
  {
    hide Breaks, Mismatches;
    var all: seq<Finding> := [];
    for k := 0 to |rules|
      invariant all == AllMismatches(rules, s, rows, k)
      invariant forall k', i :: 0 <= k' < k && 0 <= i < |rows| ==> !Breaks(rules[k'], s, rows[i])
    {
      var e := EvaluateRule(rules[k], rows, s);
      if e.Raised? {
        return None;
      }
      all := all + e.findings;
    }
    return Some(Result(|rules|, |rows|, all));
  }
}
