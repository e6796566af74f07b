/** The line wrapper of the study workbench (`_wrap_pdf_line` in `packages/study_workspace/workbench.py`). */
module TextCleanup {
  import opened Text
  import Seqs

  // ----- words

  lemma {:induction false} WordsConcat(a: string, b: string)
    requires a == "" || b == "" || IsSpace(a[|a| - 1]) || IsSpace(b[0])
    ensures Words(a + b) == Words(a) + Words(b)
  {
    if a == "" {
      Seqs.EmptyUnit(b);
      Seqs.EmptyUnit(Words(b));
    } else if b == "" {
      Seqs.EmptyUnit(a);
      Seqs.EmptyUnit(Words(a));
    } else {
      hide Words;
      Seqs.TailOfConcat(a, b);
      if |a| == 1 {
        WordsOfOne(a[0], b);
        Seqs.SplitFirst(a);
        assert a[1..] == "";
        Seqs.EmptyUnit([a[0]]);
      } else {
        WordsConcat(a[1..], b);
        assert (a + b)[1] == a[1];
        WordsStep(a);
        WordsStep(a + b);
        if !IsSpace(a[0]) && IsSpace(a[1]) {
          Seqs.Assoc([[a[0]]], Words(a[1..]), Words(b));
        } else if !IsSpace(a[0]) {
          GrowFirst(a[0], Words(a[1..]), Words(b));
        }
      }
    }
  }

  lemma GrowFirst(c: char, u: seq<string>, v: seq<string>)
    requires u != []
    ensures [[c] + (u + v)[0]] + (u + v)[1..] == [[c] + u[0]] + u[1..] + v
  {
    Seqs.TailOfConcat(u, v);
  }

  /** The definition of `Words` for a text of two characters or more. */
  lemma WordsStep(s: string)
    requires |s| > 1
    ensures IsSpace(s[0]) ==> Words(s) == Words(s[1..])
    ensures !IsSpace(s[0]) && IsSpace(s[1]) ==> Words(s) == [[s[0]]] + Words(s[1..])
    ensures !IsSpace(s[0]) && !IsSpace(s[1]) ==>
      Words(s[1..]) != [] && Words(s) == [[s[0]] + Words(s[1..])[0]] + Words(s[1..])[1..]
  {
    if !IsSpace(s[1]) {
      FirstWord(s[1..]);
    }
  }

  lemma WordsOfOne(x: char, b: string)
    requires b != "" && (IsSpace(x) || IsSpace(b[0]))
    ensures Words([x] + b) == Words([x]) + Words(b)
  {
    var s := [x] + b;
    assert s[1..] == b && s[1] == b[0];
    assert [x][1..] == "";
    WordsStep(s);
  }

  lemma FirstWord(s: string)
    requires s != "" && !IsSpace(s[0])
    ensures Words(s) != []
  {
  }

  lemma {:induction false} WordsOfBlank(s: string)
    requires Blank(s)
    ensures Words(s) == []
  {
    if s != "" {
      assert s[0] in s;
      WordsOfBlank(s[1..]);
    }
  }

  lemma WordsOfStrip(s: string)
    ensures Words(Strip(s)) == Words(s)
  {
    hide Words, Strip;
    var a, b := StripParts(s);
    var core := Strip(s);
    Seqs.Assoc(a, core, b);
    WordsOfBlank(a);
    WordsOfBlank(b);
    LastOfBlank(a);
    WordsConcat(a, core + b);
    if core != "" && b != "" {
      assert b[0] in b;
    }
    WordsConcat(core, b);
    Seqs.EmptyUnit(Words(core));
    Seqs.EmptyUnit(Words(core + b));
  }

  lemma LastOfBlank(s: string)
    requires Blank(s)
    ensures s == "" || IsSpace(s[|s| - 1])
  {
    if s != "" {
      assert s[|s| - 1] in s;
    }
  }

  // ----- wrapping

  predicate NoSpace(s: string) {
    forall i :: 0 <= i < |s| ==> !IsSpace(s[i])
  }

  /** `re.split(r"(\s+)", text)` of a stripped text: maximal runs of words and of blanks, in turn. */
  function Runs(s: string): seq<string> {
    if s == "" then []
    else
      var rest := Runs(s[1..]);
      if rest != [] && rest[0] != "" && IsSpace(rest[0][0]) == IsSpace(s[0]) then [[s[0]] + rest[0]] + rest[1..]
      else [[s[0]]] + rest
  }

  /** A text without blanks is its one word. */
  lemma {:induction false} OneWord(s: string)
    requires s != "" && NoSpace(s)
    ensures Words(s) == [s]
  {
    Seqs.SplitFirst(s);
    if |s| > 1 {
      hide Words;
      WordsStep(s);
      OneWord(s[1..]);
    } else {
      assert s[1..] == "" && s == [s[0]];
    }
  }

  predicate IsRun(t: string) {
    t != "" && (NoSpace(t) || Blank(t))
  }

  /** Runs alternate, and together they are the text. */
  ghost predicate Alternate(tokens: seq<string>) {
    && (forall i :: 0 <= i < |tokens| ==> IsRun(tokens[i]))
    && (forall i :: 0 < i < |tokens| ==> IsSpace(tokens[i - 1][|tokens[i - 1]| - 1]) != IsSpace(tokens[i][0]))
  }

  function Concat(tokens: seq<string>): string {
    if tokens == [] then "" else Concat(tokens[..|tokens| - 1]) + tokens[|tokens| - 1]
  }

  lemma {:induction false} ConcatFront(t: string, tokens: seq<string>)
    ensures Concat([t] + tokens) == t + Concat(tokens)
  {
    if tokens == [] {
      assert [t] + tokens == [t];
      assert [t][..0] == [];
      Seqs.EmptyUnit(t);
    } else {
      var n := |tokens| - 1;
      assert ([t] + tokens)[..n + 1] == [t] + tokens[..n];
      ConcatFront(t, tokens[..n]);
      Seqs.Assoc(t, Concat(tokens[..n]), tokens[n]);
    }
  }

  lemma {:induction false} RunsAreTheText(s: string)
    ensures Alternate(Runs(s)) && Concat(Runs(s)) == s
  {
    hide Alternate, Concat;
    if s == "" {
      NoRuns();
    } else {
      RunsAreTheText(s[1..]);
      Seqs.SplitFirst(s);
      var rest := Runs(s[1..]);
      RunsNotEmpty(rest);
      if rest != [] && IsSpace(rest[0][0]) == IsSpace(s[0]) {
        FirstRunGrows(s[0], rest);
      } else {
        ConcatFront([s[0]], rest);
        RunsAlternateFront(s[0], rest);
      }
    }
  }

  lemma NoRuns()
    ensures Alternate([]) && Concat([]) == ""
  {
  }

  lemma RunsNotEmpty(tokens: seq<string>)
    requires Alternate(tokens)
    ensures forall i :: 0 <= i < |tokens| ==> tokens[i] != ""
  {
  }

  lemma FirstRunGrows(c: char, rest: seq<string>)
    requires Alternate(rest) && rest != [] && IsSpace(rest[0][0]) == IsSpace(c)
    ensures Alternate([[c] + rest[0]] + rest[1..])
    ensures Concat([[c] + rest[0]] + rest[1..]) == [c] + Concat(rest)
  {
    hide IsRun, Concat;
    var grown := [c] + rest[0];
    RunGrows(c, rest[0]);
    GrownRunsAlternate(grown, rest);
    ConcatFront(grown, rest[1..]);
    ConcatFront(rest[0], rest[1..]);
    Seqs.SplitFirst(rest);
    Seqs.Assoc([c], rest[0], Concat(rest[1..]));
  }

  lemma GrownRunsAlternate(grown: string, rest: seq<string>)
    requires Alternate(rest) && rest != [] && IsRun(grown) && grown[|grown| - 1] == rest[0][|rest[0]| - 1]
    ensures Alternate([grown] + rest[1..])
  {
    var all := [grown] + rest[1..];
    assert forall i :: 0 < i < |all| ==> all[i] == rest[i];
  }

  lemma RunStarts(c: char)
    ensures IsRun([c])
  {
  }

  lemma RunGrows(c: char, t: string)
    requires IsRun(t) && IsSpace(t[0]) == IsSpace(c)
    ensures IsRun([c] + t) && ([c] + t)[|[c] + t| - 1] == t[|t| - 1]
  {
    assert t[0] in t;
  }

  lemma RunsAlternateFront(c: char, rest: seq<string>)
    requires Alternate(rest) && (rest == [] || IsSpace(rest[0][0]) != IsSpace(c))
    ensures Alternate([[c]] + rest)
  {
    RunStarts(c);
    var all := [[c]] + rest;
    assert forall i :: 0 < i < |all| ==> all[i] == rest[i - 1];
  }

  /** A wrapped line: stripped, not empty, and within the limit unless it is one word. */
  ghost predicate GoodLine(line: string, limit: int) {
    line != "" && Stripped(line) && (|line| <= limit || NoSpace(line))
  }

  /** The words of some lines, in order. */
  function WordsOfLines(lines: seq<string>): seq<string> {
    if lines == [] then [] else WordsOfLines(lines[..|lines| - 1]) + Words(lines[|lines| - 1])
  }

  lemma WordsOfLinesSnoc(lines: seq<string>, line: string)
    ensures WordsOfLines(lines + [line]) == WordsOfLines(lines) + Words(line)
  {
    Seqs.InitOfSnoc(lines, line);
  }

  /** What may be waiting for its line: something within the limit, or one run. */
  ghost predicate Waiting(current: string, limit: int) {
    |current| <= limit || NoSpace(current) || Blank(current)
  }

  lemma FlushedLine(current: string, limit: int)
    requires Waiting(current, limit) && Strip(current) != ""
    ensures GoodLine(Strip(current), limit)
  {
    var a, b := StripParts(current);
    if NoSpace(current) {
      StrippedIsFixed(current);
    } else if Blank(current) {
      BlankStrips(current);
    }
  }

  lemma BlankStrips(s: string)
    requires Blank(s)
    ensures Strip(s) == ""
  {
    assert s == s + "" + "";
    StripPadded(s, "", "");
  }

  /** Pushing `current`, stripped, onto the lines if anything is left of it. */
  function Flush(lines: seq<string>, current: string): seq<string> {
    if Strip(current) == "" then lines else lines + [Strip(current)]
  }

  lemma FlushKeepsWords(lines: seq<string>, current: string)
    ensures WordsOfLines(Flush(lines, current)) == WordsOfLines(lines) + Words(current)
  {
    hide Words, Strip, WordsOfLines;
    WordsOfStrip(current);
    if Strip(current) == "" {
      NoWords();
      Seqs.EmptyUnit(WordsOfLines(lines));
    } else {
      WordsOfLinesSnoc(lines, Strip(current));
    }
  }

  lemma NoWords()
    ensures Words("") == [] && WordsOfLines([]) == []
  {
  }

  lemma FlushKeepsGood(lines: seq<string>, current: string, limit: int)
    requires forall i :: 0 <= i < |lines| ==> GoodLine(lines[i], limit)
    requires current != "" ==> Waiting(current, limit)
    ensures var r := Flush(lines, current); forall i :: 0 <= i < |r| ==> GoodLine(r[i], limit)
  {
    hide GoodLine, Strip, Waiting;
    BlankStrips("");
    if Strip(current) != "" {
      FlushedLine(current, limit);
    }
  }

  // ----- greedy grouping

  function Flatten(groups: seq<seq<string>>): seq<string> {
    if groups == [] then [] else Flatten(groups[..|groups| - 1]) + groups[|groups| - 1]
  }

  /** The stripped text of each group that is not blank. */
  function LinesOf(groups: seq<seq<string>>): seq<string> {
    if groups == [] then [] else Flush(LinesOf(groups[..|groups| - 1]), Concat(groups[|groups| - 1]))
  }

  /** Groups are filled as far as the limit allows: each fits or is one token, and the next would not have fitted. */
  ghost predicate Greedy(groups: seq<seq<string>>, limit: int) {
    && (forall i :: 0 <= i < |groups| ==> groups[i] != [] && (|Concat(groups[i])| <= limit || |groups[i]| == 1))
    && (forall i :: 0 < i < |groups| ==> groups[i] != [] && |Concat(groups[i - 1])| + |groups[i][0]| > limit)
  }

  /** Adding a token to the last group keeps the grouping greedy if it fits. */
  lemma GreedyGrow(groups: seq<seq<string>>, group: seq<string>, token: string, limit: int)
    requires Greedy(groups + [group], limit) && |Concat(group + [token])| <= limit
    ensures Greedy(groups + [group + [token]], limit)
  {
    hide Concat;
    var before, after := groups + [group], groups + [group + [token]];
    assert before[|groups|] == group && (group + [token])[0] == group[0];
    assert forall i :: 0 <= i < |groups| ==> after[i] == before[i];
  }

  /** Starting a group keeps it greedy if the token does not fit. */
  lemma GreedyBreak(groups: seq<seq<string>>, token: string, limit: int)
    requires groups != [] && Greedy(groups, limit) && |Concat(groups[|groups| - 1])| + |token| > limit
    ensures Greedy(groups + [[token]], limit)
  {
    hide Concat;
    var after := groups + [[token]];
    assert forall i :: 0 <= i < |groups| ==> after[i] == groups[i];
  }

  /** Adding a token to the last group, or starting a group with it, as its length decides. */
  lemma GreedyStep(groups: seq<seq<string>>, group: seq<string>, token: string, limit: int)
    requires Greedy(groups + [group], limit)
    ensures |Concat(group)| + |token| <= limit ==> Greedy(groups + [group + [token]], limit)
    ensures |Concat(group)| + |token| > limit ==> Greedy(groups + [group] + [[token]], limit)
    ensures Concat(group + [token]) == Concat(group) + token && Concat([token]) == token
  {
    hide Greedy;
    Seqs.InitOfSnoc(group, token);
    ConcatOne(token);
    if |Concat(group)| + |token| <= limit {
      GreedyGrow(groups, group, token, limit);
    } else {
      GreedyBreak(groups + [group], token, limit);
    }
  }

  lemma ConcatOne(token: string)
    ensures Concat([token]) == token
  {
    assert [token][..0] == [];
    Seqs.EmptyUnit(token);
  }

  lemma FlattenSnoc(groups: seq<seq<string>>, group: seq<string>, token: string)
    ensures Flatten(groups + [group]) == Flatten(groups) + group
    ensures Flatten(groups + [group + [token]]) == Flatten(groups + [group]) + [token]
    ensures Flatten(groups + [group] + [[token]]) == Flatten(groups + [group]) + [token]
  {
    Seqs.InitOfSnoc(groups, group);
    Seqs.InitOfSnoc(groups, group + [token]);
    Seqs.InitOfSnoc(groups + [group], [token]);
    Seqs.Assoc(Flatten(groups), group, [token]);
  }

  lemma FirstGroup(token: string, limit: int)
    ensures Greedy([] + [[token]], limit) && Flatten([] + [[token]]) == [token] && Concat([token]) == token
  {
    Seqs.InitOfSnoc([], [token]);
    ConcatOne(token);
  }

  lemma LinesOfSnoc(groups: seq<seq<string>>, group: seq<string>)
    ensures LinesOf(groups + [group]) == Flush(LinesOf(groups), Concat(group))
  {
    Seqs.InitOfSnoc(groups, group);
  }

  /**
    `_wrap_pdf_line` loses no word and keeps their order, and no line is longer than the limit
    unless it is one single word.  When the text is too long for one line, the lines are the
    stripped groups of a greedy grouping of its words and blanks.
  */
  method WrapPdfLine(value: string, limit: int) returns (wrapped: seq<string>, ghost groups: seq<seq<string>>)
    ensures WordsOfLines(wrapped) == Words(value)
    ensures forall i :: 0 <= i < |wrapped| ==> GoodLine(wrapped[i], limit)
    ensures Strip(value) == "" ==> wrapped == []
    ensures Strip(value) != "" && |Strip(value)| <= limit ==> wrapped == [Strip(value)]
    ensures Strip(value) != "" && |Strip(value)| > limit ==>
      Flatten(groups) == Runs(Strip(value)) && Greedy(groups, limit) && wrapped == LinesOf(groups)
  {
    hide Words, Strip, Runs, WordsOfLines, GoodLine, Waiting, IsRun, Concat;
    hide EndsWithToken, Alternate, Greedy, Flatten, LinesOf;
    var text := Strip(value);
    WordsOfStrip(value);
    NoWords();
    if text == "" {
      return [], [];
    }
    if |text| <= limit {
      ShortLine(value, limit);
      return [text], [];
    }
    RunsAreTheText(text);
    var tokens := Runs(text);
    SomeRun(text);
    var current := "";
    wrapped := [];
    groups := [];
    ghost var group: seq<string> := [];
    EmptyStart(tokens);
    for n := 0 to |tokens|
      invariant EndsWithToken(current, tokens, n)
      invariant current != "" ==> Waiting(current, limit)
      invariant forall i :: 0 <= i < |wrapped| ==> GoodLine(wrapped[i], limit)
      invariant current == Concat(group) && wrapped == LinesOf(groups) && (group == [] <==> n == 0)
      invariant n == 0 ==> groups == [] && current == ""
      invariant n > 0 ==> Greedy(groups + [group], limit) && Flatten(groups + [group]) == tokens[..n]
      invariant WordsOfLines(wrapped) + Words(current) == Words(Concat(tokens[..n]))
    {
      var token := tokens[n];
      TokenStep(tokens, n, wrapped, current);
      Seqs.TakeSucc(tokens, n);
      if n == 0 {
        FirstGroup(token, limit);
        Seqs.EmptyUnit([token]);
      } else {
        GreedyStep(groups, group, token, limit);
        FlattenSnoc(groups, group, token);
      }
      if |current| + |token| <= limit {
        CurrentGrows(current, token, limit);
        current := current + token;
        Seqs.EmptyUnit([token]);
        group := group + [token];
        continue;
      }
      FlushKeepsWords(wrapped, current);
      FlushKeepsGood(wrapped, current, limit);
      if Strip(current) != "" {
        wrapped := wrapped + [Strip(current)];
      }
      RunWaits(token, limit);
      if n == 0 {
        BlankStrips("");
      } else {
        LinesOfSnoc(groups, group);
        groups := groups + [group];
      }
      group := [token];
      current := token;
    }
    LinesOfSnoc(groups, group);
    groups := groups + [group];
    Seqs.TakeAll(tokens);
    FlushKeepsWords(wrapped, current);
    FlushKeepsGood(wrapped, current, limit);
    if Strip(current) != "" {
      wrapped := wrapped + [Strip(current)];
    }
  }

  lemma SomeRun(s: string)
    requires s != ""
    ensures Runs(s) != []
  {
  }

  lemma ShortLine(value: string, limit: int)
    requires Strip(value) != "" && |Strip(value)| <= limit
    ensures GoodLine(Strip(value), limit) && WordsOfLines([Strip(value)]) == Words(Strip(value))
  {
    hide Words;
    var _, _ := StripParts(value);
    WordsOfLinesSnoc([], Strip(value));
    Seqs.EmptyUnit([Strip(value)]);
    Seqs.EmptyUnit(Words(Strip(value)));
  }

  lemma EmptyStart(tokens: seq<string>)
    ensures WordsOfLines([]) + Words("") == Words(Concat([])) && EndsWithToken("", tokens, 0)
    ensures Concat([]) == "" && LinesOf([]) == []
  {
  }

  lemma CurrentGrows(current: string, token: string, limit: int)
    requires |current| + |token| <= limit && IsRun(token)
    ensures Waiting(current + token, limit)
  {
  }

  lemma RunWaits(token: string, limit: int)
    requires IsRun(token)
    ensures Waiting(token, limit) && token != ""
  {
  }

  /** The last character waiting is the last one of the token before the `n`-th. */
  ghost predicate EndsWithToken(current: string, tokens: seq<string>, n: nat) {
    if n == 0 then current == ""
    else
      && n <= |tokens| && current != "" && tokens[n - 1] != ""
      && current[|current| - 1] == tokens[n - 1][|tokens[n - 1]| - 1]
  }

  /** One token further: its words join those already accounted for, with or without a line break before it. */
  lemma TokenStep(tokens: seq<string>, n: nat, wrapped: seq<string>, current: string)
    requires Alternate(tokens) && n < |tokens|
    requires EndsWithToken(current, tokens, n)
    requires WordsOfLines(wrapped) + Words(current) == Words(Concat(tokens[..n]))
    ensures IsRun(tokens[n])
    ensures EndsWithToken(current + tokens[n], tokens, n + 1) && EndsWithToken(tokens[n], tokens, n + 1)
    ensures WordsOfLines(wrapped) + Words(current + tokens[n]) == Words(Concat(tokens[..n + 1]))
    ensures WordsOfLines(wrapped) + Words(current) + Words(tokens[n]) == Words(Concat(tokens[..n + 1]))
  {
    hide Words, WordsOfLines, IsRun;
    var done := Concat(tokens[..n]);
    RunsNotEmpty(tokens);
    Seqs.TakeSucc(tokens, n);
    if n > 0 {
      LastOfConcat(tokens, n);
    }
    WordsConcatRun(done, tokens[n]);
    WordsConcatRun(current, tokens[n]);
    Seqs.Assoc(WordsOfLines(wrapped), Words(current), Words(tokens[n]));
  }

  lemma WordsConcatRun(s: string, t: string)
    requires IsRun(t) && (s == "" || IsSpace(s[|s| - 1]) != IsSpace(t[0]))
    ensures Words(s + t) == Words(s) + Words(t)
  {
    hide Words;
    WordsConcat(s, t);
  }

  lemma LastOfConcat(tokens: seq<string>, n: nat)
    requires Alternate(tokens) && 0 < n <= |tokens|
    ensures var c := Concat(tokens[..n]); c != "" && c[|c| - 1] == tokens[n - 1][|tokens[n - 1]| - 1]
  {
    Seqs.TakeSucc(tokens, n - 1);
    assert IsRun(tokens[n - 1]);
  }
}
