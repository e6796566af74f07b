/**
  The two text normalisers: `_clean_markdown` (`packages/study_workspace/workbench.py`) and
  `normalize_subtitle` (`src/content_kb/subtitle_ingest.py`).  Both are idempotent.
*/
module Normalizers {
  import opened Text
  import Selections
  import Seqs

  // ----- `_clean_markdown`

  /** `replace("\r\n", "\n")` */
  function ReplaceCrLf(s: string): string {
    if |s| < 2 then s
    else if s[0] == '\r' && s[1] == '\n' then "\n" + ReplaceCrLf(s[2..])
    else [s[0]] + ReplaceCrLf(s[1..])
  }

  /** `replace("\r", "\n")` */
  function ReplaceCr(s: string): string {
    if s == "" then "" else [if s[0] == '\r' then '\n' else s[0]] + ReplaceCr(s[1..])
  }

  /** The two replacements are one normalisation of line ends. */
  lemma {:induction false} TwoReplacements(s: string)
    ensures ReplaceCr(ReplaceCrLf(s)) == NormalizeEol(s)
    decreases |s|
  {
    if |s| == 1 {
      assert s[1..] == "";
      assert ReplaceCr(s[1..]) == "" && NormalizeEol(s[1..]) == "";
    } else if |s| >= 2 {
      if s[0] == '\r' && s[1] == '\n' {
        TwoReplacements(s[2..]);
        assert ("\n" + ReplaceCrLf(s[2..]))[1..] == ReplaceCrLf(s[2..]);
      } else {
        TwoReplacements(s[1..]);
        assert ([s[0]] + ReplaceCrLf(s[1..]))[1..] == ReplaceCrLf(s[1..]);
      }
    }
  }

  function RStripAll(lines: seq<string>): (r: seq<string>)
    ensures |r| == |lines| && forall i :: 0 <= i < |r| ==> r[i] == RStrip(lines[i])
  {
    if lines == [] then [] else [RStrip(lines[0])] + RStripAll(lines[1..])
  }

  predicate EndsBlank(lines: seq<string>) {
    lines != [] && Strip(lines[|lines| - 1]) == ""
  }

  /** Runs of blank lines become one empty line. */
  function Compact(lines: seq<string>): seq<string> {
    if lines == [] then []
    else
      var before, last := lines[..|lines| - 1], lines[|lines| - 1];
      if Strip(last) != "" then Compact(before) + [last]
      else if EndsBlank(before) then Compact(before)
      else Compact(before) + [""]
  }

  function CompactLines(value: string): seq<string> {
    Compact(RStripAll(SplitLines(NormalizeEol(value))))
  }

  function Cleaned(value: string): string {
    Strip(Join("\n", CompactLines(value)))
  }

  /** `_clean_markdown` */
  method CleanMarkdown(value: string) returns (r: string)
    ensures r == Cleaned(value)
  {
    hide Strip, Join, NormalizeEol, SplitLines;
    TwoReplacements(value);
    var lines := RStripAll(SplitLines(ReplaceCr(ReplaceCrLf(value))));
    var compact: seq<string> := [];
    var blank := false;
    for n := 0 to |lines|
      invariant compact == Compact(lines[..n]) && blank == EndsBlank(lines[..n])
    {
      Seqs.TakeSucc(lines, n);
      if Strip(lines[n]) == "" {
        if !blank {
          compact := compact + [""];
        }
        blank := true;
        continue;
      }
      compact := compact + [lines[n]];
      blank := false;
    }
    Seqs.TakeAll(lines);
    r := Strip(Join("\n", compact));
  }

  // ----- tidy lines

  predicate RStripped(s: string) {
    s == "" || !IsSpace(s[|s| - 1])
  }

  /** A line as `Compact` leaves it: without line ends, nothing to strip on the right. */
  predicate TidyLine(s: string) {
    OneLine(s) && '\r' !in s && RStripped(s)
  }

  ghost predicate TidyLines(lines: seq<string>) {
    forall i :: 0 <= i < |lines| ==> TidyLine(lines[i])
  }

  ghost predicate NoAdjacentBlanks(lines: seq<string>) {
    forall i :: 0 < i < |lines| ==> lines[i - 1] != "" || lines[i] != ""
  }

  /** The lines that are not blank, in order. */
  function NonBlank(lines: seq<string>): seq<string> {
    if lines == [] then []
    else NonBlank(lines[..|lines| - 1]) + if lines[|lines| - 1] == "" then [] else [lines[|lines| - 1]]
  }

  predicate NotEmpty(line: string) {
    line != ""
  }

  function Same(line: string): string {
    line
  }

  lemma {:induction false} NonBlankExactly(lines: seq<string>)
    ensures Selections.Selection(lines, NotEmpty, Same, NonBlank(lines))
  {
    hide Selections.Selection;
    if lines == [] {
      Selections.SelectNothing(NotEmpty, Same);
    } else {
      var n := |lines| - 1;
      NonBlankExactly(lines[..n]);
      Selections.SelectMore(lines[..n], NotEmpty, Same, NonBlank(lines[..n]), lines[n]);
      Seqs.SplitLast(lines);
      Seqs.EmptyUnit(NonBlank(lines[..n]));
    }
  }

  lemma TidyBlank(s: string)
    requires TidyLine(s)
    ensures Strip(s) == "" <==> s == ""
  {
    LStripKeepsLast(s);
  }

  lemma RStripTidies(s: string)
    requires OneLine(s) && '\r' !in s
    ensures TidyLine(RStrip(s))
  {
    RStripKeepsMembers(s);
    var b := RStripParts(s);
  }

  lemma {:induction false} SplitIsTidy(value: string)
    ensures TidyLines(RStripAll(SplitLines(NormalizeEol(value))))
  {
    hide RStrip, NormalizeEol, SplitLines, TidyLine;
    var text := NormalizeEol(value);
    var lines := SplitLines(text);
    NormalizedMembers(value);
    SplitsToLines(text);
    forall i | 0 <= i < |lines| ensures TidyLine(RStrip(lines[i])) {
      assert OneLine(lines[i]);
      RStripTidies(lines[i]);
    }
  }

  lemma {:induction false} CompactTidies(lines: seq<string>)
    requires TidyLines(lines)
    ensures TidyLines(Compact(lines)) && NoAdjacentBlanks(Compact(lines))
    ensures EndsBlank(lines) <==> Compact(lines) != [] && Compact(lines)[|Compact(lines)| - 1] == ""
  {
    hide Strip, TidyLine;
    EmptyIsTidy();
    if lines != [] {
      var before, last := lines[..|lines| - 1], lines[|lines| - 1];
      CompactTidies(before);
      TidyBlank(last);
    }
  }

  lemma {:induction false} CompactKeepsNonBlank(lines: seq<string>)
    requires TidyLines(lines)
    ensures NonBlank(Compact(lines)) == NonBlank(lines)
  {
    hide Strip, TidyLine, EndsBlank;
    if lines != [] {
      var before, last := lines[..|lines| - 1], lines[|lines| - 1];
      CompactKeepsNonBlank(before);
      TidyBlank(last);
      NonBlankSnoc(Compact(before), last);
      NonBlankSnoc(Compact(before), "");
    }
  }

  lemma EmptyIsTidy()
    ensures TidyLine("") && Strip("") == ""
  {
  }

  lemma NonBlankSnoc(lines: seq<string>, last: string)
    ensures NonBlank(lines + [last]) == NonBlank(lines) + if last == "" then [] else [last]
  {
    Seqs.InitOfSnoc(lines, last);
  }

  /** Lines that already are compact stay as they are. */
  lemma {:induction false} CompactIsFixed(lines: seq<string>)
    requires TidyLines(lines) && NoAdjacentBlanks(lines)
    ensures Compact(lines) == lines
  {
    hide Strip, TidyLine;
    if lines != [] {
      var before, last := lines[..|lines| - 1], lines[|lines| - 1];
      CompactIsFixed(before);
      TidyBlank(last);
      Seqs.SplitLast(lines);
      if EndsBlank(before) {
        TidyBlank(before[|before| - 1]);
        assert before[|before| - 1] == lines[|lines| - 2];
      }
    }
  }

  // ----- what the final strip does to the lines

  function DropFirstBlank(lines: seq<string>): seq<string> {
    if lines != [] && lines[0] == "" then lines[1..] else lines
  }

  function DropLastBlank(lines: seq<string>): seq<string> {
    if lines != [] && lines[|lines| - 1] == "" then lines[..|lines| - 1] else lines
  }

  function LStripFirst(lines: seq<string>): seq<string> {
    if lines == [] then [] else [LStrip(lines[0])] + lines[1..]
  }

  /** The lines of the stripped text. */
  function Core(lines: seq<string>): seq<string> {
    LStripFirst(DropLastBlank(DropFirstBlank(lines)))
  }

  lemma NewlineIsBlank()
    ensures Blank("\n") && Blank("")
  {
  }

  lemma StripDropFirst(lines: seq<string>)
    ensures Strip(Join("\n", DropFirstBlank(lines))) == Strip(Join("\n", lines))
  {
    if lines != [] && lines[0] == "" {
      if |lines| == 1 {
        assert lines[1..] == [];
      } else {
        var rest := Join("\n", lines[1..]);
        assert Join("\n", lines) == "\n" + rest + "";
        NewlineIsBlank();
        hide Strip;
        StripPadded("\n", rest, "");
      }
    }
  }

  lemma StripDropLast(lines: seq<string>)
    ensures Strip(Join("\n", DropLastBlank(lines))) == Strip(Join("\n", lines))
  {
    if lines != [] && lines[|lines| - 1] == "" {
      var before := lines[..|lines| - 1];
      Seqs.SplitLast(lines);
      if before == [] {
        assert lines == [""];
      } else {
        hide Strip, Join;
        JoinSnoc("\n", before, "");
        var text := Join("\n", before);
        assert Join("\n", lines) == "" + text + "\n";
        NewlineIsBlank();
        StripPadded("", text, "\n");
      }
    }
  }

  lemma StripLStripFirst(lines: seq<string>)
    ensures Strip(Join("\n", LStripFirst(lines))) == Strip(Join("\n", lines))
  {
    if lines != [] {
      var a := LStripParts(lines[0]);
      var text := Join("\n", LStripFirst(lines));
      JoinFirst(a, LStrip(lines[0]), lines[1..]);
      Seqs.SplitFirst(lines);
      hide Strip, Join;
      assert Join("\n", lines) == a + text + "";
      NewlineIsBlank();
      StripPadded(a, text, "");
    }
  }

  lemma JoinFirst(a: string, b: string, rest: seq<string>)
    ensures Join("\n", [a + b] + rest) == a + Join("\n", [b] + rest)
  {
    assert ([a + b] + rest)[1..] == rest && ([b] + rest)[1..] == rest;
    if rest != [] {
      Seqs.Assoc(a, b, "\n");
      Seqs.Assoc(a, b + "\n", Join("\n", rest));
    }
  }

  /** First and last lines of the stripped text begin and end visibly, the lines stay tidy and compact. */
  lemma CoreIsVisible(lines: seq<string>)
    requires TidyLines(lines) && NoAdjacentBlanks(lines)
    ensures var core := Core(lines);
      && TidyLines(core) && NoAdjacentBlanks(core)
      && (core != [] ==>
            core[0] != "" && !IsSpace(core[0][0])
            && core[|core| - 1] != "" && !IsSpace(core[|core| - 1][|core[|core| - 1]| - 1]))
  {
    hide LStrip, TidyLine, IsSpace, DropFirstBlank, DropLastBlank;
    var b := DropLastBlank(DropFirstBlank(lines));
    DropsBlankEnds(lines);
    if b != [] {
      LStripTidies(b[0]);
      TidyEnd(b[|b| - 1]);
    }
  }

  lemma DropsBlankEnds(lines: seq<string>)
    requires TidyLines(lines) && NoAdjacentBlanks(lines)
    ensures var b := DropLastBlank(DropFirstBlank(lines));
      TidyLines(b) && NoAdjacentBlanks(b) && (b != [] ==> b[0] != "" && b[|b| - 1] != "")
  {
    hide TidyLines, NoAdjacentBlanks;
    DropsBlankHead(lines);
    DropsBlankLast(DropFirstBlank(lines));
  }

  lemma DropsBlankHead(lines: seq<string>)
    requires TidyLines(lines) && NoAdjacentBlanks(lines)
    ensures var a := DropFirstBlank(lines);
      TidyLines(a) && NoAdjacentBlanks(a) && (a != [] ==> a[0] != "")
  {
    hide TidyLine;
    assert forall i :: 0 < i < |lines| ==> lines[1..][i - 1] == lines[i];
    if |lines| > 1 {
      assert lines[0] != "" || lines[1] != "";
    }
  }

  lemma DropsBlankLast(lines: seq<string>)
    requires TidyLines(lines) && NoAdjacentBlanks(lines) && (lines != [] ==> lines[0] != "")
    ensures var b := DropLastBlank(lines);
      TidyLines(b) && NoAdjacentBlanks(b) && (b != [] ==> b[0] != "" && b[|b| - 1] != "")
  {
    hide TidyLine;
    if |lines| > 1 {
      assert lines[|lines| - 2] != "" || lines[|lines| - 1] != "";
    }
  }

  lemma TidyEnd(s: string)
    requires TidyLine(s) && s != ""
    ensures !IsSpace(s[|s| - 1])
  {
  }

  lemma LStripTidies(s: string)
    requires TidyLine(s) && s != ""
    ensures LStrip(s) != "" && TidyLine(LStrip(s)) && !IsSpace(LStrip(s)[0])
    ensures LStrip(s)[|LStrip(s)| - 1] == s[|s| - 1]
  {
    var a := LStripParts(s);
    LStripKeepsMembers(s);
    LStripKeepsLast(s);
  }

  /** The cleaned text is its core lines, joined. */
  lemma CleanedIsCore(value: string)
    ensures var core := Core(CompactLines(value));
      && TidyLines(core) && NoAdjacentBlanks(core) && Cleaned(value) == Join("\n", core)
      && (core != [] ==> Stripped(Join("\n", core)))
  {
    hide Strip, Join, Compact, TidyLine, TidyLines, NoAdjacentBlanks;
    hide LStripFirst, DropLastBlank, DropFirstBlank, Stripped;
    var lines := CompactLines(value);
    SplitIsTidy(value);
    CompactTidies(RStripAll(SplitLines(NormalizeEol(value))));
    CoreIsVisible(lines);
    StripDropFirst(lines);
    StripDropLast(DropFirstBlank(lines));
    StripLStripFirst(DropLastBlank(DropFirstBlank(lines)));
    if Core(lines) == [] {
      JoinNothing();
    } else {
      StrippedJoin(Core(lines));
      StrippedIsFixed(Join("\n", Core(lines)));
    }
  }

  lemma JoinNothing()
    ensures Join("\n", []) == "" && Strip("") == ""
  {
  }

  lemma {:induction false} JoinMembers(lines: seq<string>, c: char)
    requires c != '\n' && forall i :: 0 <= i < |lines| ==> c !in lines[i]
    ensures c !in Join("\n", lines)
  {
    if |lines| > 1 {
      JoinMembers(lines[1..], c);
    }
  }

  lemma RStripsAreFixed(lines: seq<string>)
    requires TidyLines(lines)
    ensures RStripAll(lines) == lines
  {
    forall i | 0 <= i < |lines| ensures RStrip(lines[i]) == lines[i] {
      assert TidyLine(lines[i]);
    }
  }

  /** Cleaning is idempotent. */
  lemma CleanTwice(value: string)
    ensures Cleaned(Cleaned(value)) == Cleaned(value)
  {
    var core := Core(CompactLines(value));
    CleanedIsCore(value);
    if core == [] {
      CleanNothing();
    } else {
      TidyHasNoReturns(core);
      hide Core, CompactLines, TidyLines, NoAdjacentBlanks, Strip, Join, Compact;
      hide SplitLines, NormalizeEol, RStripAll, Stripped, AllOneLine;
      var text := Join("\n", core);
      assert NormalizeEol(text) == text by {
        EolsAreKeptExactly(text);
      }
      SplitJoin(core);
      RStripsAreFixed(core);
      CompactIsFixed(core);
      StrippedIsFixed(text);
      CleanSteps(text, core);
    }
  }

  lemma CleanSteps(text: string, core: seq<string>)
    requires NormalizeEol(text) == text && SplitLines(text) == core && RStripAll(core) == core && Compact(core) == core
    requires Join("\n", core) == text && Strip(text) == text
    ensures Cleaned(text) == text
  {
    hide NormalizeEol, SplitLines, RStripAll, Compact, Join, Strip;
  }

  lemma TidyHasNoReturns(lines: seq<string>)
    requires TidyLines(lines)
    ensures '\r' !in Join("\n", lines) && AllOneLine(lines)
  {
    hide Join, RStripped, OneLine;
    forall i | 0 <= i < |lines| ensures '\r' !in lines[i] && OneLine(lines[i]) {
      assert TidyLine(lines[i]);
    }
    JoinMembers(lines, '\r');
  }

  lemma CleanNothing()
    ensures Cleaned("") == ""
  {
    assert SplitLines("") == [""];
    assert RStripAll([""]) == [""];
    assert [""][..0] == [];
    assert Compact([""]) == [""];
  }

  lemma NonBlankCore(lines: seq<string>)
    requires TidyLines(lines) && NoAdjacentBlanks(lines)
    ensures NonBlank(Core(lines)) == LStripFirst(NonBlank(lines))
  {
    hide LStrip, NonBlank, TidyLine;
    var a := DropFirstBlank(lines);
    var b := DropLastBlank(a);
    NonBlankDropFirst(lines);
    NonBlankDropLast(a);
    assert forall i :: 0 <= i < |a| ==> a[i] == lines[i + |lines| - |a|];
    if b == [] {
      NoNonBlank();
    } else {
      assert b[0] == a[0] != "";
      LStripTidies(b[0]);
      NonBlankFront(LStrip(b[0]), b[1..]);
      NonBlankFront(b[0], b[1..]);
      Seqs.SplitFirst(b);
      Seqs.TailOfConcat([b[0]], NonBlank(b[1..]));
      assert [b[0]][1..] == [];
      Seqs.EmptyUnit(NonBlank(b[1..]));
    }
  }

  lemma NoNonBlank()
    ensures NonBlank([]) == []
  {
  }

  lemma {:induction false} NonBlankFront(first: string, rest: seq<string>)
    ensures NonBlank([first] + rest) == (if first == "" then [] else [first]) + NonBlank(rest)
  {
    if rest == [] {
      Seqs.EmptyUnit([first]);
      NonBlankSnoc([], first);
      Seqs.EmptyUnit(NonBlank([first]));
    } else {
      var n := |rest| - 1;
      NonBlankFront(first, rest[..n]);
      Seqs.SplitLast(rest);
      Seqs.Assoc([first], rest[..n], [rest[n]]);
      NonBlankSnoc([first] + rest[..n], rest[n]);
      Seqs.Assoc(if first == "" then [] else [first], NonBlank(rest[..n]), if rest[n] == "" then [] else [rest[n]]);
    }
  }

  lemma NonBlankDropFirst(lines: seq<string>)
    ensures NonBlank(DropFirstBlank(lines)) == NonBlank(lines)
  {
    hide NonBlank;
    if lines != [] {
      NonBlankFront(lines[0], lines[1..]);
      Seqs.SplitFirst(lines);
      Seqs.EmptyUnit(NonBlank(lines[1..]));
    }
  }

  lemma NonBlankDropLast(lines: seq<string>)
    ensures NonBlank(DropLastBlank(lines)) == NonBlank(lines)
  {
    if lines != [] {
      Seqs.EmptyUnit(NonBlank(lines[..|lines| - 1]));
    }
  }

  /**
    What cleaning keeps: the non-blank lines, stripped on the right, in order (the first one stripped
    on the left too); and no two blank lines are adjacent.
  */
  lemma CleaningKeepsLines(value: string)
    ensures var before, after := RStripAll(SplitLines(NormalizeEol(value))), SplitLines(Cleaned(value));
      NoAdjacentBlanks(after) && NonBlank(after) == LStripFirst(NonBlank(before))
  {
    hide Strip, Join, Compact, NormalizeEol, SplitLines, TidyLine, NonBlank, LStripFirst, Core, Stripped, AllOneLine;
    var lines := CompactLines(value);
    SplitIsTidy(value);
    CompactTidies(RStripAll(SplitLines(NormalizeEol(value))));
    CompactKeepsNonBlank(RStripAll(SplitLines(NormalizeEol(value))));
    CleanedIsCore(value);
    NonBlankCore(lines);
    if Core(lines) == [] {
      OneEmptyLine();
    } else {
      TidyHasNoReturns(Core(lines));
      SplitJoin(Core(lines));
    }
  }

  lemma OneEmptyLine()
    ensures Join("\n", []) == "" && SplitLines("") == [""] && NonBlank([""]) == NonBlank([])
  {
    assert [""][..0] == [];
  }

  // ----- `normalize_subtitle`

  /** `str.isdigit`, over the characters that Unicode calls digits. */
  predicate IsDigits(s: string, digit: char -> bool) {
    s != "" && forall c :: c in s ==> digit(c)
  }

  /** A subtitle line that is text: not a sequence number, not a time stamp, not blank. */
  predicate IsText(line: string, digit: char -> bool) {
    !IsDigits(line, digit) && !Contains(line, "-->") && line != ""
  }

  function TextLines(lines: seq<string>, digit: char -> bool): seq<string> {
    if lines == [] then []
    else
      var line := Strip(lines[|lines| - 1]);
      TextLines(lines[..|lines| - 1], digit) + if IsText(line, digit) then [line] else []
  }

  /** Something is left of the line, not only digits, and no arrow of a time stamp. */
  ghost predicate IsSpoken(line: string, digit: char -> bool) {
    && |Strip(line)| > 0 && (exists c :: c in Strip(line) && !digit(c))
    && forall k: nat :: !OccursAt(Strip(line), "-->", k)
  }

  lemma SpokenExactly(line: string, digit: char -> bool)
    ensures IsText(Strip(line), digit) <==> IsSpoken(line, digit)
  {
    hide Strip, OccursAt;
    var s := Strip(line);
    if Contains(s, "-->") {
      assert OccursAt(s, "-->", Find(s, "-->"));
    } else {
      forall k: nat ensures !OccursAt(s, "-->", k) {
        if k > |s| {
          NotBehind(s, "-->", k);
        }
      }
    }
  }

  lemma NotBehind(s: string, sub: string, k: nat)
    requires k > |s|
    ensures !OccursAt(s, sub, k)
  {
  }

  function Spoken(digit: char -> bool): string -> bool {
    line => IsText(Strip(line), digit)
  }

  /** The kept lines are those that are spoken, stripped, in their order. */
  lemma {:induction false} TextLinesExactly(lines: seq<string>, digit: char -> bool)
    ensures Selections.Selection(lines, Spoken(digit), Strip, TextLines(lines, digit))
    ensures forall line :: Spoken(digit)(line) <==> IsSpoken(line, digit)
  {
    hide Selections.Selection, Strip, IsText, IsSpoken;
    forall line ensures Spoken(digit)(line) <==> IsSpoken(line, digit) {
      SpokenExactly(line, digit);
    }
    if lines == [] {
      Selections.SelectNothing(Spoken(digit), Strip);
    } else {
      var n := |lines| - 1;
      TextLinesExactly(lines[..n], digit);
      Selections.SelectMore(lines[..n], Spoken(digit), Strip, TextLines(lines[..n], digit), lines[n]);
      Seqs.SplitLast(lines);
      Seqs.EmptyUnit(TextLines(lines[..n], digit));
    }
  }

  function Normalized(raw: string, digit: char -> bool): string {
    Join("\n", TextLines(SplitLines(Strip(raw)), digit))
  }

  /** `normalize_subtitle` */
  method NormalizeSubtitle(raw: string, digit: char -> bool) returns (r: string)
    ensures r == Normalized(raw, digit)
  {
    hide Strip, Join, SplitLines, Contains;
    var lines := SplitLines(Strip(raw));
    var textLines: seq<string> := [];
    for n := 0 to |lines|
      invariant textLines == TextLines(lines[..n], digit)
    {
      Seqs.TakeSucc(lines, n);
      Seqs.EmptyUnit(TextLines(lines[..n], digit));
      var line := Strip(lines[n]);
      if IsDigits(line, digit) {
        continue;
      }
      if Contains(line, "-->") {
        continue;
      }
      if line == "" {
        continue;
      }
      textLines := textLines + [line];
    }
    Seqs.TakeAll(lines);
    r := Join("\n", textLines);
  }

  predicate TextLine(s: string, digit: char -> bool) {
    OneLine(s) && Stripped(s) && IsText(s, digit)
  }

  lemma {:induction false} TextLinesAre(lines: seq<string>, digit: char -> bool)
    requires AllOneLine(lines)
    ensures forall i :: 0 <= i < |TextLines(lines, digit)| ==> TextLine(TextLines(lines, digit)[i], digit)
  {
    hide Strip, IsText, Stripped, OneLine;
    if lines != [] {
      TextLinesAre(lines[..|lines| - 1], digit);
      StripOneLine(lines[|lines| - 1]);
    }
  }

  lemma StripOneLine(s: string)
    ensures Stripped(Strip(s)) && (OneLine(s) ==> OneLine(Strip(s)))
  {
    var a, b := StripParts(s);
    StripKeepsMembers(s);
  }

  /** Text lines are kept as they are. */
  lemma {:induction false} TextLinesAreFixed(lines: seq<string>, digit: char -> bool)
    requires forall i :: 0 <= i < |lines| ==> TextLine(lines[i], digit)
    ensures TextLines(lines, digit) == lines
  {
    hide Strip, IsText, Stripped, OneLine;
    if lines != [] {
      var n := |lines| - 1;
      TextLinesAreFixed(lines[..n], digit);
      assert TextLine(lines[n], digit);
      StrippedIsFixed(lines[n]);
      Seqs.SplitLast(lines);
    }
  }

  /** Normalising is idempotent. */
  lemma NormalizeTwice(raw: string, digit: char -> bool)
    ensures Normalized(Normalized(raw, digit), digit) == Normalized(raw, digit)
  {
    hide Strip, IsText, Stripped, Join, SplitLines, TextLines;
    var lines := TextLines(SplitLines(Strip(raw)), digit);
    SplitsToLines(Strip(raw));
    TextLinesAre(SplitLines(Strip(raw)), digit);
    if lines == [] {
      NormalizeNothing(digit);
    } else {
      assert TextLine(lines[0], digit) && TextLine(lines[|lines| - 1], digit);
      VisibleEnds(lines[0], digit);
      VisibleEnds(lines[|lines| - 1], digit);
      StrippedJoin(lines);
      StrippedIsFixed(Join("\n", lines));
      forall i | 0 <= i < |lines| ensures OneLine(lines[i]) {
        assert TextLine(lines[i], digit);
      }
      SplitJoin(lines);
      TextLinesAreFixed(lines, digit);
    }
  }

  lemma VisibleEnds(s: string, digit: char -> bool)
    requires TextLine(s, digit)
    ensures s != "" && !IsSpace(s[0]) && !IsSpace(s[|s| - 1])
  {
  }

  lemma NormalizeNothing(digit: char -> bool)
    ensures Join("\n", []) == "" && Normalized("", digit) == ""
  {
    assert Strip("") == "";
    assert SplitLines("") == [""];
    assert [""][..0] == [];
    assert TextLines([""], digit) == [];
  }
}
