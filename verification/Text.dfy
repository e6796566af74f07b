/** Strings as Python's `str.strip`, `str.split` and `str.join` see them. */
module Text {
  import Seqs

  /** `str.isspace` of one character; the `\s` of a text regular expression is the same class. */
  predicate IsSpace(c: char) {
    var n := c as int;
    || 9 <= n <= 13 || 28 <= n <= 32 || n == 0x85 || n == 0xA0 || n == 0x1680
    || 0x2000 <= n <= 0x200A || n == 0x2028 || n == 0x2029 || n == 0x202F || n == 0x205F || n == 0x3000
  }

  predicate Blank(s: string) {
    forall c :: c in s ==> IsSpace(c)
  }

  function LStrip(s: string): string {
    if s != "" && IsSpace(s[0]) then LStrip(s[1..]) else s
  }

  function RStrip(s: string): string {
    if s != "" && IsSpace(s[|s| - 1]) then RStrip(s[..|s| - 1]) else s
  }

  function Strip(s: string): string {
    RStrip(LStrip(s))
  }

  lemma StripKeepsMembers(s: string)
    ensures forall c :: c in Strip(s) ==> c in s
  {
    LStripKeepsMembers(s);
    RStripKeepsMembers(LStrip(s));
  }

  lemma LStripKeepsMembers(s: string)
    ensures forall c :: c in LStrip(s) ==> c in s
  {
  }

  lemma RStripKeepsMembers(s: string)
    ensures forall c :: c in RStrip(s) ==> c in s
  {
  }

  /** Nothing left to strip. */
  predicate Stripped(s: string) {
    s == "" || (!IsSpace(s[0]) && !IsSpace(s[|s| - 1]))
  }

  lemma {:induction false} LStripBlank(a: string, s: string)
    requires Blank(a)
    ensures LStrip(a + s) == LStrip(s)
  {
    if a == "" {
      assert a + s == s;
    } else {
      assert a[0] in a && (a + s)[1..] == a[1..] + s;
      LStripBlank(a[1..], s);
    }
  }

  lemma {:induction false} RStripBlank(s: string, b: string)
    requires Blank(b)
    ensures RStrip(s + b) == RStrip(s)
  {
    if b == "" {
      assert s + b == s;
    } else {
      var n := |b| - 1;
      assert b[n] in b && (s + b)[..|s + b| - 1] == s + b[..n];
      RStripBlank(s, b[..n]);
    }
  }

  /** `LStrip` drops a blank prefix. */
  lemma {:induction false} LStripParts(s: string) returns (a: string)
    ensures s == a + LStrip(s) && Blank(a)
    ensures LStrip(s) == "" || !IsSpace(LStrip(s)[0])
  {
    if s != "" && IsSpace(s[0]) {
      var rest := LStripParts(s[1..]);
      a := [s[0]] + rest;
      Seqs.SplitFirst(s);
      Seqs.Assoc([s[0]], rest, LStrip(s));
    } else {
      a := "";
      Seqs.EmptyUnit(s);
    }
  }

  /** `RStrip` drops a blank suffix. */
  lemma {:induction false} RStripParts(s: string) returns (b: string)
    ensures s == RStrip(s) + b && Blank(b)
    ensures RStrip(s) == "" || !IsSpace(RStrip(s)[|RStrip(s)| - 1])
  {
    if s != "" && IsSpace(s[|s| - 1]) {
      var rest := RStripParts(s[..|s| - 1]);
      b := rest + [s[|s| - 1]];
      Seqs.SplitLast(s);
      Seqs.Assoc(RStrip(s), rest, [s[|s| - 1]]);
    } else {
      b := "";
      Seqs.EmptyUnit(s);
    }
  }

  /** What `Strip` removes: blanks on both sides, and nothing on the right of an all-blank text. */
  lemma StripParts(s: string) returns (a: string, b: string)
    ensures s == a + Strip(s) + b && Blank(a) && Blank(b)
    ensures Stripped(Strip(s))
    ensures Strip(s) == "" ==> b == ""
  {
    a := LStripParts(s);
    b := RStripParts(LStrip(s));
    RStripKeepsHead(LStrip(s));
  }

  lemma LStripKeepsLast(s: string)
    ensures s != "" && !IsSpace(s[|s| - 1]) ==> LStrip(s) != "" && LStrip(s)[|LStrip(s)| - 1] == s[|s| - 1]
  {
  }

  lemma RStripKeepsHead(s: string)
    ensures s != "" && !IsSpace(s[0]) ==> RStrip(s) != "" && RStrip(s)[0] == s[0]
  {
  }

  lemma StrippedIsFixed(s: string)
    requires Stripped(s)
    ensures Strip(s) == s
  {
  }

  /** Blanks around a text do not matter. */
  lemma StripPadded(a: string, s: string, b: string)
    requires Blank(a) && Blank(b)
    ensures Strip(a + s + b) == Strip(s)
  {
    assert a + s + b == a + (s + b);
    LStripBlank(a, s + b);
    var x := LStripParts(s);
    if LStrip(s) == "" {
      assert s + b == x + b && Blank(x + b);
      LStripBlank(x + b, "");
      assert x + b + "" == x + b;
    } else {
      assert s + b == x + (LStrip(s) + b);
      LStripBlank(x, LStrip(s) + b);
      RStripBlank(LStrip(s), b);
    }
  }

  lemma StripToCore(a: string, s: string, b: string)
    requires Blank(a) && Blank(b) && Stripped(s)
    ensures Strip(a + s + b) == s
  {
    StripPadded(a, s, b);
    StrippedIsFixed(s);
  }

  lemma CoreIsStripped(l: string, sym: string, r: string)
    requires sym != "" && Stripped(sym)
    requires l == "" || !IsSpace(l[0])
    requires r == "" || !IsSpace(r[|r| - 1])
    ensures Stripped(l + sym + r)
  {
    hide IsSpace;
    var core := l + sym + r;
    assert core[0] == (if l == "" then sym[0] else l[0]);
    assert core[|core| - 1] == (if r == "" then sym[|sym| - 1] else r[|r| - 1]);
  }

  /** Stripping a text around something visible strips its two sides. */
  lemma TrimAround(left: string, sym: string, right: string) returns (a: string, d: string)
    requires sym != "" && Stripped(sym)
    ensures Strip(left + sym + right) == LStrip(left) + sym + RStrip(right)
    ensures Blank(a) && Blank(d) && left == a + LStrip(left) && right == RStrip(right) + d
  {
    hide Strip, LStrip, RStrip, Stripped, IsSpace, Blank;
    a := LStripParts(left);
    d := RStripParts(right);
    var core := LStrip(left) + sym + RStrip(right);
    CoreIsStripped(LStrip(left), sym, RStrip(right));
    Seqs.Padded(a, LStrip(left), sym, RStrip(right), d);
    StripToCore(a, core, d);
  }

  lemma HalfStrips(s: string)
    ensures Strip(LStrip(s)) == Strip(s) && Strip(RStrip(s)) == Strip(s)
  {
    hide Strip, LStrip, RStrip, Blank;
    NothingIsBlank();
    var a := LStripParts(s);
    Seqs.EmptyUnit(a + LStrip(s));
    StripPadded(a, LStrip(s), "");
    var d := RStripParts(s);
    Seqs.EmptyUnit(RStrip(s));
    StripPadded("", RStrip(s), d);
  }

  lemma NothingIsBlank()
    ensures Blank("")
  {
  }

  /** `str.lower` on ASCII letters. */
  function Lower(s: string): (r: string)
    ensures |r| == |s| && forall i :: 0 <= i < |s| ==>
      r[i] == if 'A' <= s[i] <= 'Z' then (s[i] as int + 32) as char else s[i]
  {
    if s == "" then ""
    else [if 'A' <= s[0] <= 'Z' then (s[0] as int + 32) as char else s[0]] + Lower(s[1..])
  }

  // ----- words

  /** `str.split()`: the maximal runs of non-space characters, in order. */
  function Words(s: string): seq<string> {
    if s == "" then []
    else if IsSpace(s[0]) then Words(s[1..])
    else if |s| == 1 || IsSpace(s[1]) then [[s[0]]] + Words(s[1..])
    else var rest := Words(s[1..]); if rest == [] then [s] else [[s[0]] + rest[0]] + rest[1..]
  }

  // ----- lines

  /** `sep.join(parts)` */
  function Join(sep: string, parts: seq<string>): string {
    if parts == [] then ""
    else if |parts| == 1 then parts[0]
    else parts[0] + sep + Join(sep, parts[1..])
  }

  /** Carriage returns, alone or before a line feed, become line feeds. */
  function NormalizeEol(s: string): string {
    if s == "" then ""
    else if s[0] == '\r' then "\n" + NormalizeEol(if |s| > 1 && s[1] == '\n' then s[2..] else s[1..])
    else [s[0]] + NormalizeEol(s[1..])
  }

  lemma {:induction false} EolsAreKeptExactly(s: string)
    ensures |NormalizeEol(s)| <= |s|
    ensures NormalizeEol(s) == s <==> '\r' !in s
    decreases |s|
  {
    if s != "" {
      if s[0] == '\r' {
        EolsAreKeptExactly(if |s| > 1 && s[1] == '\n' then s[2..] else s[1..]);
        assert NormalizeEol(s)[0] == '\n' && '\r' in s;
      } else {
        EolsAreKeptExactly(s[1..]);
        Seqs.SplitFirst(s);
        assert NormalizeEol(s)[1..] == NormalizeEol(s[1..]);
      }
    }
  }

  lemma {:induction false} NormalizedMembers(s: string)
    ensures forall c :: c in NormalizeEol(s) ==> c != '\r' && (c == '\n' || c in s)
    decreases |s|
  {
    if s != "" {
      var tail := if s[0] == '\r' && |s| > 1 && s[1] == '\n' then s[2..] else s[1..];
      NormalizedMembers(tail);
      assert forall c :: c in tail ==> c in s;
    }
  }

  /** `str.split("\n")` */
  function SplitLines(s: string): (r: seq<string>)
    ensures r != []
  {
    if s == "" then [""]
    else if s[0] == '\n' then [""] + SplitLines(s[1..])
    else var rest := SplitLines(s[1..]); [[s[0]] + rest[0]] + rest[1..]
  }

  predicate OneLine(s: string) {
    '\n' !in s
  }

  predicate AllOneLine(lines: seq<string>) {
    forall i :: 0 <= i < |lines| ==> OneLine(lines[i])
  }

  lemma {:induction false} SplitsToLines(s: string)
    ensures AllOneLine(SplitLines(s))
    ensures forall i :: 0 <= i < |SplitLines(s)| ==> forall c :: c in SplitLines(s)[i] ==> c in s
  {
    if s != "" {
      SplitsToLines(s[1..]);
      Seqs.SplitFirst(s);
      var rest := SplitLines(s[1..]);
      assert forall c :: c in s[1..] ==> c in s;
      forall i | 0 <= i < |SplitLines(s)|
        ensures OneLine(SplitLines(s)[i]) && forall c :: c in SplitLines(s)[i] ==> c in s
      {
        if s[0] == '\n' {
          assert i > 0 ==> SplitLines(s)[i] == rest[i - 1];
        } else {
          assert OneLine(rest[0]);
          assert i > 0 ==> SplitLines(s)[i] == rest[i];
        }
      }
    }
  }

  lemma {:induction false} SplitOneLine(a: string)
    requires OneLine(a)
    ensures SplitLines(a) == [a]
  {
    if a != "" {
      assert a[0] in a;
      SplitOneLine(a[1..]);
      Seqs.SplitFirst(a);
    }
  }

  lemma {:induction false} SplitFirstLine(a: string, b: string)
    requires OneLine(a)
    ensures SplitLines(a + "\n" + b) == [a] + SplitLines(b)
  {
    if a == "" {
      assert a + "\n" + b == "\n" + b;
      assert ("\n" + b)[1..] == b;
    } else {
      assert a[0] in a;
      SplitFirstLine(a[1..], b);
      assert (a + "\n" + b)[1..] == a[1..] + "\n" + b;
      Seqs.SplitFirst(a);
    }
  }

  /** Splitting undoes joining. */
  lemma {:induction false} SplitJoin(lines: seq<string>)
    requires lines != [] && AllOneLine(lines)
    ensures SplitLines(Join("\n", lines)) == lines
  {
    if |lines| == 1 {
      SplitOneLine(lines[0]);
    } else {
      hide SplitLines;
      SplitJoin(lines[1..]);
      SplitFirstLine(lines[0], Join("\n", lines[1..]));
      Seqs.SplitFirst(lines);
    }
  }

  lemma {:induction false} JoinSnoc(sep: string, lines: seq<string>, last: string)
    requires lines != []
    ensures Join(sep, lines + [last]) == Join(sep, lines) + sep + last
  {
    if |lines| == 1 {
      assert (lines + [last])[1..] == [last];
    } else {
      assert (lines + [last])[1..] == lines[1..] + [last];
      JoinSnoc(sep, lines[1..], last);
      Seqs.Assoc(lines[0] + sep, Join(sep, lines[1..]) + sep, last);
      Seqs.Assoc(lines[0] + sep, Join(sep, lines[1..]), sep);
    }
  }

  /** Lines that begin and end with a visible character join to a text that does. */
  lemma StrippedJoin(lines: seq<string>)
    requires lines != [] && lines[0] != "" && !IsSpace(lines[0][0])
    requires var last := lines[|lines| - 1]; last != "" && !IsSpace(last[|last| - 1])
    ensures Stripped(Join("\n", lines))
  {
    var n := |lines| - 1;
    if n > 0 {
      Seqs.SplitLast(lines);
      JoinSnoc("\n", lines[..n], lines[n]);
      assert Join("\n", lines)[0] == lines[0][0];
    }
  }

  // ----- searching

  predicate OccursAt(s: string, sub: string, k: nat) {
    k + |sub| <= |s| && s[k..k + |sub|] == sub
  }

  /** The index of the first occurrence, or -1. */
  function Find(s: string, sub: string): (k: int)
    ensures k == -1 || 0 <= k <= |s|
    ensures k >= 0 ==> OccursAt(s, sub, k) && forall j :: 0 <= j < k ==> !OccursAt(s, sub, j)
    ensures k == -1 ==> forall j :: 0 <= j <= |s| ==> !OccursAt(s, sub, j)
  {
    FindFrom(s, sub, 0)
  }

  function FindFrom(s: string, sub: string, from: nat): (k: int)
    requires from <= |s|
    ensures k == -1 || from <= k <= |s|
    ensures k >= 0 ==> OccursAt(s, sub, k) && forall j :: from <= j < k ==> !OccursAt(s, sub, j)
    ensures k == -1 ==> forall j :: from <= j <= |s| ==> !OccursAt(s, sub, j)
    decreases |s| - from
  {
    if OccursAt(s, sub, from) then from
    else if from == |s| then -1
    else FindFrom(s, sub, from + 1)
  }

  /** `sub in s` */
  predicate Contains(s: string, sub: string) {
    Find(s, sub) >= 0
  }

  // ----- words in small or capital letters

  /** The word stands somewhere in the text, in small or capital letters. */
  ghost predicate Mentions(text: string, word: string) {
    exists k :: 0 <= k <= |text| - |word| && MentionedAt(text, word, k)
  }

  ghost predicate MentionedAt(text: string, word: string, k: nat)
    requires k + |word| <= |text|
  {
    forall i :: 0 <= i < |word| ==> SameLetter(text[k + i], word[i])
  }

  predicate SameLetter(c: char, small: char) {
    c == small || ('a' <= small <= 'z' && c as int + 32 == small as int)
  }

  ghost predicate Is(text: string, word: string) {
    |text| == |word| && MentionedAt(text, word, 0)
  }

  predicate Small(word: string) {
    forall i :: 0 <= i < |word| ==> !('A' <= word[i] <= 'Z')
  }

  lemma LowerMentions(text: string, word: string)
    requires Small(word)
    ensures Contains(Lower(text), word) <==> Mentions(text, word)
  {
    var low := Lower(text);
    forall k: nat | k + |word| <= |text| ensures OccursAt(low, word, k) <==> MentionedAt(text, word, k) {
      LowerMentionsAt(text, word, k);
    }
    if Contains(low, word) {
      assert MentionedAt(text, word, Find(low, word));
    }
    if Mentions(text, word) {
      var k :| 0 <= k <= |text| - |word| && MentionedAt(text, word, k);
      assert OccursAt(low, word, k);
    }
  }

  lemma LowerMentionsAt(text: string, word: string, k: nat)
    requires Small(word) && k + |word| <= |text|
    ensures OccursAt(Lower(text), word, k) <==> MentionedAt(text, word, k)
  {
    hide SameLetter, Lower;
    OccursPointwise(Lower(text), word, k);
    forall i: nat | i < |word| ensures Lower(text)[k + i] == word[i] <==> SameLetter(text[k + i], word[i]) {
      LowerLetter(text[k + i], word[i]);
    }
  }

  lemma OccursPointwise(s: string, word: string, k: nat)
    requires k + |word| <= |s|
    ensures OccursAt(s, word, k) <==> forall i: nat :: i < |word| ==> s[k + i] == word[i]
  {
    var part := s[k..k + |word|];
    assert forall i: nat :: i < |word| ==> part[i] == s[k + i];
    if part == word {
      assert forall i: nat :: i < |word| ==> s[k + i] == word[i];
    }
  }

  lemma LowerLetter(c: char, small: char)
    requires !('A' <= small <= 'Z')
    ensures (if 'A' <= c <= 'Z' then (c as int + 32) as char else c) == small <==> SameLetter(c, small)
  {
  }

  lemma LowerIs(text: string, word: string)
    requires Small(word)
    ensures Lower(text) == word <==> Is(text, word)
  {
    if |text| == |word| {
      LowerMentionsAt(text, word, 0);
      assert Lower(text)[0..|word|] == Lower(text);
    }
  }

  predicate SmallLetters(word: string) {
    word != "" && forall i :: 0 <= i < |word| ==> 'a' <= word[i] <= 'z'
  }

  lemma LettersAreVisible(c: char, small: char)
    requires 'a' <= small <= 'z' && SameLetter(c, small)
    ensures !IsSpace(c)
  {
  }

  /** A word is not in the blanks around a text. */
  lemma MentionsStripped(text: string, word: string)
    requires SmallLetters(word)
    ensures Mentions(text, word) <==> Mentions(Strip(text), word)
  {
    hide IsSpace, Strip, SameLetter;
    var a, b := StripParts(text);
    var s := Strip(text);
    if Mentions(text, word) {
      var k :| 0 <= k <= |text| - |word| && MentionedAt(text, word, k);
      var n := |word| - 1;
      LettersAreVisible(text[k + 0], word[0]);
      LettersAreVisible(text[k + n], word[n]);
      Seqs.ThreeParts(a, s, b, k);
      Seqs.ThreeParts(a, s, b, k + n);
      BlankMembers(a);
      BlankMembers(b);
      assert |a| <= k && k + |word| <= |a| + |s|;
      forall i | 0 <= i < |word| ensures SameLetter(s[k - |a| + i], word[i]) {
        Seqs.ThreeParts(a, s, b, k + i);
        assert SameLetter(text[k + i], word[i]);
      }
      assert MentionedAt(s, word, k - |a|);
    }
    if Mentions(s, word) {
      var k :| 0 <= k <= |s| - |word| && MentionedAt(s, word, k);
      forall i | 0 <= i < |word| ensures SameLetter(text[|a| + k + i], word[i]) {
        Seqs.ThreeParts(a, s, b, |a| + k + i);
        assert SameLetter(s[k + i], word[i]);
      }
      assert MentionedAt(text, word, |a| + k);
    }
  }

  lemma BlankMembers(s: string)
    requires Blank(s)
    ensures forall i :: 0 <= i < |s| ==> IsSpace(s[i])
  {
  }

  /** Small letters are visible where capitals are. */
  lemma LowerIsStripped(s: string)
    requires Stripped(s)
    ensures Stripped(Lower(s)) && Strip(Lower(s)) == Lower(s) && Lower(Lower(s)) == Lower(s)
  {
    hide Strip, Lower;
    if s != "" {
      VisibleLower(s[0]);
      VisibleLower(s[|s| - 1]);
    }
    StrippedIsFixed(Lower(s));
  }

  lemma VisibleLower(c: char)
    requires !IsSpace(c)
    ensures 'A' <= c <= 'Z' ==> !IsSpace((c as int + 32) as char)
  {
  }
}
