/**
  PDF literal strings: the escaping of `_pdf_text` (`packages/study_workspace/workbench.py`,
  `scripts/furniture_e2e.py`), and the reader of section 7.3.4.2 of ISO 32000-1.
*/
module PdfText {
  import opened Options
  import opened Text
  import Seqs

  // ----- the writer

  /** `encode("latin-1", errors="replace")`: a character outside the encoding becomes a question mark. */
  function Latin1(s: string): string {
    if s == "" then "" else [if s[0] as int < 256 then s[0] else '?'] + Latin1(s[1..])
  }

  /** `str.replace` of one character by a text. */
  function Replace(s: string, c: char, by': string): string {
    if s == "" then "" else (if s[0] == c then by' else [s[0]]) + Replace(s[1..], c, by')
  }

  /** The chain of three replacements, in the order the code makes them. */
  function EscapeChain(s: string): string {
    Replace(Replace(Replace(s, '\\', "\\\\"), '(', "\\("), ')', "\\)")
  }

  function EscapeChar(c: char): string {
    if c == '\\' || c == '(' || c == ')' then ['\\', c] else [c]
  }

  /** Reference: every character escaped once, in one pass. */
  function Escape(s: string): string {
    if s == "" then "" else EscapeChar(s[0]) + Escape(s[1..])
  }

  lemma {:induction false} ReplaceConcat(a: string, b: string, c: char, by': string)
    ensures Replace(a + b, c, by') == Replace(a, c, by') + Replace(b, c, by')
  {
    if a == "" {
      Seqs.EmptyUnit(b);
      Seqs.EmptyUnit(Replace(b, c, by'));
    } else {
      Seqs.TailOfConcat(a, b);
      ReplaceConcat(a[1..], b, c, by');
      Seqs.Assoc(if a[0] == c then by' else [a[0]], Replace(a[1..], c, by'), Replace(b, c, by'));
    }
  }

  lemma ReplaceOne(x: char, c: char, by': string)
    ensures Replace([x], c, by') == if x == c then by' else [x]
  {
    Seqs.EmptyUnit(if x == c then by' else [x]);
  }

  lemma ReplaceTwo(x: char, y: char, c: char, by': string)
    ensures Replace([x, y], c, by') == (if x == c then by' else [x]) + (if y == c then by' else [y])
  {
    assert [x, y] == [x] + [y];
    ReplaceConcat([x], [y], c, by');
    ReplaceOne(x, c, by');
    ReplaceOne(y, c, by');
  }

  lemma EscapeChainOne(c: char)
    ensures EscapeChain([c]) == EscapeChar(c)
  {
    hide Replace;
    ReplaceOne(c, '\\', "\\\\");
    ReplaceOne(c, '(', "\\(");
    ReplaceOne(c, ')', "\\)");
    ReplaceTwo('\\', '\\', '(', "\\(");
    ReplaceTwo('\\', '\\', ')', "\\)");
    ReplaceTwo('\\', '(', ')', "\\)");
    assert "\\\\" == ['\\', '\\'] == ['\\'] + ['\\'];
    assert "\\(" == ['\\', '('] == ['\\'] + ['('];
    assert "\\)" == ['\\', ')'];
  }

  /** The three replacements do not get in each other's way: together they escape in one pass. */
  lemma {:induction false} ChainIsOnePass(s: string)
    ensures EscapeChain(s) == Escape(s)
  {
    if s != "" {
      hide Replace, EscapeChar;
      ChainIsOnePass(s[1..]);
      EscapeChainOne(s[0]);
      var head, tail := [s[0]], s[1..];
      Seqs.SplitFirst(s);
      ReplaceConcat(head, tail, '\\', "\\\\");
      var head1, tail1 := Replace(head, '\\', "\\\\"), Replace(tail, '\\', "\\\\");
      ReplaceConcat(head1, tail1, '(', "\\(");
      ReplaceConcat(Replace(head1, '(', "\\("), Replace(tail1, '(', "\\("), ')', "\\)");
    }
  }

  /** Encoding before or after escaping is the same: one program does the first, the other the second. */
  lemma {:induction false} EncodeCommutes(s: string)
    ensures Latin1(Escape(s)) == Escape(Latin1(s))
  {
    if s != "" {
      EncodeCommutes(s[1..]);
      Latin1Concat(EscapeChar(s[0]), Escape(s[1..]));
      EncodeChar(s[0]);
      Seqs.TailOfConcat([Latin1Char(s[0])], Latin1(s[1..]));
      assert [Latin1Char(s[0])][1..] + Latin1(s[1..]) == Latin1(s[1..]);
    }
  }

  function Latin1Char(c: char): char {
    if c as int < 256 then c else '?'
  }

  lemma EncodeChar(c: char)
    ensures Latin1(EscapeChar(c)) == EscapeChar(Latin1Char(c))
  {
    assert [c][1..] == "";
    assert Latin1([c]) == [Latin1Char(c)];
    assert ['\\', c][1..] == [c];
    assert Latin1(['\\', c]) == ['\\'] + Latin1([c]);
  }

  lemma {:induction false} Latin1Concat(a: string, b: string)
    ensures Latin1(a + b) == Latin1(a) + Latin1(b)
  {
    if a == "" {
      Seqs.EmptyUnit(b);
      Seqs.EmptyUnit(Latin1(b));
    } else {
      Seqs.TailOfConcat(a, b);
      Latin1Concat(a[1..], b);
      Seqs.Assoc([Latin1Char(a[0])], Latin1(a[1..]), Latin1(b));
    }
  }

  // ----- the reader

  /** The text of a literal string and what follows it. */
  datatype Read = Read(text: string, rest: string)

  function Prepend(c: char, r: Option<Read>): Option<Read> {
    if r.None? then None else Some(Read([c] + r.value.text, r.value.rest))
  }

  predicate IsOctal(c: char) {
    '0' <= c <= '7'
  }

  /** How many octal digits, at most `limit`, a text starts with. */
  function OctalRun(s: string, limit: nat): (k: nat)
    ensures k <= |s| && k <= limit
  {
    if limit == 0 || s == "" || !IsOctal(s[0]) then 0 else 1 + OctalRun(s[1..], limit - 1)
  }

  function OctalValue(s: string): nat {
    if s == "" then 0
    else OctalValue(s[..|s| - 1]) * 8 + (if IsOctal(s[|s| - 1]) then s[|s| - 1] as int - 48 else 0)
  }

  /** The character after a backslash, for the one-character escapes. */
  function EscapedChar(c: char): char {
    if c == 'n' then '\n' else if c == 'r' then '\r' else if c == 't' then '\t'
    else if c == 'b' then 8 as char else if c == 'f' then 12 as char else c
  }

  /** Reads a literal string from just after its opening parenthesis, inside `depth` further ones. */
  function ReadLiteral(s: string, depth: nat): (r: Option<Read>)
    ensures r.Some? ==> |r.value.rest| < |s|
    decreases |s|
  {
    if s == "" then None
    else if s[0] == ')' then
      if depth == 0 then Some(Read("", s[1..])) else Prepend(')', ReadLiteral(s[1..], depth - 1))
    else if s[0] == '(' then Prepend('(', ReadLiteral(s[1..], depth + 1))
    else if s[0] == '\r' then
      Prepend('\n', ReadLiteral(if |s| > 1 && s[1] == '\n' then s[2..] else s[1..], depth))
    else if s[0] != '\\' then Prepend(s[0], ReadLiteral(s[1..], depth))
    else if |s| == 1 then None
    else if s[1] == '\r' then ReadLiteral(if |s| > 2 && s[2] == '\n' then s[3..] else s[2..], depth)
    else if s[1] == '\n' then ReadLiteral(s[2..], depth)
    else if IsOctal(s[1]) then
      var k := OctalRun(s[1..], 3);
      assert k >= 1;
      Prepend((OctalValue(s[1..1 + k]) % 256) as char, ReadLiteral(s[1 + k..], depth))
    else Prepend(EscapedChar(s[1]), ReadLiteral(s[2..], depth))
  }

  lemma ReadEscapedChar(c: char, rest: string)
    requires c != '\r'
    ensures ReadLiteral(EscapeChar(c) + rest, 0) == Prepend(c, ReadLiteral(rest, 0))
  {
    var s := EscapeChar(c) + rest;
    if |EscapeChar(c)| == 2 {
      assert s[0] == '\\' && s[1] == c && s[2..] == rest;
    } else {
      assert s[0] == c && s[1..] == rest;
    }
  }

  lemma ReadReturn(s: string)
    requires s != ""
    ensures ReadLiteral("\r" + s, 0) == Prepend('\n', ReadLiteral(if s[0] == '\n' then s[1..] else s, 0))
  {
    var r := "\r" + s;
    assert r[0] == '\r' && r[1..] == s && r[1] == s[0] && r[2..] == s[1..];
  }

  /** Reading back an escaped text stops exactly at the closing parenthesis. */
  lemma {:induction false} ReadBack(t: string, rest: string)
    ensures ReadLiteral(Escape(t) + (")" + rest), 0) == Some(Read(NormalizeEol(t), rest))
    decreases |t|
  {
    var close := ")" + rest;
    if t == "" {
      Seqs.EmptyUnit(close);
      assert close[0] == ')' && close[1..] == rest;
    } else {
      hide ReadLiteral, EscapeChar;
      var tail := Escape(t[1..]) + close;
      Seqs.Assoc(EscapeChar(t[0]), Escape(t[1..]), close);
      if t[0] != '\r' {
        ReadBack(t[1..], rest);
        ReadEscapedChar(t[0], tail);
      } else {
        EscapeReturn();
        ReadReturn(tail);
        if |t| > 1 && t[1] == '\n' {
          ReadBack(t[2..], rest);
          EscapeNewline(t[1..], close);
        } else {
          ReadBack(t[1..], rest);
          NotNewline(t[1..], close);
        }
      }
    }
  }

  lemma EscapeReturn()
    ensures EscapeChar('\r') == "\r"
  {
  }

  lemma EscapeNewline(t: string, close: string)
    requires t != "" && t[0] == '\n'
    ensures var s := Escape(t) + close; s != "" && s[0] == '\n' && s[1..] == Escape(t[1..]) + close
  {
    Seqs.Assoc("\n", Escape(t[1..]), close);
    Seqs.TailOfConcat("\n", Escape(t[1..]) + close);
    assert "\n"[1..] + (Escape(t[1..]) + close) == Escape(t[1..]) + close;
  }

  lemma NotNewline(t: string, close: string)
    requires (t == "" || t[0] != '\n') && close != "" && close[0] == ')'
    ensures (Escape(t) + close)[0] != '\n'
  {
    if t == "" {
      Seqs.EmptyUnit(close);
    } else {
      assert (Escape(t) + close)[0] == EscapeChar(t[0])[0];
    }
  }

  /**
    The round trip: `(`, the escaped text and `)` read back as the text, and the reader stops
    after that parenthesis, exactly when the text has no carriage return; with one it still stops there.
  */
  lemma EscapingRoundTrip(s: string, rest: string)
    ensures ReadLiteral(EscapeChain(Latin1(s)) + (")" + rest), 0) == Some(Read(NormalizeEol(Latin1(s)), rest))
    ensures ReadLiteral(EscapeChain(Latin1(s)) + (")" + rest), 0) == Some(Read(s, rest))
      <==> '\r' !in s && forall c :: c in s ==> c as int < 256
  {
    hide ReadLiteral, NormalizeEol, EscapeChain, Escape;
    ChainIsOnePass(Latin1(s));
    ReadBack(Latin1(s), rest);
    EolsAreKeptExactly(Latin1(s));
    EncodedExactly(s);
    if NormalizeEol(Latin1(s)) == s {
      SameLength(s);
    }
  }

  lemma {:induction false} EncodedExactly(s: string)
    ensures |Latin1(s)| == |s| && ('\r' in Latin1(s) <==> '\r' in s)
    ensures Latin1(s) == s <==> forall c :: c in s ==> c as int < 256
  {
    if s != "" {
      EncodedExactly(s[1..]);
      Seqs.SplitFirst(s);
      assert forall c :: c in s <==> c == s[0] || c in s[1..];
      Seqs.SplitFirst(Latin1(s));
      assert Latin1(s)[1..] == Latin1(s[1..]) && Latin1(s)[0] == Latin1Char(s[0]);
      assert s[0] in s;
      if Latin1(s) == s {
        assert Latin1(s[1..]) == s[1..] && Latin1Char(s[0]) == s[0];
      }
    }
  }

  /** If a text survives both the encoding and the reader, neither changed it. */
  lemma SameLength(s: string)
    requires NormalizeEol(Latin1(s)) == s
    ensures Latin1(s) == s
  {
    EncodedExactly(s);
    NormalizedMembers(Latin1(s));
    forall c | c in s ensures c as int < 256 {
      assert c in NormalizeEol(Latin1(s));
      Latin1Members(s);
    }
  }

  lemma Latin1Members(s: string)
    ensures forall c :: c in Latin1(s) ==> c as int < 256
  {
  }
}
