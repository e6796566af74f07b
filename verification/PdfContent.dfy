/**
  Content streams after section 9.4 of ISO 32000-1: the words and strings of a stream, and what the
  operators `BT`, `ET`, `Tf`, `Td` and `Tj` put where on the page.
*/
module PdfContent {
  import opened Options
  import opened Numerals
  import opened PdfText
  import opened Text
  import Seqs

  datatype Token = Word(word: string) | Literal(text: string)

  // ----- the reader

  predicate IsBlank(c: char) {
    c == ' ' || 9 <= c as int <= 10 || 12 <= c as int <= 13 || c as int == 0
  }

  function WordLength(s: string): (k: nat)
    ensures k <= |s|
  {
    if s == "" || IsBlank(s[0]) || s[0] == '(' then 0 else 1 + WordLength(s[1..])
  }

  /** White-space separates words; a string that does not end, ends the reading. */
  function Tokens(s: string): seq<Token>
    decreases |s|
  {
    if s == "" then []
    else if IsBlank(s[0]) then Tokens(s[1..])
    else if s[0] == '(' then
      match ReadLiteral(s[1..], 0)
      case None => []
      case Some(r) => [Literal(r.text)] + Tokens(r.rest)
    else
      var k := WordLength(s);
      [Word(s[..k])] + Tokens(s[k..])
  }

  function Unsigned(s: string): Option<nat> {
    if s != "" && AllDigits(s) then Some(Value(s)) else None
  }

  /** The integer that a word is. */
  function Integer(t: Token): Option<int> {
    match t
    case Literal(_) => None
    case Word(s) =>
      if s != "" && s[0] == '-' then
        match Unsigned(s[1..])
        case None => None
        case Some(n) => var m: int := n; Some(-m)
      else
        var n := Unsigned(s);
        if n.Some? then Some(n.value) else None
  }

  /** A text on the page: its font and size, and where its line starts. */
  datatype Mark = Mark(font: string, size: int, x: int, y: int, text: string)

  /** What has been read so far: the operands of the next operator, the text state, the texts shown. */
  datatype Canvas = Canvas(operands: seq<Token>, inText: bool, font: string, size: int, x: int, y: int,
                           marks: seq<Mark>)

  const EMPTY := Canvas([], false, "", 0, 0, 0, [])

  function SetFont(c: Canvas): Canvas {
    if |c.operands| == 2 && c.operands[0].Word? && Integer(c.operands[1]).Some?
    then c.(operands := [], font := c.operands[0].word, size := Integer(c.operands[1]).value)
    else c.(operands := [])
  }

  function Move(c: Canvas): Canvas {
    if |c.operands| == 2 && Integer(c.operands[0]).Some? && Integer(c.operands[1]).Some?
    then c.(operands := [], x := c.x + Integer(c.operands[0]).value, y := c.y + Integer(c.operands[1]).value)
    else c.(operands := [])
  }

  /** Nothing is shown outside a text object or without a font. */
  function Show(c: Canvas): Canvas {
    if |c.operands| == 1 && c.operands[0].Literal? && c.inText && c.font != ""
    then c.(operands := [], marks := c.marks + [Mark(c.font, c.size, c.x, c.y, c.operands[0].text)])
    else c.(operands := [])
  }

  function Step(c: Canvas, t: Token): Canvas {
    if t == Word("BT") then c.(operands := [], inText := true, x := 0, y := 0)
    else if t == Word("ET") then c.(operands := [], inText := false)
    else if t == Word("Tf") then SetFont(c)
    else if t == Word("Td") then Move(c)
    else if t == Word("Tj") then Show(c)
    else c.(operands := c.operands + [t])
  }

  function Paint(tokens: seq<Token>, c: Canvas): Canvas {
    if tokens == [] then c else Paint(tokens[1..], Step(c, tokens[0]))
  }

  /** The texts that a content stream shows. */
  function Marks(stream: string): seq<Mark> {
    Paint(Tokens(stream), EMPTY).marks
  }

  lemma {:induction false} PaintConcat(a: seq<Token>, b: seq<Token>, c: Canvas)
    ensures Paint(a + b, c) == Paint(b, Paint(a, c))
  {
    hide Step;
    if a == [] {
      Seqs.EmptyUnit(b);
    } else {
      Seqs.TailOfConcat(a, b);
      PaintConcat(a[1..], b, Step(c, a[0]));
    }
  }

  lemma SignedReads(n: int)
    ensures Integer(Word(Signed(n))) == Some(n) && Plain(Signed(n))
    ensures Signed(n)[0] != 'B' && Signed(n)[0] != 'E' && Signed(n)[0] != 'T'
  {
    hide Decimal, Value;
    var d := Decimal(if n < 0 then -n else n);
    DecimalReads(if n < 0 then -n else n);
    if n < 0 {
      assert Signed(n)[1..] == d;
    }
    forall c | c in Signed(n) ensures RegularChar(c) {
    }
  }

  // ----- what programs write

  /** What a reader sees of a text: other characters as question marks, line ends as line feeds. */
  function Displayed(line: string): string {
    NormalizeEol(Latin1(line))
  }

  predicate RegularChar(c: char) {
    !IsBlank(c) && c != '(' && c as int < 256
  }

  predicate Plain(w: string) {
    w != "" && forall c :: c in w ==> RegularChar(c)
  }

  /** Words have no white-space in them. */
  predicate Proper(tokens: seq<Token>) {
    forall i :: 0 <= i < |tokens| && tokens[i].Word? ==> Plain(tokens[i].word)
  }

  function Written(t: Token): string {
    match t
    case Word(w) => w
    case Literal(s) => "(" + Escape(s) + ")"
  }

  function Line(tokens: seq<Token>): string {
    if tokens == [] then ""
    else if |tokens| == 1 then Written(tokens[0])
    else Written(tokens[0]) + (" " + Line(tokens[1..]))
  }

  function Seen(t: Token): Token {
    match t
    case Word(_) => t
    case Literal(s) => Literal(Displayed(s))
  }

  ghost function AllSeen(tokens: seq<Token>): (r: seq<Token>)
    ensures |r| == |tokens| && forall i :: 0 <= i < |tokens| ==> r[i] == Seen(tokens[i])
  {
    if tokens == [] then [] else [Seen(tokens[0])] + AllSeen(tokens[1..])
  }

  predicate Separate(rest: string) {
    rest == "" || IsBlank(rest[0])
  }

  lemma {:induction false} WordEnds(w: string, rest: string)
    requires (forall c :: c in w ==> RegularChar(c)) && Separate(rest)
    ensures WordLength(w + rest) == |w|
  {
    if w == "" {
      Seqs.EmptyUnit(rest);
    } else {
      Seqs.TailOfConcat(w, rest);
      assert w[0] in w;
      WordEnds(w[1..], rest);
    }
  }

  lemma BlankSkipped(c: char, rest: string)
    requires IsBlank(c)
    ensures Tokens([c] + rest) == Tokens(rest)
  {
    Seqs.ConsParts(c, rest);
  }

  lemma WordSeen(w: string, rest: string)
    requires Plain(w) && Separate(rest)
    ensures Tokens(Latin1(w) + rest) == [Word(w)] + Tokens(rest)
  {
    hide Latin1, WordLength, IsBlank;
    assert forall c :: c in w ==> c as int < 256;
    EncodedExactly(w);
    WordEnds(w, rest);
    Seqs.TakeDropConcat(w, rest);
    assert (w + rest)[0] == w[0] && w[0] in w;
    assert !IsBlank(w[0]) && w[0] != '(';
  }

  lemma LiteralSeen(s: string, rest: string)
    ensures Tokens(Latin1("(" + Escape(s) + ")") + rest) == [Literal(Displayed(s))] + Tokens(rest)
  {
    hide Latin1, Escape, ReadLiteral, NormalizeEol;
    LiteralEncoded(s, rest);
    var tail := Escape(Latin1(s)) + (")" + rest);
    Seqs.ConsParts('(', tail);
    ReadBack(Latin1(s), rest);
  }

  lemma LiteralEncoded(s: string, rest: string)
    ensures Latin1("(" + Escape(s) + ")") + rest == ['('] + (Escape(Latin1(s)) + (")" + rest))
  {
    hide Escape;
    Latin1Concat("(" + Escape(s), ")");
    Latin1Concat("(", Escape(s));
    EncodeCommutes(s);
    assert Latin1("(") == "(" && Latin1(")") == ")";
  }

  lemma {:induction false} LineSeen(tokens: seq<Token>, rest: string)
    requires Proper(tokens) && Separate(rest)
    ensures Tokens(Latin1(Line(tokens)) + rest) == AllSeen(tokens) + Tokens(rest)
  {
    hide Latin1, Tokens, Plain, Displayed, Escape;
    if tokens == [] {
      Latin1Empty();
      Seqs.EmptyUnit(rest);
      Seqs.EmptyUnit(Tokens(rest));
    } else {
      var more := if |tokens| == 1 then rest else " " + (Latin1(Line(tokens[1..])) + rest);
      TokenSeen(tokens[0], more);
      if |tokens| > 1 {
        LineSeen(tokens[1..], rest);
        BlankSkipped(' ', Latin1(Line(tokens[1..])) + rest);
        LineEncoded(Written(tokens[0]), Line(tokens[1..]), rest);
        Seqs.Assoc([Seen(tokens[0])], AllSeen(tokens[1..]), Tokens(rest));
      } else {
        assert AllSeen(tokens) == [Seen(tokens[0])];
      }
    }
  }

  lemma TokenSeen(t: Token, rest: string)
    requires (t.Word? ==> Plain(t.word)) && Separate(rest)
    ensures Tokens(Latin1(Written(t)) + rest) == [Seen(t)] + Tokens(rest)
  {
    hide Latin1, Tokens, Plain, Displayed, Escape;
    match t
    case Word(w) => WordSeen(w, rest);
    case Literal(s) => LiteralSeen(s, rest);
  }

  lemma LineEncoded(first: string, line: string, rest: string)
    ensures Latin1(first + (" " + line)) + rest == Latin1(first) + (" " + (Latin1(line) + rest))
  {
    Latin1Concat(first, " " + line);
    Latin1Concat(" ", line);
    assert Latin1(" ") == " ";
  }

  // ----- streams of lines

  function Lines(lines: seq<seq<Token>>): (r: seq<string>)
    ensures |r| == |lines| && forall i :: 0 <= i < |lines| ==> r[i] == Line(lines[i])
  {
    if lines == [] then [] else [Line(lines[0])] + Lines(lines[1..])
  }

  ghost predicate AllProper(lines: seq<seq<Token>>) {
    forall i :: 0 <= i < |lines| ==> Proper(lines[i])
  }

  /** The operators of the lines, as seen, carried out in order. */
  ghost function PaintAll(lines: seq<seq<Token>>): Canvas {
    if lines == [] then EMPTY else Paint(AllSeen(lines[|lines| - 1]), PaintAll(lines[..|lines| - 1]))
  }

  lemma PaintMore(lines: seq<seq<Token>>, line: seq<Token>)
    ensures PaintAll(lines + [line]) == Paint(AllSeen(line), PaintAll(lines))
  {
    hide Paint;
    Seqs.InitOfSnoc(lines, line);
  }

  /** The stream that starts with line `n`. */
  function From(lines: seq<seq<Token>>, n: nat): string
    requires n <= |lines|
  {
    Join("\n", Lines(lines)[n..])
  }

  lemma FromStep(lines: seq<seq<Token>>, n: nat)
    requires n < |lines| && AllProper(lines)
    ensures Tokens(Latin1(From(lines, n))) == AllSeen(lines[n]) + Tokens(Latin1(From(lines, n + 1)))
  {
    hide Latin1, Tokens, Line, Proper;
    var texts := Lines(lines);
    var first := Line(lines[n]);
    assert texts[n..][1..] == texts[n + 1..] && texts[n..][0] == first;
    if n + 1 == |lines| {
      Latin1Empty();
      Seqs.EmptyUnit(Latin1(first));
      LineSeen(lines[n], "");
    } else {
      var rest := From(lines, n + 1);
      NewlineEncoded(first, rest);
      Seqs.ConsParts('\n', Latin1(rest));
      LineSeen(lines[n], "\n" + Latin1(rest));
      BlankSkipped('\n', Latin1(rest));
    }
  }

  lemma Latin1Empty()
    ensures Latin1("") == "" && Tokens("") == []
  {
  }

  lemma NewlineEncoded(first: string, rest: string)
    ensures Latin1(first + "\n" + rest) == Latin1(first) + ("\n" + Latin1(rest))
  {
    Latin1Concat(first + "\n", rest);
    Latin1Concat(first, "\n");
    assert Latin1("\n") == "\n";
  }

  /** The rest of the stream is painted on what the first `n` lines have painted. */
  lemma {:induction false} PaintsFrom(lines: seq<seq<Token>>, n: nat)
    requires n <= |lines| && AllProper(lines)
    ensures Paint(Tokens(Latin1(From(lines, n))), PaintAll(lines[..n])) == PaintAll(lines)
    decreases |lines| - n
  {
    hide Latin1, Tokens, Proper, Step, PaintAll;
    if n == |lines| {
      assert Lines(lines)[n..] == [] && lines[..n] == lines;
      Latin1Empty();
    } else {
      FromStep(lines, n);
      PaintsFrom(lines, n + 1);
      Seqs.TakeSucc(lines, n);
      PaintMore(lines[..n], lines[n]);
      PaintConcat(AllSeen(lines[n]), Tokens(Latin1(From(lines, n + 1))), PaintAll(lines[..n]));
    }
  }

  /** The encoded stream of some lines shows what its operators paint line by line. */
  lemma StreamShows(lines: seq<seq<Token>>)
    requires AllProper(lines)
    ensures Marks(Latin1(Join("\n", Lines(lines)))) == PaintAll(lines).marks
  {
    hide Latin1, Tokens, Paint, Proper;
    PaintsFrom(lines, 0);
    assert Lines(lines)[0..] == Lines(lines);
    assert PaintAll(lines[..0]) == EMPTY;
  }

  // ----- lines and operations put together

  lemma {:induction false} LineConcat(a: seq<Token>, b: seq<Token>)
    requires a != [] && b != []
    ensures Line(a + b) == Line(a) + (" " + Line(b))
  {
    hide Written;
    Seqs.TailOfConcat(a, b);
    if |a| == 1 {
      assert a[1..] + b == b;
    } else {
      LineConcat(a[1..], b);
    }
  }

  lemma LineOfOne(t: Token)
    ensures Line([t]) == Written(t)
  {
  }

  lemma LineOfTwo(t: Token, u: Token)
    ensures Line([t, u]) == Written(t) + (" " + Written(u))
  {
    assert [t, u][1..] == [u];
  }

  lemma LineOfThree(t: Token, u: Token, v: Token)
    ensures Line([t, u, v]) == Written(t) + (" " + (Written(u) + (" " + Written(v))))
  {
    assert [t, u, v][1..] == [u, v];
    LineOfTwo(u, v);
  }

  lemma PaintOne(t: Token, c: Canvas)
    ensures Paint(AllSeen([t]), c) == Step(c, Seen(t))
  {
    hide Step, Displayed;
    assert AllSeen([t]) == [Seen(t)];
    assert [Seen(t)][1..] == [];
  }

  lemma {:induction false} SeenConcat(a: seq<Token>, b: seq<Token>)
    ensures AllSeen(a + b) == AllSeen(a) + AllSeen(b)
  {
    hide Seen;
  }

  lemma PaintBoth(a: seq<Token>, b: seq<Token>, c: Canvas)
    ensures Paint(AllSeen(a + b), c) == Paint(AllSeen(b), Paint(AllSeen(a), c))
  {
    hide Step, Seen;
    SeenConcat(a, b);
    PaintConcat(AllSeen(a), AllSeen(b), c);
  }

  lemma PaintThen(a: seq<Token>, t: Token, c: Canvas)
    ensures Paint(AllSeen(a + [t]), c) == Step(Paint(AllSeen(a), c), Seen(t))
  {
    hide Step, Seen;
    SeenConcat(a, [t]);
    PaintConcat(AllSeen(a), AllSeen([t]), c);
    PaintOne(t, Paint(AllSeen(a), c));
  }

  /** Words that are not operators. */
  predicate IsOperand(t: Token) {
    t != Word("BT") && t != Word("ET") && t != Word("Tf") && t != Word("Td") && t != Word("Tj")
  }

  lemma PaintTwo(t: Token, u: Token, v: Token, c: Canvas)
    ensures Paint(AllSeen([t, u, v]), c) == Step(Step(Step(c, Seen(t)), Seen(u)), Seen(v))
  {
    hide Step, Seen, Paint;
    PaintOne(t, c);
    assert [t, u] == [t] + [u] && [t, u, v] == [t, u] + [v];
    PaintThen([t], u, c);
    PaintThen([t, u], v, c);
  }

  /** A number is an operand that reads as that number. */
  lemma NumberIsOperand(n: int)
    ensures IsOperand(Word(Signed(n)))
  {
    hide Signed;
    SignedReads(n);
  }

  lemma PaintFont(font: string, n: int, c: Canvas)
    requires IsOperand(Word(font)) && c.operands == []
    ensures Paint(AllSeen([Word(font), Word(Signed(n)), Word("Tf")]), c) == c.(font := font, size := n)
  {
    hide Paint, Integer, Signed;
    SignedReads(n);
    NumberIsOperand(n);
    PaintTwo(Word(font), Word(Signed(n)), Word("Tf"), c);
  }

  lemma PaintMove(x: int, y: int, c: Canvas)
    requires c.operands == []
    ensures Paint(AllSeen([Word(Signed(x)), Word(Signed(y)), Word("Td")]), c) == c.(x := c.x + x, y := c.y + y)
  {
    hide Paint, Integer, Signed;
    SignedReads(x);
    SignedReads(y);
    NumberIsOperand(x);
    NumberIsOperand(y);
    PaintTwo(Word(Signed(x)), Word(Signed(y)), Word("Td"), c);
  }

  lemma PaintText(text: string, c: Canvas)
    requires c.operands == [] && c.inText && c.font != ""
    ensures Paint(AllSeen([Literal(text), Word("Tj")]), c)
      == c.(marks := c.marks + [Mark(c.font, c.size, c.x, c.y, Displayed(text))])
  {
    hide Paint, Displayed;
    assert [Literal(text), Word("Tj")] == [Literal(text)] + [Word("Tj")];
    PaintOne(Literal(text), c);
    PaintThen([Literal(text)], Word("Tj"), c);
  }
}
