/**
  The two programs that write minimal PDF files: the study workbench
  (`packages/study_workspace/workbench.py`) and the furniture check (`scripts/furniture_e2e.py`).
  The main result for each: a reader that follows the byte offsets of the file, cuts the stream by
  its `/Length` and reads the literal strings gets back the lines.
*/
module PdfWriters {
  import opened Options
  import opened Numerals
  import opened PdfText
  import opened PdfFile
  import opened PdfContent
  import opened PdfReader
  import opened Text
  import Seqs

  // The dictionaries, cut before their names.
  const CATALOG_PARTS := ["<< ", "/Type ", "/Catalog ", "/Pages 2 0 R >>"]
  const PAGES_PARTS := ["<< ", "/Type ", "/Pages ", "/Kids [3 0 R] ", "/Count 1 >>"]
  const PAGE_PARTS := ["<< ", "/Type ", "/Page ", "/Parent 2 0 R ", "/MediaBox [0 0 612 792] ", "/Resources << ",
                       "/Font << ", "/F1 4 0 R >> >> ", "/Contents 5 0 R >>"]
  const FONT_PARTS := ["<< ", "/Type ", "/Font ", "/Subtype ", "/Type1 ", "/BaseFont ", "/Helvetica >>"]

  const CATALOG := Concat(CATALOG_PARTS)
  const PAGES := Concat(PAGES_PARTS)
  const PAGE := Concat(PAGE_PARTS)
  const FONT := Concat(FONT_PARTS)

  function Objects(stream: string): seq<string> {
    [CATALOG, PAGES, PAGE, FONT, StreamObject(stream)]
  }

  // ----- the file around the stream

  /** The five objects start at fixed, small offsets, whatever the stream: all entries have 20 bytes. */
  lemma OffsetsAreSmall(stream: string, k: nat)
    requires 0 < k <= 5
    ensures |Body(Objects(stream), k - 1)| < Pow10(10)
  {
    BodyGrows(Objects(stream), k - 1, 4);
    FirstFourAreShort(stream);
    PowTen();
  }

  lemma PowTen()
    ensures Pow10(10) == 10000000000
  {
    assert Pow10(5) == 100000;
    assert Pow10(9) == 10000 * Pow10(5);
  }

  lemma FirstFourAreShort(stream: string)
    ensures |Body(Objects(stream), 4)| < 1000
  {
    hide StreamObject;
    var o := Objects(stream);
    assert |Decimal(1)| == 1 && |Decimal(2)| == 1 && |Decimal(3)| == 1 && |Decimal(4)| == 1;
    assert |Body(o, 0)| == 9;
    assert |Body(o, 1)| <= |Body(o, 0)| + 200;
    assert |Body(o, 2)| <= |Body(o, 1)| + 200;
    assert |Body(o, 3)| <= |Body(o, 2)| + 200;
    assert |Body(o, 4)| <= |Body(o, 3)| + 200;
  }

  /** Entry `k` has 20 bytes, and a reader that follows it finds object `k`. */
  ghost predicate EntryLeadsToObject(stream: string, dictionary: string, k: nat)
    requires 0 < k <= 5
  {
    var r := ReadObject(Pdf(Objects(stream), dictionary), k);
    && |Entry(|Body(Objects(stream), k - 1)|)| == 20
    && r.Some? && OccursAt(r.value, Objects(stream)[k - 1] + END_OBJ, 0)
  }

  /** Every table entry leads to its object, and the fifth object's stream is cut out by its length. */
  lemma FileIsReadable(stream: string, dictionary: string)
    ensures StartXref(Pdf(Objects(stream), dictionary)) == Some(|Body(Objects(stream), 5)|)
    ensures OccursAt(Pdf(Objects(stream), dictionary), "xref\n", |Body(Objects(stream), 5)|)
    ensures forall k :: 0 < k <= 5 ==> EntryLeadsToObject(stream, dictionary, k)
    ensures ReadContent(Pdf(Objects(stream), dictionary), 5) == Some(stream)
  {
    hide Pdf, Body, ReadObject, StreamObject, ReadStream, Pow10, Entry, OccursAt, StartXref;
    var o := Objects(stream);
    PdfStartXref(o, dictionary);
    forall k | 0 < k <= 5 ensures EntryLeadsToObject(stream, dictionary, k) {
      OffsetsAreSmall(stream, k);
      EntryIsTwentyBytes(|Body(o, k - 1)|);
      TableFindsObjects(o, dictionary, k);
    }
    assert EntryLeadsToObject(stream, dictionary, 5);
    var item := ReadObject(Pdf(o, dictionary), 5).value;
    OccursParts(item, StreamObject(stream), END_OBJ, 0);
    LengthIsExact(stream, item);
  }

  // ----- from the trailer to the page

  lemma CatalogPages()
    ensures Reference(CATALOG, "/Pages ") == Some(2)
  {
    hide Reference, Number, Concat, Find;
    var parts := CATALOG_PARTS;
    assert Passes("<< ", "/Pages ", 0);
    assert Passes("/Type ", "/Pages ", 1);
    assert Passes("/Catalog ", "/Pages ", 1);
    OneDigit('2');
    assert parts[3] == "/Pages " + "2" + (" 0 R" + " >>");
    PartRefers(parts, 3, "/Pages ", "2", " >>");
  }

  lemma PagesKids()
    ensures Reference(PAGES, "/Kids [") == Some(3)
  {
    hide Reference, Number, Concat, Find;
    var parts := PAGES_PARTS;
    assert Passes("<< ", "/Kids [", 0);
    assert Passes("/Type ", "/Kids [", 1);
    assert Passes("/Pages ", "/Kids [", 1);
    OneDigit('3');
    assert parts[3] == "/Kids [" + "3" + (" 0 R" + "] ");
    PartRefers(parts, 3, "/Kids [", "3", "] ");
  }

  lemma PagesCount()
    ensures Number(PAGES, "/Count ") == Some(1)
  {
    hide Reference, Number, Concat, Find;
    var parts := PAGES_PARTS;
    assert Passes("<< ", "/Count ", 0);
    assert Passes("/Type ", "/Count ", 1);
    assert Passes("/Pages ", "/Count ", 1);
    assert Passes("/Kids [3 0 R] ", "/Count ", 1);
    OneDigit('1');
    assert parts[4] == "/Count " + "1" + " >>";
    PartCounts(parts, 4, "/Count ", "1", " >>");
  }

  lemma PageParent()
    ensures Reference(PAGE, "/Parent ") == Some(2)
  {
    hide Reference, Number, Concat, Find;
    var parts := PAGE_PARTS;
    assert Passes("<< ", "/Parent ", 0);
    assert Passes("/Type ", "/Parent ", 1);
    assert Passes("/Page ", "/Parent ", 3);
    OneDigit('2');
    assert parts[3] == "/Parent " + "2" + (" 0 R" + " ");
    PartRefers(parts, 3, "/Parent ", "2", " ");
  }

  lemma PageFont()
    ensures Reference(PAGE, "/F1 ") == Some(4)
  {
    hide Reference, Number, Concat, Find;
    var parts := PAGE_PARTS;
    assert Passes("<< ", "/F1 ", 0);
    assert Passes("/Type ", "/F1 ", 1);
    assert Passes("/Page ", "/F1 ", 1);
    assert Passes("/Parent 2 0 R ", "/F1 ", 1);
    assert Passes("/MediaBox [0 0 612 792] ", "/F1 ", 1);
    assert Passes("/Resources << ", "/F1 ", 1);
    assert Passes("/Font << ", "/F1 ", 2);
    OneDigit('4');
    assert parts[7] == "/F1 " + "4" + (" 0 R" + " >> >> ");
    PartRefers(parts, 7, "/F1 ", "4", " >> >> ");
  }

  lemma PageContents()
    ensures Reference(PAGE, "/Contents ") == Some(5)
  {
    hide Reference, Number, Concat, Find;
    var parts := PAGE_PARTS;
    assert Passes("<< ", "/Contents ", 0);
    assert Passes("/Type ", "/Contents ", 1);
    assert Passes("/Page ", "/Contents ", 1);
    assert Passes("/Parent 2 0 R ", "/Contents ", 1);
    assert Passes("/MediaBox [0 0 612 792] ", "/Contents ", 1);
    assert Passes("/Resources << ", "/Contents ", 1);
    assert Passes("/Font << ", "/Contents ", 1);
    assert Passes("/F1 4 0 R >> >> ", "/Contents ", 1);
    OneDigit('5');
    assert parts[8] == "/Contents " + "5" + (" 0 R" + " >>");
    PartRefers(parts, 8, "/Contents ", "5", " >>");
  }

  lemma Kinds()
    ensures Contains(CATALOG, "/Type /Catalog ") && Contains(PAGES, "/Type /Pages ")
    ensures Contains(PAGE, "/Type /Page ")
  {
    hide Contains, Concat;
    PartsContain(CATALOG_PARTS, 1);
    PartsContain(PAGES_PARTS, 1);
    PartsContain(PAGE_PARTS, 1);
    assert "/Type " + "/Catalog " == "/Type /Catalog " && "/Type " + "/Pages " == "/Type /Pages ";
    assert "/Type " + "/Page " == "/Type /Page ";
  }

  lemma FontIsFont()
    ensures IsFont(FONT)
  {
    hide Contains, Concat;
    PartsContain(FONT_PARTS, 1);
    PartsContain(FONT_PARTS, 3);
    PartsContain(FONT_PARTS, 5);
    assert "/Type " + "/Font " == "/Type /Font " && "/Subtype " + "/Type1 " == "/Subtype /Type1 ";
    assert "/BaseFont " + "/Helvetica >>" == "/BaseFont /Helvetica >>";
  }

  lemma OneLineCatalog()
    ensures '\n' !in CATALOG && '\n' !in PAGES
  {
    hide Concat;
    PartsHaveNoLineEnd(CATALOG_PARTS);
    PartsHaveNoLineEnd(PAGES_PARTS);
  }

  lemma OneLinePage()
    ensures '\n' !in PAGE && '\n' !in FONT
  {
    hide Concat;
    PartsHaveNoLineEnd(PAGE_PARTS);
    PartsHaveNoLineEnd(FONT_PARTS);
  }

  /** A trailer that names the first object as the root, and six entries. */
  ghost predicate NamesRoot(dictionary: string) {
    && '\n' !in dictionary
    && Reference(dictionary, "/Root ") == Some(1) && Number(dictionary, "/Size ") == Some(6)
  }

  lemma FirstDictionaries(stream: string, dictionary: string)
    ensures var pdf := Pdf(Objects(stream), dictionary);
      && Dictionary(pdf, 1) == Some(CATALOG) && Dictionary(pdf, 2) == Some(PAGES)
      && Dictionary(pdf, 3) == Some(PAGE) && Dictionary(pdf, 4) == Some(FONT)
  {
    hide Pdf, Dictionary, Body, StreamObject, Pow10, CATALOG, PAGES, PAGE, FONT;
    OneLineCatalog();
    OneLinePage();
    OffsetsAreSmall(stream, 1);
    OffsetsAreSmall(stream, 2);
    OffsetsAreSmall(stream, 3);
    OffsetsAreSmall(stream, 4);
    DictionaryRead(Objects(stream), dictionary, 1);
    DictionaryRead(Objects(stream), dictionary, 2);
    DictionaryRead(Objects(stream), dictionary, 3);
    DictionaryRead(Objects(stream), dictionary, 4);
  }

  /** A page of 612 by 792 units that is linked back and has the font `/F1`. */
  ghost predicate PageIsSound(pdf: string) {
    LinkedBack(pdf) && HasFont(pdf, "/F1") && HasBox(pdf, "0 0 612 792") && Sized(pdf) && Framed(pdf)
  }

  /** Following the file from its end leads to its one page, the page's font, and the texts of its stream. */
  lemma FileShowsPage(stream: string, dictionary: string)
    requires NamesRoot(dictionary)
    ensures var pdf := Pdf(Objects(stream), dictionary);
      PageMarks(pdf) == Some(Marks(stream)) && PageIsSound(pdf)
  {
    hide Pdf, Dictionary, Body, StreamObject, Pow10, CATALOG, PAGES, PAGE, FONT, Reference, Number, Contains;
    hide TrailerDictionary, ReadContent, Marks, StartXref, EntryCount;
    hide Framed;
    FileIsFramed(Objects(stream), dictionary);
    FirstDictionaries(stream, dictionary);
    OffsetsAreSmall(stream, 5);
    TrailerRead(Objects(stream), dictionary);
    PdfStartXref(Objects(stream), dictionary);
    FileIsReadable(stream, dictionary);
    Kinds();
    FontIsFont();
    hide IsFont;
    CatalogPages();
    PagesKids();
    PagesCount();
    PageParent();
    PageFont();
    PageBox();
    PageContents();
    assert "/F1" + " " == "/F1 " && "/MediaBox [" + "0 0 612 792" + "] " == "/MediaBox [0 0 612 792] ";
  }

  lemma PageBox()
    ensures Contains(PAGE, "/MediaBox [0 0 612 792] ")
  {
    hide Contains, Concat;
    PartsContainOne(PAGE_PARTS, 4);
  }

  // ----- the study workbench

  const STUDY_PARTS := ["<< ", "/Size 6 ", "/Root 1 0 R >>"]
  const STUDY_TRAILER := Concat(STUDY_PARTS)

  lemma StudyRoot()
    ensures Reference(STUDY_TRAILER, "/Root ") == Some(1)
  {
    hide Reference, Number, Concat, Find;
    var parts := STUDY_PARTS;
    assert Passes("<< ", "/Root ", 0);
    assert Passes("/Size 6 ", "/Root ", 1);
    OneDigit('1');
    assert parts[2] == "/Root " + "1" + (" 0 R" + " >>");
    PartRefers(parts, 2, "/Root ", "1", " >>");
  }

  lemma StudySize()
    ensures Number(STUDY_TRAILER, "/Size ") == Some(6)
  {
    hide Reference, Number, Concat, Find;
    var parts := STUDY_PARTS;
    assert Passes("<< ", "/Size ", 0);
    OneDigit('6');
    assert parts[1] == "/Size " + "6" + " ";
    PartCounts(parts, 1, "/Size ", "6", " ");
  }

  lemma StudyTrailerNamesRoot()
    ensures NamesRoot(STUDY_TRAILER)
  {
    hide Reference, Number, Concat;
    PartsHaveNoLineEnd(STUDY_PARTS);
    StudyRoot();
    StudySize();
  }

  const MAX_LINES := 90
  const MAX_CHARS := 120

  /** `line[:120]` */
  function Cut(line: string): string {
    if |line| <= MAX_CHARS then line else line[..MAX_CHARS]
  }

  /** `lines[:90]` */
  function Shortened(lines: seq<string>): (r: seq<string>)
    ensures |r| <= MAX_LINES
  {
    if |lines| <= MAX_LINES then lines else lines[..MAX_LINES]
  }

  /** `_pdf_text` of the workbench. */
  function StudyText(s: string): string {
    EscapeChain(Latin1(s))
  }

  function StudyOp(y: int, line: string): string {
    "BT /F1 10 Tf 50 " + Signed(y) + " Td (" + StudyText(Cut(line)) + ") Tj ET"
  }

  /** The first `n` operators of the page, 14 units apart. */
  ghost function StudyOps(lines: seq<string>, n: nat): seq<string>
    requires n <= |lines|
  {
    if n == 0 then [] else StudyOps(lines, n - 1) + [StudyOp(760 - 14 * (n - 1), lines[n - 1])]
  }

  ghost function StudyStream(lines: seq<string>): string {
    Latin1(Join("\n", StudyOps(Shortened(lines), |Shortened(lines)|)))
  }

  /** The words and the string of one operation. */
  function StudyTokens(y: int, text: string): seq<Token> {
    [Word("BT"), Word("/F1"), Word("10"), Word("Tf"), Word("50"), Word(Signed(y)), Word("Td"),
     Literal(text), Word("Tj"), Word("ET")]
  }

  lemma Latin1Twice(s: string)
    ensures Latin1(Latin1(s)) == Latin1(s)
  {
    Latin1Members(s);
    EncodedExactly(Latin1(s));
  }

  lemma StudyLine(y: int, line: string)
    ensures Line(StudyTokens(y, Latin1(Cut(line)))) == StudyOp(y, line)
  {
    hide Signed, Latin1, Escape, EscapeChain, Line, Cut;
    var text := Latin1(Cut(line));
    ChainIsOnePass(text);
    var font := [Word("/F1"), Word("10"), Word("Tf")];
    var move := [Word("50"), Word(Signed(y)), Word("Td")];
    var show := [Literal(text), Word("Tj")];
    LineOfOne(Word("BT"));
    LineOfThree(Word("/F1"), Word("10"), Word("Tf"));
    LineOfThree(Word("50"), Word(Signed(y)), Word("Td"));
    LineOfTwo(Literal(text), Word("Tj"));
    LineOfOne(Word("ET"));
    LineConcat([Word("BT")], font);
    LineConcat([Word("BT")] + font, move);
    LineConcat([Word("BT")] + font + move, show);
    LineConcat([Word("BT")] + font + move + show, [Word("ET")]);
    assert StudyTokens(y, text) == [Word("BT")] + font + move + show + [Word("ET")];
    assert Line([Word("BT")] + font) == "BT /F1 10 Tf";
  }

  ghost function StudyLines(lines: seq<string>, n: nat): (r: seq<seq<Token>>)
    requires n <= |lines|
    ensures |r| == n && forall i :: 0 <= i < n ==> r[i] == StudyTokens(760 - 14 * i, Latin1(Cut(lines[i])))
  {
    if n == 0 then [] else StudyLines(lines, n - 1) + [StudyTokens(760 - 14 * (n - 1), Latin1(Cut(lines[n - 1])))]
  }

  lemma StudyProper(lines: seq<string>, n: nat)
    requires n <= |lines|
    ensures AllProper(StudyLines(lines, n))
  {
    hide Latin1, Cut, Plain, Signed;
    forall i | 0 <= i < n ensures Proper(StudyLines(lines, n)[i]) {
      SignedReads(760 - 14 * i);
      PlainWords();
    }
  }

  lemma PlainWords()
    ensures Plain("BT") && Plain("ET") && Plain("Tf") && Plain("Td") && Plain("Tj") && Plain("/F1")
    ensures Plain("10") && Plain("16") && Plain("50") && Plain("72") && Plain("742") && Plain("0") && Plain("-24")
  {
  }

  lemma {:induction false} StudyLinesWritten(lines: seq<string>, n: nat)
    requires n <= |lines|
    ensures Lines(StudyLines(lines, n)) == StudyOps(lines, n)
  {
    hide Latin1, Line, Lines, StudyTokens, StudyOp, Cut;
    if n == 0 {
      LinesOf(StudyLines(lines, 0));
    } else {
      var y, line := 760 - 14 * (n - 1), lines[n - 1];
      StudyLinesWritten(lines, n - 1);
      StudyLine(y, line);
      OneLineWritten(StudyTokens(y, Latin1(Cut(line))));
      LinesConcat(StudyLines(lines, n - 1), [StudyTokens(y, Latin1(Cut(line)))]);
    }
  }

  lemma Numbers()
    ensures Signed(10) == "10" && Signed(16) == "16" && Signed(50) == "50" && Signed(72) == "72"
    ensures Signed(742) == "742" && Signed(0) == "0" && Signed(-24) == "-24"
  {
    assert Decimal(7) == "7" && Decimal(74) == "74";
  }

  /** One operation puts one text on the page, wherever the last one was. */
  lemma StudyPaints(y: int, text: string, c: Canvas)
    requires c.operands == []
    ensures Paint(AllSeen(StudyTokens(y, text)), c)
      == Canvas([], false, "/F1", 10, 50, y, c.marks + [Mark("/F1", 10, 50, y, Displayed(text))])
  {
    hide Paint, AllSeen, Signed, Displayed;
    Numbers();
    var begin := [Word("BT")];
    var font := [Word("/F1"), Word("10"), Word("Tf")];
    var move := [Word("50"), Word(Signed(y)), Word("Td")];
    var show := [Literal(text), Word("Tj")];
    assert StudyTokens(y, text) == begin + (font + (move + (show + [Word("ET")])));
    PaintOne(Word("BT"), c);
    PaintBoth(begin, font + (move + (show + [Word("ET")])), c);
    var c1 := c.(inText := true, x := 0, y := 0);
    PaintFont("/F1", 10, c1);
    PaintBoth(font, move + (show + [Word("ET")]), c1);
    var c2 := c1.(font := "/F1", size := 10);
    PaintMove(50, y, c2);
    PaintBoth(move, show + [Word("ET")], c2);
    var c3 := c2.(x := 50, y := y);
    PaintText(text, c3);
    PaintThen(show, Word("ET"), c3);
  }

  /** What the study page shows of some lines: 90 of them, cut to 120 characters, 14 units apart. */
  ghost predicate IsStudyPage(marks: seq<Mark>, lines: seq<string>) {
    && |marks| == (if |lines| <= 90 then |lines| else 90)
    && forall i :: 0 <= i < |marks| ==>
         marks[i] == Mark("/F1", 10, 50, 760 - 14 * i,
                          Displayed(if |lines[i]| <= 120 then lines[i] else lines[i][..120]))
  }

  lemma {:induction false} StudyPainted(lines: seq<string>, n: nat)
    requires n <= |lines| && n <= 90
    ensures var c := PaintAll(StudyLines(lines, n));
      c.operands == [] && IsStudyPage(c.marks, lines[..n])
  {
    hide Paint, AllSeen, StudyTokens, IsStudyPage, PaintAll, Latin1, Displayed;
    if n == 0 {
      NothingPainted(lines);
    } else {
      StudyPainted(lines, n - 1);
      var y, text := 760 - 14 * (n - 1), Latin1(Cut(lines[n - 1]));
      var before := PaintAll(StudyLines(lines, n - 1));
      PaintMore(StudyLines(lines, n - 1), StudyTokens(y, text));
      StudyPaints(y, text, before);
      StudyPageMore(before.marks, lines, n - 1);
    }
  }

  lemma NothingPainted(lines: seq<string>)
    ensures PaintAll([]) == EMPTY && IsStudyPage([], lines[..0])
  {
  }

  lemma StudyPageMore(marks: seq<Mark>, lines: seq<string>, n: nat)
    requires n < |lines| && n < 90 && IsStudyPage(marks, lines[..n])
    ensures IsStudyPage(marks + [Mark("/F1", 10, 50, 760 - 14 * n, Displayed(Latin1(Cut(lines[n]))))], lines[..n + 1])
  {
    hide Latin1, NormalizeEol;
    Latin1Twice(Cut(lines[n]));
  }

  /**
    Following the study file from its end leads to a page that shows the lines: the first 90, cut to
    120 characters, from the top down, with a font that the page has.
  */
  lemma StudyPdfShowsLines(lines: seq<string>)
    ensures var pdf := Pdf(Objects(StudyStream(lines)), STUDY_TRAILER);
      PageMarks(pdf).Some? && IsStudyPage(PageMarks(pdf).value, lines) && PageIsSound(pdf)
  {
    hide PageMarks, PageIsSound, Marks, Pdf, Latin1, Objects, STUDY_TRAILER, PaintAll;
    hide NamesRoot, StudyLines, StudyOps, AllProper, Lines;
    var few := Shortened(lines);
    var n := |few|;
    StudyProper(few, n);
    StudyLinesWritten(few, n);
    StreamShows(StudyLines(few, n));
    StudyPainted(few, n);
    assert few[..n] == few;
    StudyTrailerNamesRoot();
    FileShowsPage(StudyStream(lines), STUDY_TRAILER);
  }

  /** `_minimal_pdf` of the workbench, without reportlab. */
  method StudyPdf(lines: seq<string>) returns (pdf: string)
    ensures pdf == Pdf(Objects(StudyStream(lines)), STUDY_TRAILER)
    ensures PageMarks(pdf).Some? && IsStudyPage(PageMarks(pdf).value, lines) && PageIsSound(pdf)
  {
    hide PageMarks, PageIsSound, IsStudyPage, Pdf, Latin1, Signed, Objects, StudyText, STUDY_TRAILER;
    var few := Shortened(lines);
    var escaped: seq<string> := [];
    for n := 0 to |few|
      invariant |escaped| == n && forall i :: 0 <= i < n ==> escaped[i] == StudyText(Cut(few[i]))
    {
      escaped := escaped + [StudyText(Cut(few[n]))];
    }
    var ops: seq<string> := [];
    var y := 760;
    for n := 0 to |escaped|
      invariant y == 760 - 14 * n && ops == StudyOps(few, n)
    {
      ops := ops + ["BT /F1 10 Tf 50 " + Signed(y) + " Td (" + escaped[n] + ") Tj ET"];
      y := y - 14;
    }
    var stream := Latin1(Join("\n", ops));
    pdf := WritePdf(Objects(stream), STUDY_TRAILER);
    StudyPdfShowsLines(lines);
  }

  // ----- the furniture check

  const FURNITURE_PARTS := ["<< ", "/Root 1 0 R ", "/Size 6 >>"]
  const FURNITURE_TRAILER := Concat(FURNITURE_PARTS)

  lemma FurnitureRoot()
    ensures Reference(FURNITURE_TRAILER, "/Root ") == Some(1)
  {
    hide Reference, Number, Concat, Find;
    var parts := FURNITURE_PARTS;
    assert Passes("<< ", "/Root ", 0);
    OneDigit('1');
    assert parts[1] == "/Root " + "1" + (" 0 R" + " ");
    PartRefers(parts, 1, "/Root ", "1", " ");
  }

  lemma FurnitureSize()
    ensures Number(FURNITURE_TRAILER, "/Size ") == Some(6)
  {
    hide Reference, Number, Concat, Find;
    var parts := FURNITURE_PARTS;
    assert Passes("<< ", "/Size ", 0);
    assert Passes("/Root 1 0 R ", "/Size ", 1);
    OneDigit('6');
    assert parts[2] == "/Size " + "6" + " >>";
    PartCounts(parts, 2, "/Size ", "6", " >>");
  }

  lemma FurnitureTrailerNamesRoot()
    ensures NamesRoot(FURNITURE_TRAILER)
  {
    hide Reference, Number, Concat;
    PartsHaveNoLineEnd(FURNITURE_PARTS);
    FurnitureRoot();
    FurnitureSize();
  }

  /** The content lines before the closing `ET`. */
  ghost function FurnitureParts(lines: seq<string>, n: nat): seq<string>
    requires n <= |lines|
  {
    if n == 0 then ["BT", "/F1 16 Tf", "72 742 Td"]
    else FurnitureParts(lines, n - 1) + (if n > 1 then ["0 -24 Td"] else [])
         + ["(" + EscapeChain(lines[n - 1]) + ") Tj"]
  }

  ghost function FurnitureStream(lines: seq<string>): string {
    Latin1(Join("\n", FurnitureParts(lines, |lines|) + ["ET"]))
  }

  const MOVE := [Word("0"), Word("-24"), Word("Td")]

  /** Their words and strings. */
  ghost function FurnitureLines(lines: seq<string>, n: nat): seq<seq<Token>>
    requires n <= |lines|
  {
    if n == 0 then [[Word("BT")], [Word("/F1"), Word("16"), Word("Tf")], [Word("72"), Word("742"), Word("Td")]]
    else FurnitureLines(lines, n - 1) + (if n > 1 then [MOVE] else [])
         + [[Literal(lines[n - 1]), Word("Tj")]]
  }

  lemma ShowWritten(line: string)
    ensures Line([Literal(line), Word("Tj")]) == "(" + EscapeChain(line) + ") Tj"
  {
    hide Escape, EscapeChain, Line;
    ChainIsOnePass(line);
    LineOfTwo(Literal(line), Word("Tj"));
  }

  lemma LinesOf(lines: seq<seq<Token>>)
    requires |lines| == 0 || |lines| == 3
    ensures Lines(lines) == if lines == [] then [] else [Line(lines[0]), Line(lines[1]), Line(lines[2])]
  {
    hide Line;
  }

  lemma LinesConcat(a: seq<seq<Token>>, b: seq<seq<Token>>)
    ensures Lines(a + b) == Lines(a) + Lines(b)
  {
    hide Line;
  }

  lemma OneLineWritten(line: seq<Token>)
    ensures Lines([line]) == [Line(line)]
  {
    hide Line;
  }

  lemma {:induction false} FurnitureProper(lines: seq<string>, n: nat)
    requires n <= |lines|
    ensures AllProper(FurnitureLines(lines, n))
  {
    hide Plain;
    PlainWords();
    if n > 0 {
      FurnitureProper(lines, n - 1);
    }
  }

  lemma {:induction false} FurnitureLinesWritten(lines: seq<string>, n: nat)
    requires n <= |lines|
    ensures Lines(FurnitureLines(lines, n)) == FurnitureParts(lines, n)
  {
    hide EscapeChain, Line, Lines;
    PlainLines();
    if n == 0 {
      LinesOf(FurnitureLines(lines, 0));
    } else {
      FurnitureLinesWritten(lines, n - 1);
      ShowWritten(lines[n - 1]);
      LinesMore(FurnitureLines(lines, n - 1), [Literal(lines[n - 1]), Word("Tj")], n > 1);
    }
  }

  /** One more line, perhaps with a move before it. */
  lemma LinesMore(done: seq<seq<Token>>, line: seq<Token>, moves: bool)
    ensures Lines(done + (if moves then [MOVE] else []) + [line])
      == Lines(done) + (if moves then [Line(MOVE)] else []) + [Line(line)]
  {
    hide Line, Lines;
    OneLineWritten(line);
    OneLineWritten(MOVE);
    if moves {
      LinesConcat(done, [MOVE]);
      LinesConcat(done + [MOVE], [line]);
    } else {
      Seqs.EmptyUnit(done);
      Seqs.EmptyUnit(Lines(done));
      LinesConcat(done, [line]);
    }
  }

  lemma PlainLines()
    ensures Line([Word("BT")]) == "BT" && Line([Word("/F1"), Word("16"), Word("Tf")]) == "/F1 16 Tf"
    ensures Line([Word("72"), Word("742"), Word("Td")]) == "72 742 Td"
    ensures Line([Word("0"), Word("-24"), Word("Td")]) == "0 -24 Td" && Line([Word("ET")]) == "ET"
  {
    LineOfThree(Word("/F1"), Word("16"), Word("Tf"));
    LineOfThree(Word("72"), Word("742"), Word("Td"));
    LineOfThree(Word("0"), Word("-24"), Word("Td"));
  }

  /** What the furniture page shows: all the lines, 24 units apart. */
  ghost predicate IsFurniturePage(marks: seq<Mark>, lines: seq<string>) {
    && |marks| == |lines|
    && forall i :: 0 <= i < |lines| ==> marks[i] == Mark("/F1", 16, 72, 742 - 24 * i, Displayed(lines[i]))
  }

  lemma {:induction false} FurniturePainted(lines: seq<string>, n: nat)
    requires n <= |lines|
    ensures var c := PaintAll(FurnitureLines(lines, n));
      && c == Canvas([], true, "/F1", 16, 72, if n == 0 then 742 else 742 - 24 * (n - 1), c.marks)
      && IsFurniturePage(c.marks, lines[..n])
  {
    hide Paint, AllSeen, Latin1, Displayed, PaintAll, Step, IsFurniturePage;
    NothingOnPage(lines);
    Numbers();
    if n == 0 {
      FurnitureStart();
    } else {
      FurniturePainted(lines, n - 1);
      var done, line := FurnitureLines(lines, n - 1), lines[n - 1];
      var c := PaintAll(done);
      var show, move := [Literal(line), Word("Tj")], [Word("0"), Word("-24"), Word("Td")];
      if n > 1 {
        PaintMore(done, move);
        PaintMove(0, -24, c);
        PaintMore(done + [move], show);
        PaintText(line, c.(y := c.y - 24));
      } else {
        Seqs.EmptyUnit(done);
        PaintMore(done, show);
        PaintText(line, c);
      }
      FurniturePageMore(c.marks, lines, n - 1);
    }
  }

  lemma NothingOnPage(lines: seq<string>)
    ensures IsFurniturePage([], lines[..0])
  {
  }

  lemma FurniturePageMore(marks: seq<Mark>, lines: seq<string>, n: nat)
    requires n < |lines| && IsFurniturePage(marks, lines[..n])
    ensures IsFurniturePage(marks + [Mark("/F1", 16, 72, 742 - 24 * n, Displayed(lines[n]))], lines[..n + 1])
  {
    hide Displayed;
  }

  lemma FurnitureStart()
    ensures PaintAll(FurnitureLines([], 0)) == Canvas([], true, "/F1", 16, 72, 742, [])
  {
    hide Paint, AllSeen;
    Numbers();
    var begin, font := [Word("BT")], [Word("/F1"), Word("16"), Word("Tf")];
    var move := [Word("72"), Word("742"), Word("Td")];
    PaintMore([], begin);
    PaintOne(Word("BT"), EMPTY);
    PaintMore([begin], font);
    PaintFont("/F1", 16, EMPTY.(inText := true));
    PaintMore([begin, font], move);
    PaintMove(72, 742, EMPTY.(inText := true, font := "/F1", size := 16));
    assert [] + [begin] == [begin] && [begin] + [font] == [begin, font];
    assert [begin, font] + [move] == [begin, font, move];
  }

  lemma FurnitureEnds(lines: seq<seq<Token>>)
    ensures PaintAll(lines + [[Word("ET")]]).marks == PaintAll(lines).marks
    ensures Lines(lines + [[Word("ET")]]) == Lines(lines) + ["ET"]
    ensures AllProper(lines) ==> AllProper(lines + [[Word("ET")]])
  {
    hide Paint, AllSeen, PaintAll, Plain;
    PlainWords();
    PaintMore(lines, [Word("ET")]);
    PaintOne(Word("ET"), PaintAll(lines));
  }

  /**
    Following the file from its end leads to a page that shows all the lines.  No bound on the lines is
    needed: the stream is in the last object, so the five offsets do not depend on it.
  */
  lemma FurniturePdfShowsLines(lines: seq<string>)
    ensures var pdf := Pdf(Objects(FurnitureStream(lines)), FURNITURE_TRAILER);
      PageMarks(pdf).Some? && IsFurniturePage(PageMarks(pdf).value, lines) && PageIsSound(pdf)
  {
    hide PageMarks, PageIsSound, Marks, Pdf, Latin1, Objects, FURNITURE_TRAILER, PaintAll;
    hide NamesRoot, FurnitureParts, FurnitureLines, AllProper, Lines;
    var n := |lines|;
    var tokens := FurnitureLines(lines, n);
    FurnitureLinesWritten(lines, n);
    FurnitureProper(lines, n);
    FurnitureEnds(tokens);
    StreamShows(tokens + [[Word("ET")]]);
    FurniturePainted(lines, n);
    assert lines[..n] == lines;
    FurnitureTrailerNamesRoot();
    FileShowsPage(FurnitureStream(lines), FURNITURE_TRAILER);
  }

  /** `_minimal_pdf` of the furniture check. */
  method FurniturePdf(lines: seq<string>) returns (pdf: string)
    ensures pdf == Pdf(Objects(FurnitureStream(lines)), FURNITURE_TRAILER)
    ensures PageMarks(pdf).Some? && IsFurniturePage(PageMarks(pdf).value, lines) && PageIsSound(pdf)
  {
    hide PageMarks, PageIsSound, IsFurniturePage, Pdf, Latin1, Objects, EscapeChain, FURNITURE_TRAILER;
    var escaped: seq<string> := [];
    for n := 0 to |lines|
      invariant |escaped| == n && forall i :: 0 <= i < n ==> escaped[i] == EscapeChain(lines[i])
    {
      escaped := escaped + [EscapeChain(lines[n])];
    }
    var content := ["BT", "/F1 16 Tf", "72 742 Td"];
    for n := 0 to |escaped|
      invariant content == FurnitureParts(lines, n)
    {
      Seqs.EmptyUnit(content);
      if n > 0 {
        content := content + ["0 -24 Td"];
      }
      content := content + ["(" + escaped[n] + ") Tj"];
    }
    content := content + ["ET"];
    var stream := Latin1(Join("\n", content));
    pdf := WritePdf(Objects(stream), FURNITURE_TRAILER);
    FurniturePdfShowsLines(lines);
  }

  // ----- what is lost

  /** A text whose line is inside the page's box of 612 by 792 units. */
  predicate OnPage(mark: Mark) {
    0 <= mark.x <= 612 && 0 <= mark.y <= 792
  }

  /** The study page has room for 55 lines: from the 56th on they are below the page. */
  lemma StudyPageOverflowsExactly(marks: seq<Mark>, lines: seq<string>)
    requires IsStudyPage(marks, lines)
    ensures forall i :: 0 <= i < |marks| ==> (OnPage(marks[i]) <==> i < 55)
    ensures (forall i :: 0 <= i < |marks| ==> OnPage(marks[i])) <==> |lines| <= 55
  {
    if |lines| > 55 {
      assert !OnPage(marks[55]);
    }
  }

  /** The furniture page has room for 31 lines. */
  lemma FurniturePageOverflowsExactly(marks: seq<Mark>, lines: seq<string>)
    requires IsFurniturePage(marks, lines)
    ensures forall i :: 0 <= i < |marks| ==> (OnPage(marks[i]) <==> i < 31)
    ensures (forall i :: 0 <= i < |marks| ==> OnPage(marks[i])) <==> |lines| <= 31
  {
    if |lines| > 31 {
      assert !OnPage(marks[31]);
    }
  }

  /** A line comes back unchanged exactly when it has no carriage return and only Latin-1 characters. */
  lemma DisplayedExactly(line: string)
    ensures Displayed(line) == line <==> '\r' !in line && forall c :: c in line ==> c as int < 256
  {
    hide NormalizeEol, Latin1;
    EncodedExactly(line);
    EolsAreKeptExactly(Latin1(line));
    if Displayed(line) == line {
      SameLength(line);
    }
  }
}
