/**
  Reading a PDF file from its end, as section 7.5.5 of ISO 32000-1 says: `startxref`, the trailer, the
  catalog its `/Root` names, and from there by references to the page, its font and its contents.
*/
module PdfReader {
  import opened Options
  import opened Numerals
  import opened PdfFile
  import opened PdfContent
  import opened Text
  import Seqs

  /** The number of entries that the table at position `x` says it has. */
  function EntryCount(pdf: string, x: nat): nat {
    if x + |"xref\n0 "| > |pdf| then 0
    else
      var s := pdf[x + |"xref\n0 "|..];
      Value(s[..LeadingDigits(s)])
  }

  /** A text up to the first line end. */
  function FirstLine(s: string): string {
    var k := Find(s, "\n");
    if k < 0 then s else s[..k]
  }

  /** The trailer's dictionary, on the line after `trailer`, which follows the last table entry. */
  function TrailerDictionary(pdf: string): Option<string> {
    match StartXref(pdf)
    case None => None
    case Some(x) =>
      match EntriesStart(pdf, x)
      case None => None
      case Some(start) =>
        var t := start + 20 * EntryCount(pdf, x);
        if OccursAt(pdf, "trailer\n", t) then Some(FirstLine(pdf[t + 8..])) else None
  }

  /** The number in front of ` 0 R` after a key. */
  function Reference(dictionary: string, key: string): Option<nat> {
    var k := Find(dictionary, key);
    if k < 0 || k + |key| > |dictionary| then None
    else
      var s := dictionary[k + |key|..];
      var n := LeadingDigits(s);
      if n > 0 && OccursAt(s, " 0 R", n) then Some(Value(s[..n])) else None
  }

  /** The plain number after a key. */
  function Number(dictionary: string, key: string): Option<nat> {
    var k := Find(dictionary, key);
    if k < 0 || k + |key| > |dictionary| then None
    else
      var s := dictionary[k + |key|..];
      var n := LeadingDigits(s);
      if n > 0 then Some(Value(s[..n])) else None
  }

  /** The dictionary of object `n`: its one line. */
  function Dictionary(pdf: string, n: nat): Option<string> {
    match ReadObject(pdf, n)
    case None => None
    case Some(item) => Some(FirstLine(item))
  }

  /** The object that a key of another one refers to; that one must be of the given type. */
  function Follow(pdf: string, from: Option<nat>, kind: string, key: string): Option<nat> {
    match from
    case None => None
    case Some(n) =>
      match Dictionary(pdf, n)
      case None => None
      case Some(d) => if Contains(d, kind) then Reference(d, key) else None
  }

  function Root(pdf: string): Option<nat> {
    match TrailerDictionary(pdf)
    case None => None
    case Some(d) => Reference(d, "/Root ")
  }

  function PageTree(pdf: string): Option<nat> {
    Follow(pdf, Root(pdf), "/Type /Catalog ", "/Pages ")
  }

  function Page(pdf: string): Option<nat> {
    Follow(pdf, PageTree(pdf), "/Type /Pages ", "/Kids [")
  }

  /** The texts that the page shows. */
  function PageMarks(pdf: string): Option<seq<Mark>> {
    match Follow(pdf, Page(pdf), "/Type /Page ", "/Contents ")
    case None => None
    case Some(n) =>
      match ReadContent(pdf, n)
      case None => None
      case Some(stream) => Some(Marks(stream))
  }

  /** The page's parent is the page tree, which has one page. */
  predicate LinkedBack(pdf: string) {
    && Follow(pdf, Page(pdf), "/Type /Page ", "/Parent ") == PageTree(pdf)
    && match PageTree(pdf)
       case None => false
       case Some(n) =>
         match Dictionary(pdf, n)
         case None => false
         case Some(d) => Number(d, "/Count ") == Some(1)
  }

  /** One of the standard fonts, which need nothing else. */
  predicate IsFont(dictionary: string) {
    && Contains(dictionary, "/Type /Font ") && Contains(dictionary, "/Subtype /Type1 ")
    && Contains(dictionary, "/BaseFont /Helvetica >>")
  }

  /** The page gives the name of a font to a font that there is. */
  predicate HasFont(pdf: string, name: string) {
    match Follow(pdf, Page(pdf), "/Type /Page ", name + " ")
    case None => false
    case Some(n) =>
      match Dictionary(pdf, n)
      case None => false
      case Some(d) => IsFont(d)
  }

  /** The trailer and the table agree on the number of entries. */
  predicate Sized(pdf: string) {
    match (StartXref(pdf), TrailerDictionary(pdf))
    case (Some(x), Some(d)) => Number(d, "/Size ") == Some(EntryCount(pdf, x))
    case _ => false
  }

  /** The page has a box of this size. */
  predicate HasBox(pdf: string, box: string) {
    match Page(pdf)
    case None => false
    case Some(n) =>
      match Dictionary(pdf, n)
      case None => false
      case Some(d) => Contains(d, "/MediaBox [" + box + "] ")
  }

  /** The file names its format, and its table starts with the entry of no object. */
  predicate Framed(pdf: string) {
    OccursAt(pdf, "%PDF-1.4\n", 0)
    && match StartXref(pdf)
       case None => false
       case Some(x) =>
         match EntriesStart(pdf, x)
         case None => false
         case Some(start) => OccursAt(pdf, "0000000000 65535 f \n", start)
  }

  // ----- keys

  lemma FindIs(s: string, sub: string, k: nat)
    requires OccursAt(s, sub, k) && forall j: nat | j < k :: !OccursAt(s, sub, j)
    ensures Find(s, sub) == k && k <= |s|
  {
    hide OccursAt;
    assert k <= |s| by {
      InText(s, sub, k);
    }
    var found := Find(s, sub);
  }

  lemma InText(s: string, sub: string, k: nat)
    requires OccursAt(s, sub, k)
    ensures k + |sub| <= |s|
  {
  }

  lemma OccursFirst(s: string, sub: string, k: nat, i: nat)
    requires OccursAt(s, sub, k) && i < |sub|
    ensures k + i < |s| && s[k + i] == sub[i]
  {
    assert s[k..k + |sub|][i] == s[k + i];
  }

  /** `part` holds no start of the key but perhaps at its own start, where it differs from the key at `i`. */
  predicate Passes(part: string, key: string, i: nat) {
    && key != "" && key[0] == '/'
    && (forall j :: 0 < j < |part| ==> part[j] != '/')
    && (part != "" && part[0] == '/' ==> 0 < i < |part| && i < |key| && part[i] != key[i])
  }

  /** Such a part can be left out. */
  lemma SkipPart(part: string, rest: string, key: string, i: nat)
    requires Passes(part, key, i)
    ensures forall k: nat :: OccursAt(part + rest, key, k) <==> k >= |part| && OccursAt(rest, key, k - |part|)
  {
    forall k: nat ensures OccursAt(part + rest, key, k) <==> k >= |part| && OccursAt(rest, key, k - |part|) {
      var s := part + rest;
      if OccursAt(s, key, k) {
        OccursFirst(s, key, k, 0);
        Seqs.ThreeParts(part, rest, "", k);
        Seqs.EmptyUnit(s);
        FirstDiffers(part, rest, key, k, i);
      }
      SliceAfter(part, rest, key, k);
    }
  }

  lemma FirstDiffers(part: string, rest: string, key: string, k: nat, i: nat)
    requires k == 0 ==> OccursAt(part + rest, key, 0) && Passes(part, key, i)
    ensures k == 0 && part != "" ==> part[0] != '/'
  {
    if k == 0 {
      var s := part + rest;
      assert forall j :: 0 <= j < |key| ==> s[j] == s[0..|key|][j];
    }
  }

  lemma SliceAfter(part: string, rest: string, key: string, k: nat)
    ensures k >= |part| ==> (OccursAt(part + rest, key, k) <==> OccursAt(rest, key, k - |part|))
  {
    if k >= |part| && k + |key| <= |part + rest| {
      assert (part + rest)[k..k + |key|] == rest[k - |part|..k - |part| + |key|];
    }
  }

  lemma FindSkips(part: string, rest: string, key: string, i: nat)
    requires Passes(part, key, i) && 0 <= Find(rest, key)
    ensures Find(part + rest, key) == |part| + Find(rest, key)
  {
    hide OccursAt, Find;
    SkipPart(part, rest, key, i);
    var k := Find(rest, key);
    FindIs(part + rest, key, |part| + k);
  }

  lemma ReferenceSkips(part: string, rest: string, key: string, i: nat)
    requires Passes(part, key, i) && 0 <= Find(rest, key)
    ensures Reference(part + rest, key) == Reference(rest, key) && Number(part + rest, key) == Number(rest, key)
    ensures 0 <= Find(part + rest, key)
  {
    hide OccursAt, Find, LeadingDigits, Value;
    FindSkips(part, rest, key, i);
    var k := Find(rest, key);
    if k + |key| <= |rest| {
      assert (part + rest)[|part| + k + |key|..] == rest[k + |key|..];
    }
  }

  /** A dictionary cut into parts, each with at most one name, at its start. */
  function Concat(parts: seq<string>): string {
    if parts == [] then "" else parts[0] + Concat(parts[1..])
  }

  /** The key does not start in the first `n` parts. */
  ghost predicate AllPass(parts: seq<string>, n: nat, key: string)
    requires n <= |parts|
  {
    forall i :: 0 <= i < n ==> CanPass(parts[i], key)
  }

  ghost predicate CanPass(part: string, key: string) {
    exists i :: Passes(part, key, i)
  }

  /** What a key says is what the part that starts with it says, if the key does not start in a part before. */
  lemma {:induction false} ReferenceInParts(parts: seq<string>, k: nat, key: string)
    requires k < |parts| && AllPass(parts, k, key) && 0 <= Find(Concat(parts[k..]), key)
    ensures Reference(Concat(parts), key) == Reference(Concat(parts[k..]), key)
    ensures Number(Concat(parts), key) == Number(Concat(parts[k..]), key)
    ensures 0 <= Find(Concat(parts), key)
  {
    hide Reference, Number, Find, Passes;
    if k == 0 {
      assert parts[0..] == parts;
    } else {
      assert CanPass(parts[0], key);
      var i :| Passes(parts[0], key, i);
      assert parts[1..][k - 1..] == parts[k..];
        ReferenceInParts(parts[1..], k - 1, key);
      ReferenceSkips(parts[0], Concat(parts[1..]), key, i);
    }
  }

  lemma ConcatFrom(parts: seq<string>, k: nat)
    requires k < |parts|
    ensures Concat(parts[k..]) == parts[k] + Concat(parts[k + 1..])
  {
    assert parts[k..][0] == parts[k] && parts[k..][1..] == parts[k + 1..];
  }

  /** A part that is a key, digits and ` 0 R`. */
  lemma PartRefers(parts: seq<string>, k: nat, key: string, digits: string, rest: string)
    requires k < |parts| && parts[k] == key + digits + (" 0 R" + rest)
    requires key != "" && digits != "" && AllDigits(digits) && AllPass(parts, k, key)
    ensures Reference(Concat(parts), key) == Some(Value(digits))
  {
    hide Reference, Find, Passes, Value, Concat, AllDigits;
    ConcatFrom(parts, k);
    var more := Concat(parts[k + 1..]);
    ReferenceHere(key, digits, rest + more);
    assert parts[k] + more == key + digits + (" 0 R" + (rest + more));
    ReferenceInParts(parts, k, key);
  }

  /** A part that is a key and digits. */
  lemma PartCounts(parts: seq<string>, k: nat, key: string, digits: string, rest: string)
    requires k < |parts| && parts[k] == key + digits + rest && rest != "" && !IsDigit(rest[0])
    requires key != "" && digits != "" && AllDigits(digits) && AllPass(parts, k, key)
    ensures Number(Concat(parts), key) == Some(Value(digits))
  {
    hide Number, Find, Passes, Value, Concat, AllDigits;
    ConcatFrom(parts, k);
    var more := Concat(parts[k + 1..]);
    NumberHere(key, digits, rest + more);
    assert parts[k] + more == key + digits + (rest + more);
    ReferenceInParts(parts, k, key);
  }

  lemma {:induction false} PartsContain(parts: seq<string>, k: nat)
    requires k + 1 < |parts|
    ensures Contains(Concat(parts), parts[k] + parts[k + 1])
  {
    hide Contains;
    if k == 0 {
      ConcatFrom(parts, 0);
      ConcatFrom(parts, 1);
      assert parts[0..] == parts;
      var rest := Concat(parts[2..]);
      ContainsPart("", parts[0] + parts[1], rest);
      assert "" + (parts[0] + parts[1]) + rest == parts[0] + (parts[1] + rest);
    } else {
      PartsContain(parts[1..], k - 1);
      ContainsBehind(parts[0], Concat(parts[1..]), parts[k] + parts[k + 1]);
    }
  }

  lemma {:induction false} PartsContainOne(parts: seq<string>, k: nat)
    requires k < |parts|
    ensures Contains(Concat(parts), parts[k])
  {
    hide Contains;
    if k == 0 {
      ContainsPart("", parts[0], Concat(parts[1..]));
      Seqs.EmptyUnit(parts[0]);
    } else {
      PartsContainOne(parts[1..], k - 1);
      ContainsBehind(parts[0], Concat(parts[1..]), parts[k]);
    }
  }

  lemma ContainsBehind(a: string, b: string, sub: string)
    requires Contains(b, sub)
    ensures Contains(a + b, sub)
  {
    var k := Find(b, sub);
    OccursAfter(a, b, sub, k);
  }

  lemma {:induction false} PartsHaveNoLineEnd(parts: seq<string>)
    requires forall p :: p in parts ==> '\n' !in p
    ensures '\n' !in Concat(parts)
  {
    if parts != [] {
      assert parts[0] in parts;
      PartsHaveNoLineEnd(parts[1..]);
    }
  }

  /** A key, digits and ` 0 R`. */
  lemma ReferenceHere(key: string, digits: string, rest: string)
    requires key != "" && digits != "" && AllDigits(digits)
    ensures var d := key + digits + (" 0 R" + rest);
      Find(d, key) == 0 && Reference(d, key) == Some(Value(digits))
  {
    hide Value, LeadingDigits, OccursAt, Find, AllDigits;
    var d := key + digits + (" 0 R" + rest);
    var s := digits + (" 0 R" + rest);
    KeyFirst(key, s);
    Seqs.Assoc(key, digits, " 0 R" + rest);
    LeadingDigitsOf(digits, " 0 R" + rest);
    Seqs.TakeDropConcat(digits, " 0 R" + rest);
    OccursBetween(digits, " 0 R", rest);
  }

  lemma KeyFirst(key: string, s: string)
    requires key != ""
    ensures Find(key + s, key) == 0 && (key + s)[|key|..] == s
  {
    assert OccursAt(key + s, key, 0);
    FindIs(key + s, key, 0);
  }

  lemma NumberHere(key: string, digits: string, rest: string)
    requires key != "" && digits != "" && AllDigits(digits) && (rest == "" || !IsDigit(rest[0]))
    ensures var d := key + digits + rest;
      Find(d, key) == 0 && Number(d, key) == Some(Value(digits))
  {
    hide Value, LeadingDigits, OccursAt, Find, AllDigits;
    KeyFirst(key, digits + rest);
    Seqs.Assoc(key, digits, rest);
    LeadingDigitsOf(digits, rest);
    Seqs.TakeDropConcat(digits, rest);
  }

  lemma ContainsPart(a: string, sub: string, b: string)
    ensures Contains(a + sub + b, sub)
  {
    var s := a + sub + b;
    assert s[|a|..|a| + |sub|] == sub;
    assert OccursAt(s, sub, |a|);
  }

  lemma OneDigit(c: char)
    requires IsDigit(c)
    ensures AllDigits([c]) && Value([c]) == c as int - 48
  {
    assert [c][..0] == "";
  }

  // ----- lines

  lemma FirstLineOf(line: string, rest: string)
    requires '\n' !in line
    ensures FirstLine(line + ("\n" + rest)) == line
  {
    hide OccursAt;
    var s := line + ("\n" + rest);
    LineEndAt(line, rest);
    forall j: nat | j < |line| ensures !OccursAt(s, "\n", j) {
      NoLineEndAt(line, rest, j);
    }
    FindIs(s, "\n", |line|);
  }

  lemma LineEndAt(line: string, rest: string)
    ensures OccursAt(line + ("\n" + rest), "\n", |line|)
  {
    assert (line + ("\n" + rest))[|line|..|line| + 1] == "\n";
  }

  lemma NoLineEndAt(line: string, rest: string, j: nat)
    requires '\n' !in line && j < |line|
    ensures !OccursAt(line + ("\n" + rest), "\n", j)
  {
    var s := line + ("\n" + rest);
    assert s[j..j + 1] == [line[j]];
    assert line[j] in line;
  }

  // ----- the trailer of a written file

  lemma CountRead(front: string, n: nat, rest: string)
    ensures EntryCount(front + TableLine(n) + rest, |front|) == n + 1
  {
    hide Decimal, Value, LeadingDigits;
    var d := Decimal(n + 1);
    Seqs.Regroup(front, TABLE_HEAD, d, "\n", rest);
    Seqs.TakeDropConcat(front + TABLE_HEAD, d + ("\n" + rest));
    DecimalReads(n + 1);
    LeadingDigitsOf(d, "\n" + rest);
    Seqs.TakeDropConcat(d, "\n" + rest);
  }

  /** The table says how many entries it has. */
  lemma EntriesCounted(objects: seq<string>, dictionary: string)
    ensures EntryCount(Pdf(objects, dictionary), |Body(objects, |objects|)|) == |objects| + 1
  {
    hide Body, Entries, TableLine, EntryCount, Trailer;
    var n, body := |objects|, Body(objects, |objects|);
    var rest := FREE_ENTRY + Entries(objects, n) + Trailer(dictionary, |body|);
    assert Pdf(objects, dictionary) == body + TableLine(n) + rest;
    CountRead(body, n, rest);
  }

  /** The file up to its trailer. */
  ghost function Front(objects: seq<string>): string {
    Body(objects, |objects|) + TableLine(|objects|) + (FREE_ENTRY + Entries(objects, |objects|))
  }

  lemma FrontLength(objects: seq<string>)
    requires objects != [] && |Body(objects, |objects| - 1)| < Pow10(10)
    ensures |Front(objects)| == |Body(objects, |objects|)| + |TableLine(|objects|)| + 20 * (|objects| + 1)
  {
    hide Body, Entries, TableLine, Pow10;
    EntriesLength(objects, |objects|);
    assert |FREE_ENTRY| == 20;
  }

  lemma PdfIsFrontAndTrailer(objects: seq<string>, dictionary: string)
    ensures Pdf(objects, dictionary) == Front(objects) + Trailer(dictionary, |Body(objects, |objects|)|)
  {
    hide Body, Entries, TableLine, Trailer;
    Seqs.Assoc(Body(objects, |objects|) + TableLine(|objects|), FREE_ENTRY, Entries(objects, |objects|));
  }

  lemma TrailerIs(dictionary: string, xref: nat)
    ensures Trailer(dictionary, xref) == "trailer\n" + (dictionary + ("\n" + ("startxref\n" + Decimal(xref) + EOF)))
  {
    hide Decimal;
    Seqs.Fifths("trailer\n", dictionary, "\n", "startxref\n", Decimal(xref), EOF);
    assert "\n" + "startxref\n" == "\nstartxref\n";
  }

  lemma LineAt(front: string, name: string, dictionary: string, after: string)
    requires '\n' !in dictionary
    ensures var s := front + (name + (dictionary + ("\n" + after)));
      OccursAt(s, name, |front|) && FirstLine(s[|front| + |name|..]) == dictionary
  {
    hide OccursAt, FirstLine;
    var rest := dictionary + ("\n" + after);
    OccursBetween(front, name, rest);
    Seqs.Assoc(front, name, rest);
    Seqs.TakeDropConcat(front + name, rest);
    FirstLineOf(dictionary, after);
  }

  lemma TrailerAfterFront(objects: seq<string>, dictionary: string)
    requires '\n' !in dictionary
    ensures var pdf := Pdf(objects, dictionary);
      OccursAt(pdf, "trailer\n", |Front(objects)|) && FirstLine(pdf[|Front(objects)| + 8..]) == dictionary
  {
    hide Pdf, Body, Front, Trailer, OccursAt, FirstLine, Decimal;
    var xref := |Body(objects, |objects|)|;
    PdfIsFrontAndTrailer(objects, dictionary);
    TrailerIs(dictionary, xref);
    LineAt(Front(objects), "trailer\n", dictionary, "startxref\n" + Decimal(xref) + EOF);
    assert |"trailer\n"| == 8;
  }

  /** The trailer dictionary and the number of entries that a reader finds are those that were written. */
  lemma TrailerRead(objects: seq<string>, dictionary: string)
    requires '\n' !in dictionary && objects != [] && |Body(objects, |objects| - 1)| < Pow10(10)
    ensures TrailerDictionary(Pdf(objects, dictionary)) == Some(dictionary)
    ensures EntryCount(Pdf(objects, dictionary), |Body(objects, |objects|)|) == |objects| + 1
  {
    hide Pdf, Body, TableLine, EntryCount, EntriesStart, StartXref, OccursAt, FirstLine, Pow10, Front;
    PdfStartXref(objects, dictionary);
    PdfEntriesStart(objects, dictionary);
    EntriesCounted(objects, dictionary);
    FrontLength(objects);
    TrailerAfterFront(objects, dictionary);
  }

  lemma OccursBetween(a: string, sub: string, b: string)
    ensures OccursAt(a + (sub + b), sub, |a|)
  {
    assert (a + (sub + b))[|a|..|a| + |sub|] == sub;
  }

  /** The dictionary that a reader finds for an object of one line is that object. */
  lemma DictionaryRead(objects: seq<string>, dictionary: string, k: nat)
    requires 0 < k <= |objects| && |Body(objects, k - 1)| < Pow10(10) && '\n' !in objects[k - 1]
    ensures Dictionary(Pdf(objects, dictionary), k) == Some(objects[k - 1])
  {
    hide Pdf, Body, ReadObject, FirstLine, Pow10;
    TableFindsObjects(objects, dictionary, k);
    var item := ReadObject(Pdf(objects, dictionary), k).value;
    var line := objects[k - 1];
    StartsWith(item, line + END_OBJ);
    var rest := item[|line + END_OBJ|..];
    assert END_OBJ == "\n" + "endobj\n";
    assert item == line + ("\n" + ("endobj\n" + rest));
    FirstLineOf(line, "endobj\n" + rest);
  }

  lemma StartsWith(s: string, sub: string)
    requires OccursAt(s, sub, 0)
    ensures |sub| <= |s| && s == sub + s[|sub|..]
  {
    assert s[0..|sub|] == sub;
  }

  lemma {:induction false} BodyStarts(objects: seq<string>, n: nat)
    requires n <= |objects|
    ensures OccursAt(Body(objects, n), "%PDF-1.4\n", 0)
  {
    hide ObjText, OccursAt;
    if n == 0 {
      OccursWhole("%PDF-1.4\n");
    } else {
      BodyStarts(objects, n - 1);
      OccursBefore(Body(objects, n - 1), ObjText(n, objects[n - 1]), "%PDF-1.4\n", 0);
    }
  }

  lemma FileIsFramed(objects: seq<string>, dictionary: string)
    ensures Framed(Pdf(objects, dictionary))
  {
    hide Body, Entries, TableLine, Trailer, OccursAt, StartXref, EntriesStart;
    var n, body := |objects|, Body(objects, |objects|);
    var head := body + TableLine(n);
    var rest := Entries(objects, n) + Trailer(dictionary, |body|);
    PdfStartXref(objects, dictionary);
    PdfEntriesStart(objects, dictionary);
    BodyStarts(objects, n);
    OccursBefore(body, TableLine(n) + (FREE_ENTRY + rest), "%PDF-1.4\n", 0);
    OccursBetween(head, FREE_ENTRY, rest);
    assert Pdf(objects, dictionary) == head + (FREE_ENTRY + rest);
    Seqs.Assoc(body, TableLine(n), FREE_ENTRY + rest);
  }
}
