/**
  The minimal PDF writers (`_minimal_pdf` in `packages/study_workspace/workbench.py` and
  `scripts/furniture_e2e.py`), and a reader that finds everything by byte offsets, as sections
  7.5.4 and 7.5.5 of ISO 32000-1 say.  A byte is a character below 256.
*/
module PdfFile {
  import opened Options
  import opened Numerals
  import opened Text
  import Seqs

  // ----- the writer

  const HEADER := "%PDF-1.4\n"
  const TABLE_HEAD := "xref\n0 "
  const FREE_ENTRY := "0000000000 65535 f \n"
  const ENTRY_TAIL := " 00000 n \n"
  const OBJ := " 0 obj\n"
  const END_OBJ := "\nendobj\n"
  const EOF := "\n%%EOF\n"
  const LENGTH := "<< /Length "
  const STREAM := " >>\nstream\n"
  const END_STREAM := "\nendstream"

  function ObjText(number: nat, item: string): string {
    Decimal(number) + OBJ + item + END_OBJ
  }

  /** The header and the first `n` objects. */
  function Body(objects: seq<string>, n: nat): string
    requires n <= |objects|
  {
    if n == 0 then HEADER else Body(objects, n - 1) + ObjText(n, objects[n - 1])
  }

  function Entry(offset: nat): string {
    Padded(offset) + ENTRY_TAIL
  }

  /** The table entries of the first `n` objects. */
  function Entries(objects: seq<string>, n: nat): string
    requires n <= |objects|
  {
    if n == 0 then "" else Entries(objects, n - 1) + Entry(|Body(objects, n - 1)|)
  }

  function TableLine(n: nat): string {
    TABLE_HEAD + Decimal(n + 1) + "\n"
  }

  function Trailer(dictionary: string, xref: nat): string {
    "trailer\n" + dictionary + "\nstartxref\n" + Decimal(xref) + EOF
  }

  function Pdf(objects: seq<string>, dictionary: string): string {
    Body(objects, |objects|) + TableLine(|objects|) + FREE_ENTRY + Entries(objects, |objects|)
    + Trailer(dictionary, |Body(objects, |objects|)|)
  }

  lemma BodyStep(objects: seq<string>, n: nat)
    requires n <= |objects|
    ensures Body(objects, n) == if n == 0 then HEADER
      else Body(objects, n - 1) + (Decimal(n) + OBJ + objects[n - 1] + END_OBJ)
  {
  }

  lemma EntriesStep(objects: seq<string>, n: nat)
    requires n <= |objects|
    ensures Entries(objects, n) == if n == 0 then ""
      else Entries(objects, n - 1) + Entry(|Body(objects, n - 1)|)
    ensures forall offset :: Entry(offset) == Padded(offset) + ENTRY_TAIL
  {
  }

  /** The common part of both `_minimal_pdf`: bytes and offsets accumulate object by object. */
  method WritePdf(objects: seq<string>, dictionary: string) returns (pdf: string)
    ensures pdf == Pdf(objects, dictionary)
  {
    hide Padded, Decimal, Body, Entries, ObjText, Entry;
    BodyStep(objects, 0);
    EntriesStep(objects, 0);
    pdf := HEADER;
    var offsets: seq<nat> := [];
    for n := 0 to |objects|
      invariant pdf == Body(objects, n)
      invariant |offsets| == n && forall i :: 0 <= i < n ==> offsets[i] == |Body(objects, i)|
    {
      BodyStep(objects, n + 1);
      offsets := offsets + [|pdf|];
      pdf := pdf + (Decimal(n + 1) + OBJ + objects[n] + END_OBJ);
    }
    var xref := |pdf|;
    pdf := pdf + (TABLE_HEAD + Decimal(|objects| + 1) + "\n");
    pdf := pdf + FREE_ENTRY;
    ghost var before := pdf;
    Seqs.EmptyUnit(before);
    for n := 0 to |offsets|
      invariant pdf == before + Entries(objects, n)
    {
      EntriesStep(objects, n + 1);
      Seqs.Assoc(before, Entries(objects, n), Entry(offsets[n]));
      pdf := pdf + (Padded(offsets[n]) + ENTRY_TAIL);
    }
    pdf := pdf + ("trailer\n" + dictionary + "\nstartxref\n" + Decimal(xref) + EOF);
  }

  // ----- the reader

  predicate EndsWith(s: string, sub: string) {
    |s| >= |sub| && s[|s| - |sub|..] == sub
  }

  /** The number between `startxref` and the end-of-file marker. */
  function StartXref(pdf: string): Option<nat> {
    if |pdf| < |"\n%%EOF\n"| || pdf[|pdf| - |"\n%%EOF\n"|..] != "\n%%EOF\n" then None
    else
      var s := pdf[..|pdf| - |"\n%%EOF\n"|];
      var k := TrailingDigits(s);
      if k > 0 && EndsWith(s[..|s| - k], "startxref\n") then Some(Value(s[|s| - k..])) else None
  }

  /** Where the entries of a cross-reference table at position `x` start. */
  function EntriesStart(pdf: string, x: nat): Option<nat> {
    if !OccursAt(pdf, "xref\n0 ", x) then None
    else
      var p := x + |"xref\n0 "|;
      var k := LeadingDigits(pdf[p..]);
      if OccursAt(pdf, "\n", p + k) then Some(p + k + 1) else None
  }

  /** The offset in entry `k`: entries are 20 bytes, ten of them the offset's digits. */
  function EntryOffset(pdf: string, start: nat, k: nat): Option<nat> {
    var p := start + 20 * k;
    if p + 20 <= |pdf| && AllDigits(pdf[p..p + 10]) && OccursAt(pdf, " 00000 n \n", p + 10)
    then Some(Value(pdf[p..p + 10]))
    else None
  }

  /** What follows `k 0 obj` in the file, found through the cross-reference table. */
  function ReadObject(pdf: string, k: nat): Option<string> {
    match StartXref(pdf)
    case None => None
    case Some(x) =>
      match EntriesStart(pdf, x)
      case None => None
      case Some(start) =>
        match EntryOffset(pdf, start, k)
        case None => None
        case Some(offset) =>
          var head := Decimal(k) + " 0 obj\n";
          if OccursAt(pdf, head, offset) then Some(pdf[offset + |head|..]) else None
  }

  /** The stream of an object, cut out by its `/Length`. */
  function ReadStream(item: string): Option<string> {
    if !OccursAt(item, "<< /Length ", 0) then None
    else
      var k := LeadingDigits(item[|"<< /Length "|..]);
      var p := |"<< /Length "| + k;
      var n := Value(item[|"<< /Length "|..][..k]);
      if OccursAt(item, " >>\nstream\n", p) && OccursAt(item, "\nendstream", p + |" >>\nstream\n"| + n)
        then Some(item[p + |" >>\nstream\n"|..p + |" >>\nstream\n"| + n]) else None
  }

  /** The stream of object `k`. */
  function ReadContent(pdf: string, k: nat): Option<string> {
    match ReadObject(pdf, k)
    case None => None
    case Some(item) => ReadStream(item)
  }

  // ----- positions

  lemma OccursBefore(a: string, b: string, sub: string, p: nat)
    requires OccursAt(a, sub, p)
    ensures OccursAt(a + b, sub, p)
  {
    assert (a + b)[p..p + |sub|] == a[p..p + |sub|];
  }

  lemma OccursAfter(a: string, b: string, sub: string, p: nat)
    requires OccursAt(b, sub, p)
    ensures OccursAt(a + b, sub, |a| + p)
  {
    assert (a + b)[|a| + p..|a| + p + |sub|] == b[p..p + |sub|];
  }

  lemma OccursWhole(s: string)
    ensures OccursAt(s, s, 0)
  {
  }

  lemma OccursParts(s: string, a: string, b: string, p: nat)
    requires OccursAt(s, a + b, p)
    ensures OccursAt(s, a, p) && OccursAt(s, b, p + |a|)
  {
    var ab := a + b;
    assert s[p..p + |a|] == s[p..p + |ab|][..|a|] == a;
    assert s[p + |a|..p + |ab|] == s[p..p + |ab|][|a|..] == b;
  }

  /** Object `k` starts where the body before it ends. */
  lemma {:induction false} ObjectInBody(objects: seq<string>, k: nat, n: nat)
    requires 0 < k <= n <= |objects|
    ensures OccursAt(Body(objects, n), ObjText(k, objects[k - 1]), |Body(objects, k - 1)|)
    decreases n
  {
    hide ObjText, OccursAt;
    var last := ObjText(n, objects[n - 1]);
    if k == n {
      OccursWhole(last);
      OccursAfter(Body(objects, n - 1), last, last, 0);
    } else {
      ObjectInBody(objects, k, n - 1);
      OccursBefore(Body(objects, n - 1), last, ObjText(k, objects[k - 1]), |Body(objects, k - 1)|);
    }
  }

  lemma {:induction false} BodyGrows(objects: seq<string>, k: nat, n: nat)
    requires k <= n <= |objects|
    ensures |Body(objects, k)| <= |Body(objects, n)|
    decreases n
  {
    if k < n {
      BodyGrows(objects, k, n - 1);
    }
  }

  /** An entry has its 20 bytes exactly when its offset is below 10^10. */
  lemma EntryIsTwentyBytes(offset: nat)
    ensures |Entry(offset)| == 20 <==> offset < Pow10(10)
  {
    PaddedReads(offset);
    assert |ENTRY_TAIL| == 10;
  }

  lemma {:induction false} EntryInEntries(objects: seq<string>, k: nat, n: nat)
    requires 0 < k <= n <= |objects| && |Body(objects, k - 1)| < Pow10(10)
    ensures OccursAt(Entries(objects, n), Entry(|Body(objects, k - 1)|), 20 * (k - 1))
    decreases n
  {
    hide Entry, OccursAt, Pow10, Body;
    var last := Entry(|Body(objects, n - 1)|);
    if k == n {
      BodyGrows(objects, if n > 1 then n - 2 else 0, n - 1);
      EntriesLength(objects, n - 1);
      OccursWhole(last);
      OccursAfter(Entries(objects, n - 1), last, last, 0);
    } else {
      EntryInEntries(objects, k, n - 1);
      OccursBefore(Entries(objects, n - 1), last, Entry(|Body(objects, k - 1)|), 20 * (k - 1));
    }
  }

  lemma {:induction false} EntriesLength(objects: seq<string>, n: nat)
    requires n <= |objects| && (n > 0 ==> |Body(objects, n - 1)| < Pow10(10))
    ensures |Entries(objects, n)| == 20 * n
  {
    hide Pow10, Entry;
    if n > 0 {
      BodyGrows(objects, if n > 1 then n - 2 else 0, n - 1);
      EntriesLength(objects, n - 1);
      EntryIsTwentyBytes(|Body(objects, n - 1)|);
    }
  }

  // ----- reading back

  lemma ReadsStartXref(front: string, x: nat)
    requires EndsWith(front, "startxref\n")
    ensures StartXref(front + Decimal(x) + EOF) == Some(x)
  {
    hide Decimal, Value, TrailingDigits, EndsWith;
    LastOf(front, "startxref\n");
    var s := front + Decimal(x);
    var pdf := s + EOF;
    assert |pdf| - |EOF| == |s|;
    Seqs.TakeDropConcat(s, EOF);
    DecimalReads(x);
    TrailingDigitsOf(front, Decimal(x));
    Seqs.TakeDropConcat(front, Decimal(x));
    assert |s| - |Decimal(x)| == |front|;
  }

  lemma LastOf(s: string, sub: string)
    requires sub != "" && EndsWith(s, sub)
    ensures s != "" && s[|s| - 1] == sub[|sub| - 1]
  {
    assert s[|s| - |sub|..][|sub| - 1] == s[|s| - 1];
  }

  lemma Ends(front: string, sub: string)
    ensures EndsWith(front + sub, sub)
  {
  }

  lemma ReadsEntriesStart(front: string, n: nat, rest: string)
    ensures EntriesStart(front + TableLine(n) + rest, |front|) == Some(|front| + |TableLine(n)|)
  {
    hide Decimal, Value, LeadingDigits, OccursAt;
    var d := Decimal(n + 1);
    var pdf := front + TableLine(n) + rest;
    OccursWhole(TableLine(n));
    OccursAfter(front, TableLine(n), TableLine(n), 0);
    OccursBefore(front + TableLine(n), rest, TableLine(n), |front|);
    OccursParts(pdf, TABLE_HEAD + d, "\n", |front|);
    OccursParts(pdf, TABLE_HEAD, d, |front|);
    var p := |front| + |TABLE_HEAD|;
    Seqs.Regroup(front, TABLE_HEAD, d, "\n", rest);
    Seqs.TakeDropConcat(front + TABLE_HEAD, d + ("\n" + rest));
    assert pdf[p..] == d + ("\n" + rest);
    DecimalReads(n + 1);
    LeadingDigitsOf(d, "\n" + rest);
  }

  lemma ReadsEntryOffset(pdf: string, start: nat, k: nat, offset: nat)
    requires OccursAt(pdf, Entry(offset), start + 20 * k) && offset < Pow10(10)
    ensures EntryOffset(pdf, start, k) == Some(offset)
  {
    hide Value, Padded, Pow10;
    PaddedReads(offset);
    EntryIsTwentyBytes(offset);
    OccursParts(pdf, Padded(offset), ENTRY_TAIL, start + 20 * k);
  }

  /** `startxref` points at the table. */
  lemma PdfStartXref(objects: seq<string>, dictionary: string)
    ensures StartXref(Pdf(objects, dictionary)) == Some(|Body(objects, |objects|)|)
    ensures OccursAt(Pdf(objects, dictionary), "xref\n", |Body(objects, |objects|)|)
  {
    hide Body, Entries, StartXref, OccursAt, Decimal;
    var n := |objects|;
    var body := Body(objects, n);
    var front := body + TableLine(n) + FREE_ENTRY + Entries(objects, n);
    var lead := front + ("trailer\n" + dictionary + "\nstartxref\n");
    assert Pdf(objects, dictionary) == lead + Decimal(|body|) + EOF;
    Ends(front + ("trailer\n" + dictionary + "\n"), "startxref\n");
    assert lead == front + ("trailer\n" + dictionary + "\n") + "startxref\n";
    ReadsStartXref(lead, |body|);
    var rest := FREE_ENTRY + Entries(objects, n) + Trailer(dictionary, |body|);
    TableAt(body, n, rest);
    assert Pdf(objects, dictionary) == body + TableLine(n) + rest;
  }

  lemma TableAt(front: string, n: nat, rest: string)
    ensures OccursAt(front + TableLine(n) + rest, "xref\n", |front|)
  {
    hide Decimal, OccursAt;
    OccursWhole(TableLine(n));
    OccursAfter(front, TableLine(n), TableLine(n), 0);
    OccursBefore(front + TableLine(n), rest, TableLine(n), |front|);
    assert TableLine(n) == "xref\n" + ("0 " + Decimal(n + 1) + "\n");
    OccursParts(front + TableLine(n) + rest, "xref\n", "0 " + Decimal(n + 1) + "\n", |front|);
  }

  lemma PdfEntriesStart(objects: seq<string>, dictionary: string)
    ensures var n, body := |objects|, Body(objects, |objects|);
      EntriesStart(Pdf(objects, dictionary), |body|) == Some(|body| + |TableLine(n)|)
  {
    hide Body, Entries, EntriesStart, Trailer, TableLine;
    var n, body := |objects|, Body(objects, |objects|);
    var rest := FREE_ENTRY + Entries(objects, n) + Trailer(dictionary, |body|);
    assert Pdf(objects, dictionary) == body + TableLine(n) + rest;
    ReadsEntriesStart(body, n, rest);
  }

  lemma PdfEntry(objects: seq<string>, dictionary: string, k: nat)
    requires 0 < k <= |objects| && |Body(objects, k - 1)| < Pow10(10)
    ensures var start := |Body(objects, |objects|)| + |TableLine(|objects|)|;
      EntryOffset(Pdf(objects, dictionary), start, k) == Some(|Body(objects, k - 1)|)
  {
    hide Body, Entries, EntryOffset, Trailer, TableLine, OccursAt, Pow10, Entry;
    var n, body, offset := |objects|, Body(objects, |objects|), |Body(objects, k - 1)|;
    var front := body + TableLine(n) + FREE_ENTRY;
    EntryInEntries(objects, k, n);
    OccursAfter(front, Entries(objects, n), Entry(offset), 20 * (k - 1));
    OccursBefore(front + Entries(objects, n), Trailer(dictionary, |body|), Entry(offset), |front| + 20 * (k - 1));
    assert |FREE_ENTRY| == 20;
    ReadsEntryOffset(Pdf(objects, dictionary), |body| + |TableLine(n)|, k, offset);
  }

  lemma PdfObject(objects: seq<string>, dictionary: string, k: nat)
    requires 0 < k <= |objects|
    ensures OccursAt(Pdf(objects, dictionary), ObjText(k, objects[k - 1]), |Body(objects, k - 1)|)
  {
    hide Body, Entries, Trailer, TableLine, OccursAt, ObjText;
    var n, body := |objects|, Body(objects, |objects|);
    var rest := TableLine(n) + FREE_ENTRY + Entries(objects, n) + Trailer(dictionary, |body|);
    assert Pdf(objects, dictionary) == body + rest;
    ObjectInBody(objects, k, n);
    OccursBefore(body, rest, ObjText(k, objects[k - 1]), |Body(objects, k - 1)|);
  }

  /**
    Through `startxref` and the table, a reader finds every item whose offset is below 10^10:
    the entry of item `k` is the position of `k 0 obj`, followed by that item and `endobj`.
  */
  lemma TableFindsObjects(objects: seq<string>, dictionary: string, k: nat)
    requires 0 < k <= |objects| && |Body(objects, k - 1)| < Pow10(10)
    ensures ReadObject(Pdf(objects, dictionary), k).Some?
    ensures OccursAt(ReadObject(Pdf(objects, dictionary), k).value, objects[k - 1] + "\nendobj\n", 0)
  {
    hide Pdf, Body, StartXref, EntriesStart, EntryOffset, OccursAt, Pow10, TableLine, Decimal;
    var pdf, offset := Pdf(objects, dictionary), |Body(objects, k - 1)|;
    PdfStartXref(objects, dictionary);
    PdfEntriesStart(objects, dictionary);
    PdfEntry(objects, dictionary, k);
    PdfObject(objects, dictionary, k);
    var head := Decimal(k) + OBJ;
    Seqs.Assoc(head, objects[k - 1], END_OBJ);
    OccursParts(pdf, head, objects[k - 1] + END_OBJ, offset);
    OccursDropped(pdf, objects[k - 1] + END_OBJ, offset + |head|);
  }

  lemma OccursDropped(s: string, sub: string, p: nat)
    requires OccursAt(s, sub, p)
    ensures OccursAt(s[p..], sub, 0)
  {
    assert s[p..][0..|sub|] == s[p..p + |sub|];
  }

  // ----- streams

  function StreamObject(stream: string): string {
    LENGTH + Decimal(|stream|) + STREAM + stream + END_STREAM
  }

  /** `/Length` is the stream's length in bytes, and the stream can be cut out by it. */
  lemma LengthIsExact(stream: string, item: string)
    requires OccursAt(item, StreamObject(stream), 0)
    ensures ReadStream(item) == Some(stream)
  {
    hide Decimal, Value, LeadingDigits, OccursAt;
    var d := Decimal(|stream|);
    OccursParts(item, LENGTH + d + STREAM + stream, END_STREAM, 0);
    OccursParts(item, LENGTH + d + STREAM, stream, 0);
    OccursParts(item, LENGTH + d, STREAM, 0);
    OccursParts(item, LENGTH, d, 0);
    DecimalReads(|stream|);
    DigitsThen(item, LENGTH, d, STREAM);
    SliceOf(item, stream, |LENGTH| + |d| + |STREAM|);
    SliceOf(item, d, |LENGTH|);
    assert item[|LENGTH|..][..|d|] == item[|LENGTH|..|LENGTH| + |d|];
  }

  lemma SliceOf(s: string, sub: string, p: nat)
    requires OccursAt(s, sub, p)
    ensures p + |sub| <= |s| && s[p..p + |sub|] == sub
  {
  }

  lemma DigitsThen(s: string, front: string, d: string, next: string)
    requires OccursAt(s, front, 0) && OccursAt(s, d, |front|) && OccursAt(s, next, |front| + |d|)
    requires AllDigits(d) && next != "" && !IsDigit(next[0])
    ensures |front| + |d| <= |s| && LeadingDigits(s[|front|..]) == |d|
  {
    var rest := s[|front| + |d|..];
    assert s[|front|..] == d + rest;
    assert rest[0] == s[|front| + |d|..|front| + |d| + |next|][0];
    LeadingDigitsOf(d, rest);
  }
}
