/** The main results about the PDF writer: what it writes is found, object by object and line by line. */
module PdfRoundTrip {
  import opened Wrappers
  import opened Bytes
  import opened TextLayout
  import opened PdfWriter
  import opened PdfReader
  import opened PdfStrings
  import opened PdfContent
  import opened PdfStructure

  // ---------- one page ----------

  lemma {:induction false} PageObjectsAt(z: Zlib, fontId: nat, pages: seq<seq<string>>, next: nat, k: nat)
    requires k < |pages|
    ensures PageObjects(z, fontId, pages, next)[2 * k] == StreamObject(z.deflate(ContentStream(pages[k])))
    ensures PageObjects(z, fontId, pages, next)[2 * k + 1] == PageObject(fontId, next + 2 * k)
  {
    hide StreamObject, PageObject, ContentStream;
    if k > 0 {
      PageObjectsAt(z, fontId, pages[1..], next + 2, k - 1);
    }
  }

  /** The object table: 1 is the catalog, 2 the page tree root, 3 the font, and page `k` is object `5 + 2k`
      with its content in object `4 + 2k`. */
  lemma {:induction false} ObjectTable(z: Zlib, pages: seq<seq<string>>)
    ensures Objects(z, pages)[0] == CATALOG
    ensures Objects(z, pages)[1] == PagesObject(PageIds(|pages|))
    ensures Objects(z, pages)[2] == FONT
    ensures forall k :: 0 <= k < |pages| ==>
              Objects(z, pages)[3 + 2 * k] == StreamObject(z.deflate(ContentStream(pages[k])))
    ensures forall k :: 0 <= k < |pages| ==> Objects(z, pages)[4 + 2 * k] == PageObject(3, 4 + 2 * k)
  {
    hide StreamObject, PageObject, ContentStream, PagesObject, PageObjects;
    forall k | 0 <= k < |pages|
      ensures Objects(z, pages)[3 + 2 * k] == StreamObject(z.deflate(ContentStream(pages[k])))
      ensures Objects(z, pages)[4 + 2 * k] == PageObject(3, 4 + 2 * k)
    {
      PageObjectsAt(z, 3, pages, 4, k);
    }
  }

  /** Every reference names an existing object of the right kind: the catalog points at the patched Pages
      object, whose `/Kids` are exactly the pages in order with a matching `/Count`, and each page points
      back at it and on to its own font and content. */
  lemma {:induction false} ReferencesResolve(z: Zlib, pages: seq<seq<string>>, rest: bytes, k: nat)
    requires k < |pages|
    ensures var objs := Objects(z, pages);
      && ReadCatalog(objs[0] + (ENDOBJ + rest)) == Some(2)
      && ReadPages(objs[1] + (ENDOBJ + rest)) == Some(PageIds(|pages|))
      && 1 <= PageIds(|pages|)[k] <= |objs|
      && ReadPage(objs[PageIds(|pages|)[k] - 1] + (ENDOBJ + rest)) == Some(Page(2, 3, 4 + 2 * k))
      && objs[2] == FONT
      && ReadStream(z, objs[3 + 2 * k] + (ENDOBJ + rest)) == z.inflate(z.deflate(ContentStream(pages[k])))
  {
    hide StreamObject, PageObject, ContentStream, PagesObject, PageObjects, Objects, ReadCatalog, ReadPages, ReadPage,
         ReadStream;
    ObjectTable(z, pages);
    ReadCatalogOf(rest);
    ReadPagesOf(PageIds(|pages|), rest);
    ReadPageOf(3, 4 + 2 * k, rest);
    ReadStreamOf(z, z.deflate(ContentStream(pages[k])), rest);
  }

  lemma {:induction false} ReadFontOf(rest: bytes)
    ensures Expect(HELVETICA, FONT + (ENDOBJ + rest)).Some?
  {
    SameTokens();
    assert FONT + (ENDOBJ + rest) == (FONT + ENDOBJ) + rest;
    ExpectLiteral(FONT + ENDOBJ, rest);
  }

  lemma {:induction false} ReadPageLinesOf(z: Zlib, file: bytes, pages: seq<seq<string>>, k: nat)
    requires z.Lossless() && k < |pages|
    requires HoldsObjects(file, Objects(z, pages))
    ensures ReadPageLines(z, file, Offsets(Objects(z, pages)), 2, 5 + 2 * k) == Some(Layout(pages[k], LEFT, TOP))
  {
    SameTokens();
    hide StreamObject, PageObject, ContentStream, PagesObject, PageObjects, Objects, ReadPage, ReadStream, ReadContent,
         ObjectAt, Layout, Offsets, AfterObject, HoldsObjects, Expect;
    var objs := Objects(z, pages);
    ObjectTable(z, pages);
    ObjectAtFinds(file, objs, 4 + 2 * k);
    ReadPageOf(3, 4 + 2 * k, AfterObject(file, objs, 4 + 2 * k));
    ObjectAtFinds(file, objs, 2);
    ReadFontOf(AfterObject(file, objs, 2));
    ObjectAtFinds(file, objs, 3 + 2 * k);
    ReadStreamOf(z, z.deflate(ContentStream(pages[k])), AfterObject(file, objs, 3 + 2 * k));
    ReadContentStream(pages[k]);
  }

  // ---------- all pages ----------

  /** The pages as a viewer sees them. */
  function LaidOut(pages: seq<seq<string>>): (drawn: seq<seq<Drawn>>)
    ensures |drawn| == |pages|
  {
    if pages == [] then [] else [Layout(pages[0], LEFT, TOP)] + LaidOut(pages[1..])
  }

  lemma {:induction false} ReadEachPageOf(z: Zlib, file: bytes, pages: seq<seq<string>>, k: nat)
    requires z.Lossless() && k <= |pages|
    requires HoldsObjects(file, Objects(z, pages))
    ensures ReadEachPage(z, file, Offsets(Objects(z, pages)), 2, PageIds(|pages|)[k..]) == Some(LaidOut(pages[k..]))
    decreases |pages| - k
  {
    hide Objects, Offsets, ReadPageLines, Layout, HoldsObjects;
    if k < |pages| {
      ReadPageLinesOf(z, file, pages, k);
      ReadEachPageOf(z, file, pages, k + 1);
      assert PageIds(|pages|)[k..][0] == 5 + 2 * k;
      assert PageIds(|pages|)[k..][1..] == PageIds(|pages|)[k + 1..];
      assert pages[k..][1..] == pages[k + 1..];
    }
  }

  // ---------- the whole file ----------

  lemma {:induction false} AssociateFile(front: bytes, xref: bytes, inner: bytes, a: bytes, b: bytes, c: bytes)
    ensures var file := front + xref + (inner + (a + b + c));
      && file == front + xref + inner + a + b + c
      && front <= file && file[|front|..] == xref + (inner + (a + b + c))
  {
  }

  lemma {:induction false} SerializedParts(objs: seq<bytes>, root: nat)
    ensures var front := HEADER + Body(objs);
      var file := Serialize(objs, root);
      && HoldsObjects(file, objs)
      && |front| <= |file|
      && file[|front|..] == XrefSection(Offsets(objs)) + Trailer(|objs| + 1, root, |front|)
      && ReadStartXref(file) == Some(|front|)
  {
    hide Body, XrefSection, Offsets, ReadStartXref;
    var front := HEADER + Body(objs);
    var xref := XrefSection(Offsets(objs));
    var inner := TRAILER + Dec(|objs| + 1) + ROOT + Dec(root) + TRAILER_CLOSE;
    AssociateTrailer(TRAILER, Dec(|objs| + 1), ROOT, Dec(root), TRAILER_CLOSE, STARTXREF, Dec(|front|), EOF);
    AssociateFile(front, xref, inner, STARTXREF, Dec(|front|), EOF);
    ReadStartXrefOf(front + xref + inner, |front|);
  }

  lemma {:induction false} HeaderHeld(file: bytes, objs: seq<bytes>)
    requires HoldsObjects(file, objs)
    ensures HasHeader(file)
  {
    hide Body;
    assert HEADER <= file;
    assert HEADER == MAGIC + ([0xE2, 0xE3, 0xCF, 0xD3] + NEWLINE);
  }

  lemma {:induction false} OffsetsBelow(objs: seq<bytes>, bound: nat)
    requires |HEADER + Body(objs)| <= bound
    ensures Below(Offsets(objs), bound)
  {
    forall k | 0 <= k < |objs|
      ensures OffsetOf(objs, k) < bound
    {
      BodySnoc(objs, k);
      BodyPrefix(objs, k + 1);
    }
  }

  /** Every object of the rendered file starts at an offset of at most ten digits. */
  ghost predicate Readable(z: Zlib, textLines: seq<string>) {
    Below(Offsets(Objects(z, Paginate(WrapLines(textLines)))), TEN_DIGITS)
  }

  /** A file of at most 10^10 bytes is readable. */
  lemma {:induction false} SmallIsReadable(z: Zlib, textLines: seq<string>)
    requires |Render(z, textLines)| <= TEN_DIGITS
    ensures Readable(z, textLines)
  {
    hide Objects, Offsets, Serialize, Body, Paginate, WrapLines, HoldsObjects, XrefSection, Trailer;
    var objs := Objects(z, Paginate(WrapLines(textLines)));
    SerializedParts(objs, 1);
    OffsetsBelow(objs, TEN_DIGITS);
  }

  /** Reading the rendered file from `startxref` on yields every page with every line in place, for every input; only
      a file with an object beyond the ten digits of a cross-reference entry cannot be read. */
  lemma {:induction false} ReadPdfOfRender(z: Zlib, textLines: seq<string>)
    requires z.Lossless()
    ensures ReadPdf(z, Render(z, textLines))
         == if Readable(z, textLines) then Some(LaidOut(Paginate(WrapLines(textLines)))) else None
  {
    hide Objects, Offsets, Serialize, Body, ReadXref, ReadCatalog, ReadPages, ObjectAt, ReadEachPage, LaidOut, Paginate,
         WrapLines, ReadStartXref, HoldsObjects, HasHeader, AfterObject, XrefSection, Trailer, PageIds, PagesObject,
         Below;
    var pages := Paginate(WrapLines(textLines));
    PaginateShape(WrapLines(textLines));
    var objs := Objects(z, pages);
    var file := Render(z, textLines);
    ObjectTable(z, pages);
    SerializedParts(objs, 1);
    HeaderHeld(file, objs);
    ReadXrefOf(Offsets(objs), 1, |HEADER + Body(objs)|);
    if Readable(z, textLines) {
      ObjectAtFinds(file, objs, 0);
      ReadCatalogOf(AfterObject(file, objs, 0));
      ObjectAtFinds(file, objs, 1);
      ReadPagesOf(PageIds(|pages|), AfterObject(file, objs, 1));
      ReadEachPageOf(z, file, pages, 0);
      assert PageIds(|pages|)[0..] == PageIds(|pages|) && pages[0..] == pages;
    }
  }

  // ---------- the text that comes back ----------

  function Texts(drawn: seq<Drawn>): seq<string> {
    if drawn == [] then [] else [drawn[0].text] + Texts(drawn[1..])
  }

  function NormalizeAll(lines: seq<string>): (r: seq<string>)
    ensures |r| == |lines|
  {
    if lines == [] then [] else [NormalizeEol(lines[0])] + NormalizeAll(lines[1..])
  }

  lemma {:induction false} TextsOfLayout(lines: seq<string>, x: int, y: int)
    ensures Texts(Layout(lines, x, y)) == NormalizeAll(lines)
  {
    if lines != [] {
      TextsOfLayout(lines[1..], x, y - LINE_HEIGHT);
    }
  }

  lemma {:induction false} TextsConcat(a: seq<Drawn>, b: seq<Drawn>)
    ensures Texts(a + b) == Texts(a) + Texts(b)
  {
    if a == [] {
      assert a + b == b;
    } else {
      assert (a + b)[1..] == a[1..] + b;
      TextsConcat(a[1..], b);
    }
  }

  lemma {:induction false} NormalizeAllConcat(a: seq<string>, b: seq<string>)
    ensures NormalizeAll(a + b) == NormalizeAll(a) + NormalizeAll(b)
  {
    if a == [] {
      assert a + b == b;
    } else {
      assert (a + b)[1..] == a[1..] + b;
      NormalizeAllConcat(a[1..], b);
    }
  }

  lemma {:induction false} TextsOfLaidOut(pages: seq<seq<string>>)
    ensures Texts(Flatten(LaidOut(pages))) == NormalizeAll(Flatten(pages))
  {
    if pages != [] {
      TextsOfLayout(pages[0], LEFT, TOP);
      TextsOfLaidOut(pages[1..]);
      assert LaidOut(pages)[1..] == LaidOut(pages[1..]);
      TextsConcat(Layout(pages[0], LEFT, TOP), Flatten(LaidOut(pages[1..])));
      NormalizeAllConcat(pages[0], Flatten(pages[1..]));
    }
  }

  lemma {:induction false} NormalizeAllIdentity(lines: seq<string>)
    ensures NormalizeAll(lines) == lines <==> forall ln :: ln in lines ==> '\r' !in ln
  {
    if lines != [] {
      NormalizeEolIdentity(lines[0]);
      NormalizeAllIdentity(lines[1..]);
      assert NormalizeAll(lines)[1..] == NormalizeAll(lines[1..]);
      assert lines == [lines[0]] + lines[1..];
    }
  }

  lemma {:induction false} WrapLinesEmpty(lines: seq<string>)
    ensures WrapLines(lines) == [] <==> lines == []
  {
  }

  /** The text of every readable file comes back, line by line and in order, up to end-of-line markers inside a line;
      it comes back verbatim exactly when there is some line and no wrapped line holds a carriage return. */
  lemma {:induction false} TextRoundTrip(z: Zlib, textLines: seq<string>)
    requires z.Lossless()
    ensures ReadPdf(z, Render(z, textLines)).Some? <==> Readable(z, textLines)
    ensures Readable(z, textLines) ==>
      var wrapped := WrapLines(textLines);
      var back := Texts(Flatten(ReadPdf(z, Render(z, textLines)).value));
      && back == NormalizeAll(if textLines == [] then [""] else wrapped)
      && (back == wrapped <==> textLines != [] && forall ln :: ln in wrapped ==> '\r' !in ln)
  {
    hide Render, ReadPdf, LaidOut, Paginate, WrapLines, Texts, Flatten, NormalizeEol, Readable;
    var wrapped := WrapLines(textLines);
    ReadPdfOfRender(z, textLines);
    TextsOfLaidOut(Paginate(wrapped));
    PaginateShape(wrapped);
    WrapLinesEmpty(textLines);
    NormalizeAllIdentity(wrapped);
  }

  lemma {:induction false} WrapLineNoNewCharacters(ln: string, c: char)
    requires c !in ln
    ensures forall piece :: piece in WrapLine(ln) ==> c !in piece
    decreases |ln|
  {
    if |ln| > MAX_CHARS {
      LStripMeaning(ln[Cut(ln)..]);
      WrapLineNoNewCharacters(LStrip(ln[Cut(ln)..]), c);
    }
  }

  /** Input without carriage returns, as `splitlines` produces it, survives verbatim. */
  lemma {:induction false} NoCarriageReturnAfterWrap(lines: seq<string>)
    requires forall ln :: ln in lines ==> '\r' !in ln
    ensures forall piece :: piece in WrapLines(lines) ==> '\r' !in piece
  {
    if lines != [] {
      WrapLineNoNewCharacters(lines[0], '\r');
      NoCarriageReturnAfterWrap(lines[1..]);
    }
  }

  lemma {:induction false} LaidOutAt(pages: seq<seq<string>>, p: nat)
    requires p < |pages|
    ensures LaidOut(pages)[p] == Layout(pages[p], LEFT, TOP)
  {
    if p > 0 {
      LaidOutAt(pages[1..], p - 1);
    }
  }

  /** Every line read back starts at the left margin, between y = 60 and the top, 14 points apart. */
  lemma {:induction false} NoLineBelowMargin(z: Zlib, textLines: seq<string>)
    requires z.Lossless() && Readable(z, textLines)
    ensures ReadPdf(z, Render(z, textLines)).Some?
    ensures forall p, k ::
              var drawn := ReadPdf(z, Render(z, textLines)).value;
              0 <= p < |drawn| && 0 <= k < |drawn[p]| ==>
                && drawn[p][k].x == 54
                && drawn[p][k].y == 750 - 14 * k
                && 60 <= drawn[p][k].y <= 750
  {
    hide Render, ReadPdf, LaidOut, Layout, Paginate, WrapLines, Readable;
    var pages := Paginate(WrapLines(textLines));
    ReadPdfOfRender(z, textLines);
    PaginateShape(WrapLines(textLines));
    forall p, k | 0 <= p < |LaidOut(pages)| && 0 <= k < |LaidOut(pages)[p]|
      ensures LaidOut(pages)[p][k].x == 54 && LaidOut(pages)[p][k].y == 750 - 14 * k
      ensures 60 <= LaidOut(pages)[p][k].y <= 750
    {
      LaidOutAt(pages, p);
      LayoutAt(pages[p], LEFT, TOP, k);
    }
  }

  // ---------- cross-reference table, byte by byte ----------

  lemma {:induction false} EntryAt(offs: seq<nat>, k: nat)
    requires Below(offs, TEN_DIGITS) && k < |offs|
    ensures |Entries(offs)| == 20 * |offs|
    ensures Entries(offs)[20 * k..20 * k + 20] == Entry(offs[k])
  {
    EntryWidth(offs[0]);
    if |offs| > 1 {
      EntryAt(offs[1..], if k > 0 then k - 1 else 0);
      if k > 0 {
        assert Entries(offs)[20 * k..20 * k + 20] == Entries(offs[1..])[20 * (k - 1)..20 * (k - 1) + 20];
      }
    }
    if k == 0 {
      assert Entries(offs)[0..20] == Entry(offs[0]);
    }
  }

  function XrefOffset(objs: seq<bytes>): nat {
    |HEADER + Body(objs)|
  }

  /** Where the entry of object `k + 1` starts: after the table's head, 20 bytes per entry. */
  function EntryPosition(objs: seq<bytes>, k: nat): nat {
    XrefOffset(objs) + |XrefHead(|objs|)| + 20 * k
  }

  /** The bytes at `at` are a 20-byte entry whose ten digits lead to `id 0 obj` and the given body. */
  predicate EntryLeadsTo(file: bytes, at: nat, id: nat, obj: bytes) {
    && at + 20 <= |file|
    && var entry := file[at..at + 20];
    && AllDigits(entry[..10]) && entry[10..] == IN_USE
    && var off := Value(entry[..10]);
    && off <= |file| && Chunk(id, obj) <= file[off..]
  }

  lemma {:induction false} OffsetFits(objs: seq<bytes>, k: nat)
    requires k < |objs| && Below(Offsets(objs), TEN_DIGITS)
    ensures Offsets(objs)[k] == OffsetOf(objs, k) < TEN_DIGITS
  {
    hide OffsetOf;
  }

  /** While every offset fits ten digits, `startxref` points at the table, and the k-th in-use entry occupies its own
      20 bytes there and leads to the k-th object. */
  lemma {:induction false} XrefEntryCorrect(objs: seq<bytes>, root: nat, k: nat)
    requires k < |objs| && Below(Offsets(objs), TEN_DIGITS)
    ensures ReadStartXref(Serialize(objs, root)) == Some(XrefOffset(objs))
    ensures EntryLeadsTo(Serialize(objs, root), EntryPosition(objs, k), k + 1, objs[k])
  {
    hide Body, Serialize, XrefHead, Trailer, Entries, Entry, Offsets, Chunk, OffsetOf, ReadStartXref, HoldsObjects,
         Below, AfterObject, EntryLeadsTo;
    var file := Serialize(objs, root);
    var front, head, entries := HEADER + Body(objs), XrefHead(|objs|), Entries(Offsets(objs));
    OffsetFits(objs, k);
    SerializedParts(objs, root);
    EntryAt(Offsets(objs), k);
    Slice(file, front, head, entries, Trailer(|objs| + 1, root, |front|), 20 * k, 20);
    OffsetLandsOnObject(file, objs, k);
    EntryLeads(file, EntryPosition(objs, k), k + 1, objs[k], OffsetOf(objs, k), AfterObject(file, objs, k));
  }

  lemma {:induction false} EntryLeads(file: bytes, at: nat, id: nat, obj: bytes, off: nat, after: bytes)
    requires off < TEN_DIGITS && off <= |file| && file[off..] == Chunk(id, obj) + after
    requires at + 20 <= |file| && file[at..at + 20] == Entry(off)
    ensures EntryLeadsTo(file, at, id, obj)
  {
    hide Entry, Chunk;
    EntryDigits(off);
  }

  lemma {:induction false} EntryDigits(off: nat)
    requires off < TEN_DIGITS
    ensures |Entry(off)| == 20 && AllDigits(Entry(off)[..10]) && Value(Entry(off)[..10]) == off
    ensures Entry(off)[10..] == IN_USE
  {
    SameFileTokens();
    Pad10Meaning(off);
    assert Entry(off)[..10] == Pad10(off);
  }

  lemma {:induction false} Slice(file: bytes, a: bytes, b: bytes, c: bytes, d: bytes, i: nat, n: nat)
    requires |a| <= |file| && file[|a|..] == (b + c) + d && i + n <= |c|
    ensures |a| + |b| + i + n <= |file|
    ensures file[|a| + |b| + i..|a| + |b| + i + n] == c[i..i + n]
  {
    var tail := file[|a|..];
    assert tail[|b| + i..|b| + i + n] == c[i..i + n];
    assert file == file[..|a|] + tail;
  }
}
