/**
 A PDF reader for the files the writer produces, with literals of its own, following ISO 32000-1: it asks for
 the header (section 7.5.2), starts from `startxref` (7.5.5), goes through the cross-reference table (7.5.4),
 the catalog and the page tree (7.7.3), inflates each content stream and interprets its text operators, reading
 literal strings as section 7.3.4.2 demands.  Constructs the writer never emits are refused.
 */
module PdfReader {
  import opened Wrappers
  import opened Bytes
  import PdfWriter
  import Utf8

  // ---------- the fixed parts of a file ----------

  const MAGIC: bytes := Ascii("%PDF-1.4\n%")
  const BLANK: bytes := Ascii(" ")
  const REFERENCE: bytes := Ascii(" 0 R")
  const OBJECT_START: bytes := Ascii(" 0 obj\n")
  const DICT_END: bytes := Ascii(" >>\nendobj\n")
  const REFERENCE_END: bytes := Ascii(" 0 R >>\nendobj\n")
  const CATALOG_START: bytes := Ascii("<< /Type /Catalog /Pages ")
  const PAGES_START: bytes := Ascii("<< /Type /Pages /Kids [")
  const COUNT: bytes := Ascii("] /Count ")
  const PARENT: bytes := Ascii("<< /Type /Page /Parent ")
  const FONT_REFERENCE: bytes := REFERENCE + Ascii(" /MediaBox [0 0 612 792] /Resources << /Font << /F1 ")
  const CONTENTS_REFERENCE: bytes := Ascii(" 0 R >> >> /Contents ")
  const HELVETICA: bytes := Ascii("<< /Type /Font /Subtype /Type1 /BaseFont /Helvetica >>\nendobj\n")
  const STREAM_LENGTH: bytes := Ascii("<< /Length ")
  const DATA_START: bytes := Ascii(" /Filter /FlateDecode >>\nstream\n")
  const DATA_END: bytes := Ascii("\nendstream\nendobj\n")
  const TABLE_START: bytes := Ascii("xref\n0 ")
  const FREE_OBJECT: bytes := Ascii("\n0000000000 65535 f \n")
  const IN_USE: bytes := Ascii(" 00000 n \n")
  const TRAILER_SIZE: bytes := Ascii("trailer\n<< /Size ")
  const TRAILER_ROOT: bytes := Ascii(" /Root ")
  const TRAILER_END: bytes := Ascii(" 0 R >>\n")
  const OFFSET_START: bytes := Ascii("startxref\n")
  const FILE_END: bytes := Ascii("\n%%EOF")

  // ---------- literal strings ----------

  const OPEN: byte := 40
  const CLOSE: byte := 41
  const BACKSLASH: byte := 92
  const LF: byte := 10
  const CR: byte := 13

  /** The bytes of a literal string after its opening parenthesis, and what follows it.  An end-of-line
      marker inside the string, be it CR, LF or both, reads as a single LF. */
  function ReadLiteral(s: bytes): (r: Option<(bytes, bytes)>)
    ensures r.Some? ==> |r.value.1| < |s|
  {
    if s == [] || s[0] == OPEN then None
    else if s[0] == CLOSE then Some(([], s[1..]))
    else if s[0] == BACKSLASH then
      if |s| < 2 || s[1] !in {OPEN, CLOSE, BACKSLASH} then None
      else
        var (text, rest) :- ReadLiteral(s[2..]);
        Some(([s[1]] + text, rest))
    else if s[0] == CR then
      var (text, rest) :- ReadLiteral(if |s| > 1 && s[1] == LF then s[2..] else s[1..]);
      Some(([LF] + text, rest))
    else
      var (text, rest) :- ReadLiteral(s[1..]);
      Some(([s[0]] + text, rest))
  }

  // ---------- content streams ----------

  /** A line of text shown with its left end at (x, y). */
  datatype Drawn = Drawn(x: int, y: int, text: string)

  const TJ: bytes := Ascii(" Tj\n")
  const TD: bytes := Ascii(" Td\n")
  const ET: bytes := Ascii("ET")
  const CONTENT_START: bytes := Ascii("BT\n/F1 11 Tf\n")

  /** A literal string shown by `Tj`. */
  function ReadTj(s: bytes): (r: Option<(string, bytes)>)
    requires s != []
    ensures r.Some? ==> |r.value.1| < |s|
  {
    var (raw, afterString) :- ReadLiteral(s[1..]);
    var rest :- Expect(TJ, afterString);
    var text :- Utf8.Decode(raw);
    Some((text, rest))
  }

  /** A relative move of the text position by `Td`. */
  function ReadTd(s: bytes): (r: Option<(int, int, bytes)>)
    ensures r.Some? ==> |r.value.2| < |s|
  {
    var (dx, afterX) :- ReadInt(s);
    var beforeY :- Expect(BLANK, afterX);
    var (dy, afterY) :- ReadInt(beforeY);
    var rest :- Expect(TD, afterY);
    Some((dx, dy, rest))
  }

  /** Interprets `Td` and `Tj` operators from text position (x, y) up to `ET`. */
  function ReadOps(s: bytes, x: int, y: int): Option<seq<Drawn>>
    decreases |s|
  {
    if s == ET then Some([])
    else if s != [] && s[0] == OPEN then
      var (text, rest) :- ReadTj(s);
      var more :- ReadOps(rest, x, y);
      Some([Drawn(x, y, text)] + more)
    else
      var (dx, dy, rest) :- ReadTd(s);
      ReadOps(rest, x + dx, y + dy)
  }

  function ReadContent(s: bytes): Option<seq<Drawn>> {
    var ops :- Expect(CONTENT_START, s);
    ReadOps(ops, 0, 0)
  }

  // ---------- file structure ----------

  /** A literal followed by a number. */
  function ReadField(lit: bytes, s: bytes): Option<(nat, bytes)> {
    var rest :- Expect(lit, s);
    ReadNat(rest)
  }

  /** The offset announced at the end of the file. */
  function ReadStartXref(file: bytes): Option<nat> {
    if !EndsWith(file, FILE_END) then None
    else
      var body := file[..|file| - |FILE_END|];
      var k := TrailingDigits(body);
      if k == 0 || !EndsWith(body[..|body| - k], OFFSET_START) then None
      else Some(Value(body[|body| - k..]))
  }

  /** One 20-byte in-use entry. */
  function ReadEntry(s: bytes): Option<(nat, bytes)> {
    if |s| < 20 || !AllDigits(s[..10]) || s[10..20] != IN_USE then None
    else Some((Value(s[..10]), s[20..]))
  }

  function ReadEntries(s: bytes, count: nat): Option<(seq<nat>, bytes)> {
    if count == 0 then Some(([], s))
    else
      var (off, rest) :- ReadEntry(s);
      var (offs, end) :- ReadEntries(rest, count - 1);
      Some(([off] + offs, end))
  }

  /** The offsets of objects 1, 2, ..., after the free entry of object 0. */
  function ReadTable(s: bytes): Option<(seq<nat>, bytes)> {
    var (size, afterSize) :- ReadField(TABLE_START, s);
    if size == 0 then None
    else
      var entries :- Expect(FREE_OBJECT, afterSize);
      ReadEntries(entries, size - 1)
  }

  /** `/Size` and the object number of `/Root`. */
  function ReadTrailer(s: bytes): Option<(nat, nat)> {
    var (size, afterSize) :- ReadField(TRAILER_SIZE, s);
    var (root, afterRoot) :- ReadField(TRAILER_ROOT, afterSize);
    var _ :- Expect(TRAILER_END, afterRoot);
    Some((size, root))
  }

  datatype Xref = Xref(offsets: seq<nat>, root: nat)

  function ReadXref(s: bytes): Option<Xref> {
    var (offs, afterTable) :- ReadTable(s);
    var (size, root) :- ReadTrailer(afterTable);
    if size == |offs| + 1 then Some(Xref(offs, root)) else None
  }

  /** The file from the body of object `id` on, found through the cross-reference table. */
  function ObjectAt(file: bytes, offsets: seq<nat>, id: nat): Option<bytes> {
    if !(1 <= id <= |offsets|) || offsets[id - 1] > |file| then None
    else
      var (k, rest) :- ReadNat(file[offsets[id - 1]..]);
      if k == id then Expect(OBJECT_START, rest) else None
  }

  function ReadCatalog(s: bytes): Option<nat> {
    var (pages, rest) :- ReadField(CATALOG_START, s);
    var _ :- Expect(REFERENCE_END, rest);
    Some(pages)
  }

  /** References separated by single spaces. */
  function ReadRefs(s: bytes): Option<(seq<nat>, bytes)>
    decreases |s|
  {
    var (id, afterId) :- ReadNat(s);
    var rest :- Expect(REFERENCE, afterId);
    if BLANK <= rest then
      var (ids, end) :- ReadRefs(rest[1..]);
      Some(([id] + ids, end))
    else Some(([id], rest))
  }

  /** The kids of the page tree root; `/Count` must agree with them. */
  function ReadPages(s: bytes): Option<seq<nat>> {
    var refs :- Expect(PAGES_START, s);
    var (kids, afterKids) :- ReadRefs(refs);
    var (count, rest) :- ReadField(COUNT, afterKids);
    var _ :- Expect(DICT_END, rest);
    if count == |kids| then Some(kids) else None
  }

  datatype Page = Page(parent: nat, font: nat, contents: nat)

  function ReadPage(s: bytes): Option<Page> {
    var (parent, afterParent) :- ReadField(PARENT, s);
    var (font, afterFont) :- ReadField(FONT_REFERENCE, afterParent);
    var (contents, rest) :- ReadField(CONTENTS_REFERENCE, afterFont);
    var _ :- Expect(REFERENCE_END, rest);
    Some(Page(parent, font, contents))
  }

  /** A stream object's data, delimited by its declared length, inflated. */
  function ReadStream(z: PdfWriter.Zlib, s: bytes): Option<bytes> {
    var (length, afterLength) :- ReadField(STREAM_LENGTH, s);
    var data :- Expect(DATA_START, afterLength);
    if length > |data| then None
    else
      var _ :- Expect(DATA_END, data[length..]);
      z.inflate(data[..length])
  }

  /** The lines drawn on page object `id`. */
  function ReadPageLines(z: PdfWriter.Zlib, file: bytes, offsets: seq<nat>, pagesId: nat, id: nat): Option<seq<Drawn>> {
    var pageAt :- ObjectAt(file, offsets, id);
    var page :- ReadPage(pageAt);
    var fontAt :- ObjectAt(file, offsets, page.font);
    var _ :- Expect(HELVETICA, fontAt);
    var streamAt :- ObjectAt(file, offsets, page.contents);
    var content :- ReadStream(z, streamAt);
    if page.parent == pagesId then ReadContent(content) else None
  }

  function ReadEachPage(z: PdfWriter.Zlib, file: bytes, offsets: seq<nat>, pagesId: nat, kids: seq<nat>)
    : Option<seq<seq<Drawn>>>
  {
    if kids == [] then Some([])
    else
      var page :- ReadPageLines(z, file, offsets, pagesId, kids[0]);
      var pages :- ReadEachPage(z, file, offsets, pagesId, kids[1..]);
      Some([page] + pages)
  }

  /** The file header: the version, and a comment of four bytes that no text file holds. */
  predicate HasHeader(file: bytes) {
    && MAGIC <= file && |file| >= |MAGIC| + 4
    && forall i :: |MAGIC| <= i < |MAGIC| + 4 ==> file[i] >= 128
  }

  /** The lines of every page, in page-tree order. */
  function ReadPdf(z: PdfWriter.Zlib, file: bytes): Option<seq<seq<Drawn>>> {
    var xrefOff :- ReadStartXref(file);
    if !HasHeader(file) || xrefOff > |file| then None
    else
      var xref :- ReadXref(file[xrefOff..]);
      var catalogAt :- ObjectAt(file, xref.offsets, xref.root);
      var pagesId :- ReadCatalog(catalogAt);
      var pagesAt :- ObjectAt(file, xref.offsets, pagesId);
      var kids :- ReadPages(pagesAt);
      ReadEachPage(z, file, xref.offsets, pagesId, kids)
  }
}
