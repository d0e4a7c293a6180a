/** The hand-rolled PDF writer: content streams, object table, cross-reference table, trailer. */
module PdfWriter {
  import opened Wrappers
  import opened Bytes
  import opened TextLayout
  import Utf8

  /** zlib, as a pair of functions; only `inflate(deflate(x)) == x` is ever used. */
  datatype Zlib = Zlib(deflate: bytes -> bytes, inflate: bytes -> Option<bytes>) {
    ghost predicate Lossless() {
      forall x: bytes :: inflate(deflate(x)) == Some(x)
    }
  }

  const LEFT: nat := 54

  // ---------- string escaping ----------

  /** Python's `s.replace(c, sub)` for a one-character pattern. */
  function Replace(s: string, c: char, sub: string): string {
    if s == "" then "" else (if s[0] == c then sub else [s[0]]) + Replace(s[1..], c, sub)
  }

  function EscapePdfStr(s: string): string {
    Replace(Replace(Replace(s, '\\', "\\\\"), '(', "\\("), ')', "\\)")
  }

  // ---------- content streams ----------

  const FONT_SELECT: bytes := Ascii("/F1 11 Tf")
  const MOVE_TO_TOP: bytes := Dec(LEFT) + Ascii(" ") + Dec(TOP) + Ascii(" Td")
  const NEXT_LINE: bytes := Ascii("0 -") + Dec(LINE_HEIGHT) + Ascii(" Td")
  const NEWLINE: bytes := Ascii("\n")

  function ShowText(ln: string): bytes {
    Utf8.Encode("(" + EscapePdfStr(ln) + ") Tj")
  }

  /** The operators that draw `lines`; every line but the first is preceded by a move down. */
  function ShowLines(lines: seq<string>, first: bool): seq<bytes> {
    if lines == [] then []
    else (if first then [] else [NEXT_LINE]) + [ShowText(lines[0])] + ShowLines(lines[1..], false)
  }

  /** Python's `sep.join(parts)`. */
  function Join(sep: bytes, parts: seq<bytes>): bytes {
    if parts == [] then []
    else if |parts| == 1 then parts[0]
    else parts[0] + sep + Join(sep, parts[1..])
  }

  function ContentLines(lines: seq<string>): seq<bytes> {
    [Ascii("BT"), FONT_SELECT, MOVE_TO_TOP] + (ShowLines(lines, true) + [Ascii("ET")])
  }

  function ContentStream(lines: seq<string>): bytes {
    Join(NEWLINE, ContentLines(lines))
  }

  // ---------- objects ----------

  const SPACE: bytes := Ascii(" ")
  const REF: bytes := Ascii(" 0 R")
  const DICT_CLOSE: bytes := Ascii(" >>")
  const REF_CLOSE: bytes := REF + DICT_CLOSE
  const CATALOG: bytes := Ascii("<< /Type /Catalog /Pages 2") + REF_CLOSE
  const FONT: bytes := Ascii("<< /Type /Font /Subtype /Type1 /BaseFont /Helvetica >>")
  const LENGTH_KEY: bytes := Ascii("<< /Length ")
  const STREAM_START: bytes := SPACE + Ascii("/Filter /FlateDecode >>\nstream\n")
  const STREAM_END: bytes := Ascii("\nendstream")
  const PAGE_PARENT: bytes := Ascii("<< /Type /Page /Parent 2")
  const RESOURCES: bytes := REF + Ascii(" /MediaBox [0 0 612 792] /Resources << /Font << /F1 ")
  const PAGE_CONTENTS: bytes := REF + Ascii(" >> >> /Contents ")
  const KIDS_START: bytes := Ascii("<< /Type /Pages /Kids [")
  const KIDS_COUNT: bytes := Ascii("] /Count ")

  function StreamObject(compressed: bytes): bytes {
    LENGTH_KEY + Dec(|compressed|) + STREAM_START + compressed + STREAM_END
  }

  function PageObject(fontId: nat, contentId: nat): bytes {
    PAGE_PARENT + RESOURCES + Dec(fontId) + PAGE_CONTENTS + Dec(contentId) + REF_CLOSE
  }

  /** Content and page object of each page, numbered from `next`. */
  function PageObjects(z: Zlib, fontId: nat, pages: seq<seq<string>>, next: nat): (objs: seq<bytes>)
    ensures |objs| == 2 * |pages|
  {
    if pages == [] then []
    else
      [StreamObject(z.deflate(ContentStream(pages[0]))), PageObject(fontId, next)]
      + PageObjects(z, fontId, pages[1..], next + 2)
  }

  function PageIds(n: nat): (ids: seq<nat>)
    ensures |ids| == n
  {
    seq(n, k => 5 + 2 * k)
  }

  function KidRefs(ids: seq<nat>): (refs: seq<bytes>)
    ensures |refs| == |ids|
  {
    if ids == [] then [] else [Dec(ids[0]) + REF] + KidRefs(ids[1..])
  }

  function PagesObject(ids: seq<nat>): bytes {
    KIDS_START + Join(SPACE, KidRefs(ids)) + KIDS_COUNT + Dec(|ids|) + DICT_CLOSE
  }

  function Objects(z: Zlib, pages: seq<seq<string>>): (objs: seq<bytes>)
    ensures |objs| == 3 + 2 * |pages|
  {
    [CATALOG, PagesObject(PageIds(|pages|)), FONT] + PageObjects(z, 3, pages, 4)
  }

  // ---------- file ----------

  const HEADER: bytes := Ascii("%PDF-1.4\n%") + [0xE2, 0xE3, 0xCF, 0xD3] + NEWLINE
  const OBJ: bytes := Ascii(" 0 obj\n")
  const ENDOBJ: bytes := Ascii("\nendobj\n")
  const XREF: bytes := Ascii("xref\n0 ")
  const FREE_ENTRY: bytes := Ascii("0000000000 65535 f \n")
  const ENTRY_TAIL: bytes := Ascii(" 00000 n \n")
  const TRAILER: bytes := Ascii("trailer\n<< /Size ")
  const ROOT: bytes := SPACE + Ascii("/Root ")
  const TRAILER_CLOSE: bytes := REF_CLOSE + NEWLINE
  const STARTXREF: bytes := Ascii("startxref\n")
  const EOF: bytes := Ascii("\n%%EOF")

  function Chunk(id: nat, obj: bytes): bytes {
    Dec(id) + OBJ + obj + ENDOBJ
  }

  /** All objects in order, numbered from 1. */
  function Body(objs: seq<bytes>): bytes {
    if objs == [] then [] else Body(objs[..|objs| - 1]) + Chunk(|objs|, objs[|objs| - 1])
  }

  /** Byte offset of object `k + 1`. */
  function OffsetOf(objs: seq<bytes>, k: nat): nat
    requires k <= |objs|
  {
    |HEADER| + |Body(objs[..k])|
  }

  function Offsets(objs: seq<bytes>): (offs: seq<nat>)
    ensures |offs| == |objs|
    ensures forall k :: 0 <= k < |objs| ==> offs[k] == OffsetOf(objs, k)
  {
    seq(|objs|, k requires 0 <= k < |objs| => OffsetOf(objs, k))
  }

  function Entry(off: nat): bytes {
    Pad10(off) + ENTRY_TAIL
  }

  function Entries(offs: seq<nat>): bytes {
    if offs == [] then [] else Entry(offs[0]) + Entries(offs[1..])
  }

  function XrefHead(nObjects: nat): bytes {
    XREF + Dec(nObjects + 1) + NEWLINE + FREE_ENTRY
  }

  function XrefSection(offs: seq<nat>): bytes {
    XrefHead(|offs|) + Entries(offs)
  }

  function Trailer(size: nat, root: nat, xrefOff: nat): bytes {
    TRAILER + Dec(size) + ROOT + Dec(root) + TRAILER_CLOSE + STARTXREF + Dec(xrefOff) + EOF
  }

  function Serialize(objs: seq<bytes>, root: nat): bytes {
    var front := HEADER + Body(objs);
    front + XrefSection(Offsets(objs)) + Trailer(|objs| + 1, root, |front|)
  }

  /** The file the writer produces for `textLines`. */
  function Render(z: Zlib, textLines: seq<string>): bytes {
    Serialize(Objects(z, Paginate(WrapLines(textLines))), 1)
  }

  // ---------- the writer itself ----------

  /** Builds the content stream of one page line by line. */
  method BuildContent(pageLines: seq<string>) returns (stream: bytes)
    ensures stream == ContentStream(pageLines)
  {
    var contentLines := [Ascii("BT"), FONT_SELECT, MOVE_TO_TOP];
    ghost var start := contentLines;
    var first := true;
    var i := 0;
    while i < |pageLines|
      invariant 0 <= i <= |pageLines|
      invariant contentLines + ShowLines(pageLines[i..], first) == start + ShowLines(pageLines, true)
    {
      var ln := pageLines[i];
      ghost var before := contentLines;
      ShowLinesStep(pageLines, i, first);
      if first {
        contentLines := contentLines + [ShowText(ln)];
        first := false;
      } else {
        contentLines := contentLines + [NEXT_LINE];
        contentLines := contentLines + [ShowText(ln)];
      }
      i := i + 1;
    }
    assert contentLines == start + ShowLines(pageLines, true);
    contentLines := contentLines + [Ascii("ET")];
    assert contentLines == ContentLines(pageLines);
    stream := Join(NEWLINE, contentLines);
  }

  lemma {:induction false} ShowLinesStep(lines: seq<string>, i: nat, first: bool)
    requires i < |lines|
    ensures ShowLines(lines[i..], first)
         == (if first then [ShowText(lines[i])] else [NEXT_LINE, ShowText(lines[i])])
            + ShowLines(lines[i + 1..], false)
  {
    assert lines[i..][1..] == lines[i + 1..];
  }

  lemma {:induction false} AppendBoth<T>(acc: seq<T>, a: seq<T>, b: seq<T>, rest: seq<T>)
    ensures acc + (a + b + rest) == acc + a + b + rest
    ensures acc + (a + b + rest) == acc + (a + b) + rest
  {
  }

  lemma {:induction false} PageObjectsStep(z: Zlib, fontId: nat, pages: seq<seq<string>>, k: nat, next: nat)
    requires k < |pages|
    ensures PageObjects(z, fontId, pages[k..], next)
         == [StreamObject(z.deflate(ContentStream(pages[k])))] + [PageObject(fontId, next)]
            + PageObjects(z, fontId, pages[k + 1..], next + 2)
  {
    assert pages[k..][1..] == pages[k + 1..];
  }

  lemma {:induction false} PageIdsStep(k: nat)
    ensures PageIds(k + 1) == PageIds(k) + [5 + 2 * k]
  {
  }

  /** The page loop: two objects per page, content stream first. */
  method AddPages(before: seq<bytes>, pages: seq<seq<string>>, fontId: nat, z: Zlib)
    returns (objects: seq<bytes>, pageIds: seq<nat>)
    requires |before| == 3
    ensures objects == before + PageObjects(z, fontId, pages, 4)
    ensures pageIds == PageIds(|pages|)
  {
    objects := before;
    pageIds := [];
    var k := 0;
    while k < |pages|
      invariant 0 <= k <= |pages|
      invariant |objects| == 3 + 2 * k
      invariant objects + PageObjects(z, fontId, pages[k..], 4 + 2 * k) == before + PageObjects(z, fontId, pages, 4)
      invariant pageIds == PageIds(k)
    {
      var content := BuildContent(pages[k]);
      PageIdsStep(k);
      PageObjectsStep(z, fontId, pages, k, 4 + 2 * k);
      AppendBoth(objects, [StreamObject(z.deflate(content))], [PageObject(fontId, 4 + 2 * k)],
                 PageObjects(z, fontId, pages[k + 1..], 4 + 2 * (k + 1)));
      objects := objects + [StreamObject(z.deflate(content))];
      var contentId := |objects|;
      objects := objects + [PageObject(fontId, contentId)];
      pageIds := pageIds + [|objects|];
      k := k + 1;
    }
    assert pages[k..] == [];
  }

  /** Allocates the objects, the Pages object being patched in once the kids are known. */
  method BuildObjects(pages: seq<seq<string>>, z: Zlib) returns (objects: seq<bytes>, catalogId: nat)
    ensures objects == Objects(z, pages) && catalogId == 1
  {
    objects := [CATALOG];
    catalogId := |objects|;
    objects := objects + [[]];
    var pagesId := |objects|;
    objects := objects + [FONT];
    var fontId := |objects|;
    var pageIds;
    objects, pageIds := AddPages(objects, pages, fontId, z);
    objects := objects[pagesId - 1 := PagesObject(pageIds)];
  }

  lemma {:induction false} BodySnoc(objs: seq<bytes>, k: nat)
    requires k < |objs|
    ensures Body(objs[..k + 1]) == Body(objs[..k]) + Chunk(k + 1, objs[k])
  {
    assert objs[..k + 1][..k] == objs[..k];
  }

  /** Serializes the objects, recording each offset as the buffer grows. */
  method WriteFile(objects: seq<bytes>, catalogId: nat) returns (out: bytes)
    ensures out == Serialize(objects, catalogId)
  {
    out := HEADER;
    var offsets: seq<nat> := [];
    var i := 0;
    while i < |objects|
      invariant 0 <= i <= |objects|
      invariant out == HEADER + Body(objects[..i])
      invariant offsets == Offsets(objects)[..i]
    {
      offsets := offsets + [|out|];
      BodySnoc(objects, i);
      AppendBoth(out, Dec(i + 1) + OBJ, objects[i], ENDOBJ);
      AppendBoth(HEADER, Body(objects[..i]), Chunk(i + 1, objects[i]), []);
      out := out + (Dec(i + 1) + OBJ);
      out := out + objects[i];
      out := out + ENDOBJ;
      i := i + 1;
    }
    assert objects[..i] == objects && offsets == Offsets(objects);
    out := WriteXref(out, offsets, |objects|, catalogId);
  }

  method WriteEntries(before: bytes, offsets: seq<nat>) returns (out: bytes)
    ensures out == before + Entries(offsets)
  {
    out := before;
    var j := 0;
    while j < |offsets|
      invariant 0 <= j <= |offsets|
      invariant out + Entries(offsets[j..]) == before + Entries(offsets)
    {
      assert offsets[j..][1..] == offsets[j + 1..];
      out := out + Entry(offsets[j]);
      j := j + 1;
    }
    assert offsets[j..] == [];
  }

  /** The cross-reference table and trailer after `front`. */
  method WriteXref(front: bytes, offsets: seq<nat>, nObjects: nat, catalogId: nat) returns (out: bytes)
    requires |offsets| == nObjects
    ensures out == front + XrefSection(offsets) + Trailer(nObjects + 1, catalogId, |front|)
  {
    var xrefOff := |front|;
    out := front + XrefHead(nObjects);
    out := WriteEntries(out, offsets);
    assert out == front + XrefSection(offsets);
    out := out + Trailer(nObjects + 1, catalogId, xrefOff);
  }

  /** `_minimal_pdf`: wrap, paginate, allocate, serialize. */
  method MinimalPdf(textLines: seq<string>, z: Zlib) returns (out: bytes)
    ensures out == Render(z, textLines)
  {
    var wrapped := Wrap(textLines);
    var objects, catalogId := BuildObjects(Paginate(wrapped), z);
    out := WriteFile(objects, catalogId);
  }
}
