/** File structure: each reader undoes the part of the writer it is meant for. */
module PdfStructure {
  import opened Wrappers
  import opened Bytes
  import opened PdfWriter
  import opened PdfReader

  lemma {:induction false} ReadFieldOf(lit: bytes, n: nat, rest: bytes)
    requires rest == [] || !IsDigit(rest[0])
    ensures ReadField(lit, lit + (Dec(n) + rest)) == Some((n, rest))
  {
    ExpectLiteral(lit, Dec(n) + rest);
    ReadNatOfDec(n, rest);
  }

  /** None of the literals that follow a number starts with a digit. */
  lemma {:induction false} NonDigitLiterals()
    ensures !IsDigit(SPACE[0]) && !IsDigit(NEWLINE[0]) && !IsDigit(OBJ[0]) && !IsDigit(ENDOBJ[0])
    ensures !IsDigit(REF[0]) && !IsDigit(REF_CLOSE[0]) && !IsDigit(DICT_CLOSE[0]) && !IsDigit(STREAM_START[0])
    ensures !IsDigit(RESOURCES[0]) && !IsDigit(PAGE_CONTENTS[0]) && !IsDigit(ROOT[0]) && !IsDigit(TRAILER_CLOSE[0])
  {
    assert SPACE[0] == 32 && REF[0] == 32 && DICT_CLOSE[0] == 32;
  }

  lemma {:induction false} AsciiConcat(s: string, t: string)
    ensures Ascii(s + t) == Ascii(s) + Ascii(t)
  {
  }

  /** The reader's literals are the writer's. */
  lemma {:induction false} SameTokens()
    ensures BLANK == SPACE && REFERENCE == REF && OBJECT_START == OBJ && DICT_END == DICT_CLOSE + ENDOBJ
    ensures REFERENCE_END == REF_CLOSE + ENDOBJ && PAGES_START == KIDS_START && COUNT == KIDS_COUNT
    ensures FONT_REFERENCE == RESOURCES && CONTENTS_REFERENCE == PAGE_CONTENTS && HELVETICA == FONT + ENDOBJ
  {
    hide Ascii;
    var helvetica := "<< /Type /Font /Subtype /Type1 /BaseFont /Helvetica >>";
    AsciiConcat(" >>", "\nendobj\n");
    assert " >>" + "\nendobj\n" == " >>\nendobj\n";
    AsciiConcat(" 0 R", " >>\nendobj\n");
    assert " 0 R" + " >>\nendobj\n" == " 0 R >>\nendobj\n";
    AsciiConcat(" 0 R", " >> >> /Contents ");
    assert " 0 R" + " >> >> /Contents " == " 0 R >> >> /Contents ";
    AsciiConcat(helvetica, "\nendobj\n");
    assert helvetica + "\nendobj\n" == "<< /Type /Font /Subtype /Type1 /BaseFont /Helvetica >>\nendobj\n";
  }

  lemma {:induction false} SameStreamTokens()
    ensures STREAM_LENGTH == LENGTH_KEY && DATA_START == STREAM_START && DATA_END == STREAM_END + ENDOBJ
  {
  }

  lemma {:induction false} SameFileTokens()
    ensures TABLE_START == XREF && FREE_OBJECT == NEWLINE + FREE_ENTRY && IN_USE == ENTRY_TAIL
    ensures TRAILER_SIZE == TRAILER && TRAILER_ROOT == ROOT && TRAILER_END == TRAILER_CLOSE
    ensures OFFSET_START == STARTXREF && FILE_END == EOF
  {
  }

  // ---------- object positions ----------

  lemma {:induction false} BodyPrefix(objs: seq<bytes>, k: nat)
    requires k <= |objs|
    ensures Body(objs[..k]) <= Body(objs)
    decreases |objs| - k
  {
    if k == |objs| {
      assert objs[..k] == objs;
    } else {
      BodySnoc(objs, k);
      BodyPrefix(objs, k + 1);
    }
  }

  /** The file starts with the header and all objects. */
  predicate HoldsObjects(file: bytes, objs: seq<bytes>) {
    HEADER + Body(objs) <= file
  }

  /** What follows object `k + 1` in the file. */
  function AfterObject(file: bytes, objs: seq<bytes>, k: nat): bytes
    requires k < |objs| && HoldsObjects(file, objs)
  {
    var end := OffsetOf(objs, k) + |Chunk(k + 1, objs[k])|;
    if end <= |file| then file[end..] else []
  }

  /** The recorded offset of object `k + 1` lands on `k+1 0 obj`, followed by exactly that object. */
  lemma {:induction false} OffsetLandsOnObject(file: bytes, objs: seq<bytes>, k: nat)
    requires k < |objs| && HoldsObjects(file, objs)
    ensures OffsetOf(objs, k) <= |file|
    ensures file[OffsetOf(objs, k)..] == Chunk(k + 1, objs[k]) + AfterObject(file, objs, k)
  {
    hide Chunk, Body;
    assert Body(objs[..k]) + Chunk(k + 1, objs[k]) <= Body(objs) by {
      BodySnoc(objs, k);
      BodyPrefix(objs, k + 1);
    }
    PrefixSplit(file, HEADER, Body(objs[..k]), Chunk(k + 1, objs[k]), Body(objs));
  }

  lemma {:induction false} PrefixSplit(file: bytes, a: bytes, b: bytes, c: bytes, whole: bytes)
    requires a + whole <= file && b + c <= whole
    ensures |a| + |b| + |c| <= |file|
    ensures file[|a| + |b|..] == c + file[|a| + |b| + |c|..]
  {
    assert file[|a|..|a| + |b + c|] == b + c;
    assert file[|a| + |b|..|a| + |b| + |c|] == file[|a|..|a| + |b + c|][|b|..];
  }

  /** Following an entry of the cross-reference table reaches the object it was recorded for. */
  lemma {:induction false} ObjectAtFinds(file: bytes, objs: seq<bytes>, k: nat)
    requires k < |objs| && HoldsObjects(file, objs)
    ensures ObjectAt(file, Offsets(objs), k + 1) == Some(objs[k] + (ENDOBJ + AfterObject(file, objs, k)))
  {
    SameTokens();
    var after := AfterObject(file, objs, k);
    OffsetLandsOnObject(file, objs, k);
    var rest := OBJ + (objs[k] + (ENDOBJ + after));
    AssociateChunk(Dec(k + 1), OBJ, objs[k], ENDOBJ, after);
    NonDigitLiterals();
    ReadNatOfDec(k + 1, rest);
    ExpectLiteral(OBJ, objs[k] + (ENDOBJ + after));
  }

  lemma {:induction false} AssociateChunk(a: bytes, b: bytes, c: bytes, d: bytes, e: bytes)
    ensures a + b + c + d + e == a + (b + (c + (d + e)))
  {
  }

  // ---------- dictionaries and streams ----------

  lemma {:induction false} ReadCatalogOf(rest: bytes)
    ensures ReadCatalog(CATALOG + (ENDOBJ + rest)) == Some(2)
  {
    SameTokens();
    assert Ascii("<< /Type /Catalog /Pages 2") == CATALOG_START + Dec(2);
    var tail := (REF_CLOSE + ENDOBJ) + rest;
    assert CATALOG + (ENDOBJ + rest) == CATALOG_START + (Dec(2) + tail);
    NonDigitLiterals();
    ReadFieldOf(CATALOG_START, 2, tail);
    ExpectLiteral(REF_CLOSE + ENDOBJ, rest);
  }

  lemma {:induction false} JoinStep(sep: bytes, first: bytes, more: seq<bytes>)
    ensures Join(sep, [first] + more) == if more == [] then first else first + sep + Join(sep, more)
  {
    assert ([first] + more)[1..] == more;
  }

  /** One reference, then either the end of the list or a space and the rest of it. */
  lemma {:induction false} ReadRefsStep(id: nat, rest: bytes, end: bytes, ids: seq<nat>)
    ensures SPACE <= rest && ReadRefs(rest[1..]) == Some((ids, end)) ==>
              ReadRefs(Dec(id) + REF + rest) == Some(([id] + ids, end))
    ensures !(SPACE <= rest) ==> ReadRefs(Dec(id) + REF + rest) == Some(([id], rest))
  {
    SameTokens();
    NonDigitLiterals();
    assert Dec(id) + REF + rest == Dec(id) + (REF + rest);
    ReadNatOfDec(id, REF + rest);
    ExpectLiteral(REF, rest);
  }

  /** The bytes of a non-singleton reference list, split after the first reference. */
  lemma {:induction false} KidRefsSplit(ids: seq<nat>, rest: bytes)
    requires |ids| > 1
    ensures Join(SPACE, KidRefs(ids)) + rest
         == Dec(ids[0]) + REF + (SPACE + (Join(SPACE, KidRefs(ids[1..])) + rest))
  {
    JoinStep(SPACE, Dec(ids[0]) + REF, KidRefs(ids[1..]));
    AfterSeparator(Dec(ids[0]) + REF, SPACE, Join(SPACE, KidRefs(ids[1..])), rest);
  }

  lemma {:induction false} ReadRefsOf(ids: seq<nat>, rest: bytes)
    requires ids != [] && !(SPACE <= rest)
    ensures ReadRefs(Join(SPACE, KidRefs(ids)) + rest) == Some((ids, rest))
  {
    SameTokens();
    hide ReadRefs, Join, Dec;
    if |ids| == 1 {
      JoinStep(SPACE, Dec(ids[0]) + REF, []);
      ReadRefsStep(ids[0], rest, rest, []);
      assert KidRefs(ids) == [Dec(ids[0]) + REF] + [];
      assert ids == [ids[0]];
    } else {
      hide KidRefs;
      var next := Join(SPACE, KidRefs(ids[1..])) + rest;
      ReadRefsOf(ids[1..], rest);
      KidRefsSplit(ids, rest);
      assert SPACE <= SPACE + next && (SPACE + next)[1..] == next;
      ReadRefsStep(ids[0], SPACE + next, rest, ids[1..]);
      assert ids == [ids[0]] + ids[1..];
    }
  }

  lemma {:induction false} AfterSeparator(first: bytes, sep: bytes, joined: bytes, rest: bytes)
    requires |sep| == 1
    ensures first + sep + joined + rest == first + (sep + (joined + rest))
    ensures sep <= sep + (joined + rest) && (sep + (joined + rest))[1..] == joined + rest
  {
  }

  lemma {:induction false} ReadPagesOf(ids: seq<nat>, rest: bytes)
    requires ids != []
    ensures ReadPages(PagesObject(ids) + (ENDOBJ + rest)) == Some(ids)
  {
    SameTokens();
    var tail := (DICT_CLOSE + ENDOBJ) + rest;
    var afterKids := KIDS_COUNT + (Dec(|ids|) + tail);
    var refs := Join(SPACE, KidRefs(ids));
    AssociateChunk(KIDS_START, refs, KIDS_COUNT, Dec(|ids|), DICT_CLOSE + (ENDOBJ + rest));
    assert PagesObject(ids) + (ENDOBJ + rest)
        == KIDS_START + refs + KIDS_COUNT + Dec(|ids|) + (DICT_CLOSE + (ENDOBJ + rest));
    assert DICT_CLOSE + (ENDOBJ + rest) == tail;
    ExpectLiteral(KIDS_START, refs + afterKids);
    assert afterKids[0] == KIDS_COUNT[0] == 93 && SPACE[0] == 32;
    ReadRefsOf(ids, afterKids);
    NonDigitLiterals();
    ReadFieldOf(KIDS_COUNT, |ids|, tail);
    ExpectLiteral(DICT_CLOSE + ENDOBJ, rest);
  }

  lemma {:induction false} ReadPageOf(fontId: nat, contentId: nat, rest: bytes)
    ensures ReadPage(PageObject(fontId, contentId) + (ENDOBJ + rest)) == Some(Page(2, fontId, contentId))
  {
    SameTokens();
    assert PAGE_PARENT == PARENT + Dec(2);
    NonDigitLiterals();
    var tail := (REF_CLOSE + ENDOBJ) + rest;
    var afterFont := PAGE_CONTENTS + (Dec(contentId) + tail);
    var afterParent := RESOURCES + (Dec(fontId) + afterFont);
    AssociatePage(PARENT, Dec(2), RESOURCES, Dec(fontId), PAGE_CONTENTS, Dec(contentId), REF_CLOSE, ENDOBJ, rest);
    ReadFieldOf(PARENT, 2, afterParent);
    ReadFieldOf(RESOURCES, fontId, afterFont);
    ReadFieldOf(PAGE_CONTENTS, contentId, tail);
    ExpectLiteral(REF_CLOSE + ENDOBJ, rest);
  }

  lemma {:induction false} AssociatePage(a: bytes, b: bytes, c: bytes, d: bytes, e: bytes, f: bytes, g: bytes,
                                         h: bytes, i: bytes)
    ensures (a + b + c) + d + e + f + g + (h + i) == a + (b + (c + (d + (e + (f + ((g + h) + i))))))
  {
  }

  /** The declared `/Length` delimits the data exactly, whatever bytes it holds. */
  lemma {:induction false} ReadStreamOf(z: Zlib, data: bytes, rest: bytes)
    ensures ReadStream(z, StreamObject(data) + (ENDOBJ + rest)) == z.inflate(data)
  {
    SameStreamTokens();
    var tail := (STREAM_END + ENDOBJ) + rest;
    var afterLength := STREAM_START + (data + tail);
    AssociateStream(LENGTH_KEY, Dec(|data|), STREAM_START, data, STREAM_END, ENDOBJ, rest);
    NonDigitLiterals();
    ReadFieldOf(LENGTH_KEY, |data|, afterLength);
    ExpectLiteral(STREAM_START, data + tail);
    assert (data + tail)[..|data|] == data && (data + tail)[|data|..] == tail;
    ExpectLiteral(STREAM_END + ENDOBJ, rest);
  }

  lemma {:induction false} AssociateStream(a: bytes, b: bytes, c: bytes, d: bytes, e: bytes, f: bytes, g: bytes)
    ensures a + b + c + d + e + (f + g) == a + (b + (c + (d + ((e + f) + g))))
  {
  }

  // ---------- cross-reference table ----------

  /** An in-use entry is the 20 bytes the standard demands exactly when its offset is below 10^10. */
  lemma {:induction false} EntryWidth(off: nat)
    ensures |Entry(off)| == 20 <==> off < TEN_DIGITS
  {
    Pad10Meaning(off);
  }

  lemma {:induction false} ReadEntryOf(off: nat, rest: bytes)
    requires off < TEN_DIGITS
    ensures ReadEntry(Entry(off) + rest) == Some((off, rest))
  {
    SameFileTokens();
    Pad10Meaning(off);
    var s := Entry(off) + rest;
    assert s[..10] == Pad10(off);
    assert s[10..20] == ENTRY_TAIL;
    assert s[20..] == rest;
  }

  ghost predicate Below(offs: seq<nat>, bound: nat) {
    forall k :: 0 <= k < |offs| ==> offs[k] < bound
  }

  lemma {:induction false} ReadEntriesOf(offs: seq<nat>, rest: bytes)
    requires Below(offs, TEN_DIGITS)
    ensures ReadEntries(Entries(offs) + rest, |offs|) == Some((offs, rest))
  {
    if offs == [] {
      assert Entries(offs) + rest == rest;
    } else {
      assert Entries(offs) + rest == Entry(offs[0]) + (Entries(offs[1..]) + rest);
      ReadEntryOf(offs[0], Entries(offs[1..]) + rest);
      ReadEntriesOf(offs[1..], rest);
      assert offs == [offs[0]] + offs[1..];
    }
  }

  /** An offset of more than ten digits pushes a digit where the entry's tail should start. */
  lemma {:induction false} ReadEntryTooWide(off: nat, rest: bytes)
    requires off >= TEN_DIGITS
    ensures ReadEntry(Entry(off) + rest) == None
  {
    SameFileTokens();
    Pad10Meaning(off);
    var s := Entry(off) + rest;
    assert s[10] == Pad10(off)[10];
    assert ENTRY_TAIL[0] == 32;
    assert |s| >= 20 ==> s[10..20][0] == s[10];
  }

  /** One such offset makes the whole list unreadable. */
  lemma {:induction false} ReadEntriesTooWide(offs: seq<nat>, rest: bytes)
    requires !Below(offs, TEN_DIGITS)
    ensures ReadEntries(Entries(offs) + rest, |offs|) == None
  {
    assert Entries(offs) + rest == Entry(offs[0]) + (Entries(offs[1..]) + rest);
    hide Entry, ReadEntry, Entries;
    if offs[0] >= TEN_DIGITS {
      ReadEntryTooWide(offs[0], Entries(offs[1..]) + rest);
    } else {
      ReadEntryOf(offs[0], Entries(offs[1..]) + rest);
      assert offs == [offs[0]] + offs[1..];
      ReadEntriesTooWide(offs[1..], rest);
    }
  }

  lemma {:induction false} ReadTrailerOf(size: nat, root: nat, xrefOff: nat)
    ensures ReadTrailer(Trailer(size, root, xrefOff)) == Some((size, root))
  {
    SameFileTokens();
    var end := STARTXREF + Dec(xrefOff) + EOF;
    AssociateTrailer(TRAILER, Dec(size), ROOT, Dec(root), TRAILER_CLOSE, STARTXREF, Dec(xrefOff), EOF);
    NonDigitLiterals();
    ReadFieldOf(TRAILER, size, ROOT + (Dec(root) + (TRAILER_CLOSE + end)));
    ReadFieldOf(ROOT, root, TRAILER_CLOSE + end);
    ExpectLiteral(TRAILER_CLOSE, end);
  }

  lemma {:induction false} AssociateTrailer(a: bytes, b: bytes, c: bytes, d: bytes, e: bytes, f: bytes, g: bytes,
                                            h: bytes)
    ensures a + b + c + d + e + f + g + h == a + (b + (c + (d + (e + (f + g + h)))))
    ensures a + b + c + d + e + f + g + h == (a + b + c + d + e) + (f + g + h)
  {
  }

  /** The table is its list of entries. */
  lemma {:induction false} ReadTableIs(offs: seq<nat>, rest: bytes)
    ensures ReadTable(XrefSection(offs) + rest) == ReadEntries(Entries(offs) + rest, |offs|)
  {
    SameFileTokens();
    var entries := Entries(offs) + rest;
    AssociateTable(XREF, Dec(|offs| + 1), NEWLINE, FREE_ENTRY, Entries(offs), rest);
    NonDigitLiterals();
    ReadFieldOf(XREF, |offs| + 1, (NEWLINE + FREE_ENTRY) + entries);
    ExpectLiteral(NEWLINE + FREE_ENTRY, entries);
  }

  lemma {:induction false} AssociateTable(a: bytes, b: bytes, c: bytes, d: bytes, e: bytes, f: bytes)
    ensures a + b + c + d + e + f == a + (b + ((c + d) + (e + f)))
  {
  }

  /** Reading the table and trailer recovers every offset and the root if every offset fits ten digits, and fails
      otherwise. */
  lemma {:induction false} ReadXrefOf(offs: seq<nat>, root: nat, xrefOff: nat)
    ensures ReadXref(XrefSection(offs) + Trailer(|offs| + 1, root, xrefOff))
         == if Below(offs, TEN_DIGITS) then Some(Xref(offs, root)) else None
  {
    hide XrefSection, Trailer, Entries, ReadTable, ReadTrailer, ReadEntries;
    var trailer := Trailer(|offs| + 1, root, xrefOff);
    ReadTableIs(offs, trailer);
    if Below(offs, TEN_DIGITS) {
      ReadEntriesOf(offs, trailer);
      ReadTrailerOf(|offs| + 1, root, xrefOff);
    } else {
      ReadEntriesTooWide(offs, trailer);
    }
  }

  lemma {:induction false} SuffixOf(pre: bytes, suffix: bytes)
    ensures EndsWith(pre + suffix, suffix)
    ensures (pre + suffix)[..|pre + suffix| - |suffix|] == pre
    ensures (pre + suffix)[|pre + suffix| - |suffix|..] == suffix
  {
  }

  /** The end of the file gives the byte offset of the cross-reference table. */
  lemma {:induction false} ReadStartXrefOf(before: bytes, xrefOff: nat)
    ensures ReadStartXref(before + STARTXREF + Dec(xrefOff) + EOF) == Some(xrefOff)
  {
    SameFileTokens();
    var pre := before + STARTXREF;
    SuffixOf(pre + Dec(xrefOff), EOF);
    SuffixOf(pre, Dec(xrefOff));
    SuffixOf(before, STARTXREF);
    assert pre[|pre| - 1] == STARTXREF[|STARTXREF| - 1] == 10;
    TrailingDigitsOf(pre, Dec(xrefOff));
    ValueOfDec(xrefOff);
  }
}
