/** Word wrap and pagination of the fallback PDF renderer. */
module TextLayout {

  const MAX_CHARS: nat := 90
  const TOP: nat := 750
  const LINE_HEIGHT: nat := 14
  const LINES_PER_PAGE: nat := (TOP - 60) / LINE_HEIGHT

  /** Python's `str.isspace` for one character. */
  predicate IsSpace(c: char) {
    var n := c as int;
    9 <= n <= 13 || 28 <= n <= 32 || n == 0x85 || n == 0xA0 || n == 0x1680 || 0x2000 <= n <= 0x200A
    || n == 0x2028 || n == 0x2029 || n == 0x202F || n == 0x205F || n == 0x3000
  }

  function LStrip(s: string): (r: string)
    ensures |r| <= |s|
  {
    if s != "" && IsSpace(s[0]) then LStrip(s[1..]) else s
  }

  /** Python's `s.rfind(" ", 0, hi)`. */
  function RFindSpace(s: string, hi: nat): (i: int)
    requires hi <= |s|
    ensures -1 <= i < hi
  {
    if hi == 0 then -1 else if s[hi - 1] == ' ' then hi - 1 else RFindSpace(s, hi - 1)
  }

  /** It is the last space before `hi`, and -1 when there is none. */
  lemma {:induction false} RFindSpaceMeaning(s: string, hi: nat)
    requires hi <= |s|
    ensures var i := RFindSpace(s, hi);
      (i >= 0 ==> s[i] == ' ') && forall j :: i < j < hi ==> s[j] != ' '
  {
    if hi > 0 && s[hi - 1] != ' ' {
      RFindSpaceMeaning(s, hi - 1);
    }
  }

  /** Only leading whitespace is dropped. */
  lemma {:induction false} LStripMeaning(s: string)
    ensures LStrip(s) == s[|s| - |LStrip(s)|..]
    ensures LStrip(s) != "" ==> !IsSpace(LStrip(s)[0])
  {
    if s != "" && IsSpace(s[0]) {
      LStripMeaning(s[1..]);
    }
  }

  /** Where an over-long line is cut: the last space of the first 90 characters, else hard at 90. */
  function Cut(ln: string): (cut: nat)
    requires |ln| > MAX_CHARS
    ensures 0 < cut <= MAX_CHARS
  {
    var i := RFindSpace(ln, MAX_CHARS);
    if i <= 0 then MAX_CHARS else i
  }

  function WrapLine(ln: string): (pieces: seq<string>)
    decreases |ln|
  {
    if |ln| <= MAX_CHARS then [ln]
    else [ln[..Cut(ln)]] + WrapLine(LStrip(ln[Cut(ln)..]))
  }

  function WrapLines(lines: seq<string>): seq<string> {
    if lines == [] then [] else WrapLine(lines[0]) + WrapLines(lines[1..])
  }

  lemma {:induction false} WrapLinesSnoc(lines: seq<string>, ln: string)
    ensures WrapLines(lines + [ln]) == WrapLines(lines) + WrapLine(ln)
  {
    if lines == [] {
      assert [ln][1..] == [];
    } else {
      assert (lines + [ln])[1..] == lines[1..] + [ln];
      WrapLinesSnoc(lines[1..], ln);
    }
  }

  /** One round of the inner loop: appending the cut piece leaves the rest to wrap. */
  lemma {:induction false} WrapStep(done: seq<string>, ln: string)
    requires |ln| > MAX_CHARS
    ensures done + WrapLine(ln) == (done + [ln[..Cut(ln)]]) + WrapLine(LStrip(ln[Cut(ln)..]))
  {
  }

  /** The inner loop: cuts one line and appends its pieces. */
  method AppendWrapped(before: seq<string>, textLine: string) returns (wrapped: seq<string>)
    ensures wrapped == before + WrapLine(textLine)
  {
    wrapped := before;
    var ln := textLine;
    while |ln| > MAX_CHARS
      invariant wrapped + WrapLine(ln) == before + WrapLine(textLine)
      decreases |ln|
    {
      WrapStep(wrapped, ln);
      var cut := RFindSpace(ln, MAX_CHARS);
      if cut <= 0 {
        cut := MAX_CHARS;
      }
      wrapped := wrapped + [ln[..cut]];
      ln := LStrip(ln[cut..]);
    }
    wrapped := wrapped + [ln];
  }

  /** The wrap loop over all text lines. */
  method Wrap(textLines: seq<string>) returns (wrapped: seq<string>)
    ensures wrapped == WrapLines(textLines)
  {
    wrapped := [];
    var i := 0;
    while i < |textLines|
      invariant 0 <= i <= |textLines|
      invariant wrapped == WrapLines(textLines[..i])
    {
      var ln := textLines[i];
      WrapLinesSnoc(textLines[..i], ln);
      assert textLines[..i + 1] == textLines[..i] + [ln];
      if |ln| == 0 {
        wrapped := wrapped + [ln];
      } else {
        wrapped := AppendWrapped(wrapped, ln);
      }
      i := i + 1;
    }
    assert textLines[..i] == textLines;
  }

  // ---------- how far a line is filled ----------

  /** Where a line of more than 90 characters has to be cut: at the last space of its characters 1 to 89, or after 90
      characters when none of those is a space. */
  predicate CutAt(ln: string, k: nat)
    requires |ln| > 90
  {
    && 1 <= k <= 90
    && (k < 90 ==> ln[k] == ' ')
    && forall j :: (if k == 90 then 0 else k) < j < 90 ==> ln[j] != ' '
  }

  /** After a cut at `k` the line goes on at `m`, its first character from `k` on that is not whitespace. */
  predicate GoesOnAt(ln: string, k: nat, m: nat)
    requires k <= |ln|
  {
    && k <= m <= |ln|
    && (forall j :: k <= j < m ==> IsSpace(ln[j]))
    && (m < |ln| ==> !IsSpace(ln[m]))
  }

  lemma {:induction false} OneCut(ln: string, k: nat)
    requires |ln| > 90
    ensures CutAt(ln, k) <==> k == Cut(ln)
  {
    RFindSpaceMeaning(ln, MAX_CHARS);
    assert CutAt(ln, Cut(ln));
  }

  lemma {:induction false} LStripGoesOn(ln: string, k: nat, m: nat)
    requires k <= |ln|
    ensures GoesOnAt(ln, k, m) <==> m == |ln| - |LStrip(ln[k..])|
    ensures LStrip(ln[k..]) == ln[|ln| - |LStrip(ln[k..])|..]
    decreases |ln| - k
  {
    if k < |ln| && IsSpace(ln[k]) {
      assert ln[k..][1..] == ln[k + 1..];
      LStripGoesOn(ln, k + 1, m);
    }
  }

  /** Every line is filled as far as it goes: there is one place to cut it and one to go on from, the first piece is
      what is before the cut, and the others are those of the rest. */
  lemma {:induction false} FilledLines(ln: string)
    requires |ln| > 90
    ensures exists k: nat, m: nat :: k <= |ln| && CutAt(ln, k) && GoesOnAt(ln, k, m)
    ensures forall k: nat, m: nat :: k <= |ln| && CutAt(ln, k) && GoesOnAt(ln, k, m) ==>
              WrapLine(ln) == [ln[..k]] + WrapLine(ln[m..])
  {
    hide CutAt, GoesOnAt, Cut, LStrip;
    var c := Cut(ln);
    var r := |ln| - |LStrip(ln[c..])|;
    OneCut(ln, c);
    LStripGoesOn(ln, c, r);
    forall k: nat, m: nat | k <= |ln| && CutAt(ln, k) && GoesOnAt(ln, k, m)
      ensures k == c && m == r
    {
      OneCut(ln, k);
      LStripGoesOn(ln, k, m);
    }
  }

  /** A line that fits stays as it is, an empty one too, and the text is wrapped line by line in order. */
  lemma {:induction false} LineByLine(before: seq<string>, ln: string, after: seq<string>)
    ensures |ln| <= 90 ==> WrapLine(ln) == [ln]
    ensures WrapLines(before + [ln] + after) == WrapLines(before) + WrapLine(ln) + WrapLines(after)
  {
    if before == [] {
      assert (before + [ln] + after)[1..] == after;
    } else {
      assert (before + [ln] + after)[1..] == before[1..] + [ln] + after;
      hide WrapLine;
      LineByLine(before[1..], ln, after);
    }
  }

  // ---------- what wrapping preserves ----------

  /** The text without its whitespace. */
  function Ink(s: string): string {
    if s == "" then "" else (if IsSpace(s[0]) then "" else [s[0]]) + Ink(s[1..])
  }

  function Flatten<T>(parts: seq<seq<T>>): seq<T> {
    if parts == [] then [] else parts[0] + Flatten(parts[1..])
  }

  lemma {:induction false} InkConcat(s: string, t: string)
    ensures Ink(s + t) == Ink(s) + Ink(t)
  {
    if s == "" {
      assert s + t == t;
    } else {
      assert (s + t)[1..] == s[1..] + t;
      InkConcat(s[1..], t);
    }
  }

  lemma {:induction false} InkOfLStrip(s: string)
    ensures Ink(LStrip(s)) == Ink(s)
  {
    if s != "" && IsSpace(s[0]) {
      InkOfLStrip(s[1..]);
    }
  }

  lemma {:induction false} FlattenConcat<T>(a: seq<seq<T>>, b: seq<seq<T>>)
    ensures Flatten(a + b) == Flatten(a) + Flatten(b)
  {
    if a == [] {
      assert a + b == b;
    } else {
      assert (a + b)[1..] == a[1..] + b;
      FlattenConcat(a[1..], b);
    }
  }

  lemma {:induction false} WrapLineKeepsInk(ln: string)
    ensures Ink(Flatten(WrapLine(ln))) == Ink(ln)
    decreases |ln|
  {
    if |ln| <= MAX_CHARS {
      assert Flatten([ln]) == ln;
    } else {
      var head, tail := ln[..Cut(ln)], ln[Cut(ln)..];
      var rest := LStrip(tail);
      FlattenConcat([head], WrapLine(rest));
      assert Flatten([head]) == head;
      InkConcat(head, Flatten(WrapLine(rest)));
      WrapLineKeepsInk(rest);
      InkOfLStrip(tail);
      InkConcat(head, tail);
      assert ln == head + tail;
    }
  }

  /** No line is over-long, and the non-whitespace text comes through unchanged and in order. */
  lemma {:induction false} WrapKeepsText(lines: seq<string>)
    ensures Ink(Flatten(WrapLines(lines))) == Ink(Flatten(lines))
    ensures forall piece :: piece in WrapLines(lines) ==> |piece| <= MAX_CHARS
  {
    if lines != [] {
      WrapLineKeepsInk(lines[0]);
      WrapLineLengths(lines[0]);
      WrapKeepsText(lines[1..]);
      FlattenConcat(WrapLine(lines[0]), WrapLines(lines[1..]));
      InkConcat(Flatten(WrapLine(lines[0])), Flatten(WrapLines(lines[1..])));
      InkConcat(lines[0], Flatten(lines[1..]));
    }
  }

  lemma {:induction false} WrapLineLengths(ln: string)
    ensures forall piece :: piece in WrapLine(ln) ==> |piece| <= MAX_CHARS
    decreases |ln|
  {
    if |ln| > MAX_CHARS {
      WrapLineLengths(LStrip(ln[Cut(ln)..]));
    }
  }

  // ---------- words ----------

  function WordLength(s: string): (k: nat)
    ensures k <= |s|
    ensures forall i :: 0 <= i < k ==> !IsSpace(s[i])
    ensures k < |s| ==> IsSpace(s[k])
  {
    if s == "" || IsSpace(s[0]) then 0 else 1 + WordLength(s[1..])
  }

  /** Python's `s.split()`. */
  function Words(s: string): seq<string>
    decreases |s|
  {
    if s == "" then []
    else if IsSpace(s[0]) then Words(s[1..])
    else [s[..WordLength(s)]] + Words(s[WordLength(s)..])
  }

  function WordsOfAll(pieces: seq<string>): seq<string> {
    if pieces == [] then [] else Words(pieces[0]) + WordsOfAll(pieces[1..])
  }

  lemma {:induction false} WordLengthConcat(s: string, t: string)
    requires t == "" || IsSpace(t[0])
    ensures WordLength(s + t) == WordLength(s)
  {
    if s == "" {
      assert s + t == t;
    } else if !IsSpace(s[0]) {
      assert (s + t)[1..] == s[1..] + t;
      WordLengthConcat(s[1..], t);
    }
  }

  lemma {:induction false} WordsConcat(s: string, t: string)
    requires t == "" || IsSpace(t[0])
    ensures Words(s + t) == Words(s) + Words(t)
    decreases |s|
  {
    if s == "" {
      assert s + t == t;
    } else if IsSpace(s[0]) {
      assert (s + t)[1..] == s[1..] + t;
      WordsConcat(s[1..], t);
    } else {
      var k := WordLength(s);
      WordLengthConcat(s, t);
      assert (s + t)[..k] == s[..k] && (s + t)[k..] == s[k..] + t;
      WordsConcat(s[k..], t);
    }
  }

  lemma {:induction false} WordsOfLStrip(s: string)
    ensures Words(LStrip(s)) == Words(s)
  {
    if s != "" && IsSpace(s[0]) {
      WordsOfLStrip(s[1..]);
    }
  }

  lemma {:induction false} WordsOfFirst(piece: string, pieces: seq<string>)
    ensures WordsOfAll([piece] + pieces) == Words(piece) + WordsOfAll(pieces)
  {
    assert ([piece] + pieces)[1..] == pieces;
  }

  /** Some space among the 91 characters from `i` on. */
  predicate SpaceWithin(s: string, i: nat)
    requires i + MAX_CHARS < |s|
  {
    exists j :: i <= j <= i + MAX_CHARS && s[j] == ' '
  }

  /** No run of more than 90 characters without a space, nor one of 90 right after a space that opens the line. */
  ghost predicate Breakable(ln: string) {
    && (forall i: nat :: i < |ln| - MAX_CHARS ==> SpaceWithin(ln, i))
    && (|ln| > MAX_CHARS && ln[0] == ' ' ==> exists j :: 1 <= j <= MAX_CHARS && ln[j] == ' ')
  }

  /** On a breakable line the cut never falls inside a word. */
  lemma {:induction false} CutAtSpace(ln: string)
    requires |ln| > MAX_CHARS && Breakable(ln)
    ensures ln[Cut(ln)] == ' '
  {
    RFindSpaceMeaning(ln, MAX_CHARS);
    if RFindSpace(ln, MAX_CHARS) < 0 {
      assert SpaceWithin(ln, 0);
    }
  }

  lemma {:induction false} BreakableSuffix(ln: string, k: nat)
    requires k <= |ln| && Breakable(ln) && (k < |ln| ==> ln[k] != ' ')
    ensures Breakable(ln[k..])
  {
    forall i: nat | i < |ln[k..]| - MAX_CHARS
      ensures SpaceWithin(ln[k..], i)
    {
      assert SpaceWithin(ln, k + i);
      var j :| k + i <= j <= k + i + MAX_CHARS && ln[j] == ' ';
      assert ln[k..][j - k] == ' ';
    }
  }

  /** One cut of a breakable line separates words and leaves a breakable rest. */
  lemma {:induction false} WordsAcrossCut(ln: string, head: string, tail: string)
    requires |ln| > MAX_CHARS && Breakable(ln)
    requires head == ln[..Cut(ln)] && tail == ln[Cut(ln)..]
    ensures Words(ln) == Words(head) + Words(LStrip(tail))
    ensures Breakable(LStrip(tail))
  {
    CutAtSpace(ln);
    assert ln == head + tail;
    WordsConcat(head, tail);
    WordsOfLStrip(tail);
    LStripMeaning(tail);
    assert LStrip(tail) == ln[|ln| - |LStrip(tail)|..];
    BreakableSuffix(ln, |ln| - |LStrip(tail)|);
  }

  /** A line without an overlong word keeps its words: no cut falls inside one. */
  lemma {:induction false} WrapKeepsWords(ln: string)
    requires Breakable(ln)
    ensures WordsOfAll(WrapLine(ln)) == Words(ln)
    decreases |ln|
  {
    if |ln| <= MAX_CHARS {
      assert WordsOfAll([ln]) == Words(ln) + WordsOfAll([ln][1..]);
    } else {
      var head, tail := ln[..Cut(ln)], ln[Cut(ln)..];
      WordsAcrossCut(ln, head, tail);
      WrapKeepsWords(LStrip(tail));
      WordsOfFirst(head, WrapLine(LStrip(tail)));
    }
  }

  // ---------- pages ----------

  function Chunks(lines: seq<string>): seq<seq<string>> {
    if lines == [] then []
    else if |lines| <= LINES_PER_PAGE then [lines]
    else [lines[..LINES_PER_PAGE]] + Chunks(lines[LINES_PER_PAGE..])
  }

  /** The wrapped lines page by page; a document without lines still gets one page with one empty line. */
  function Paginate(wrapped: seq<string>): seq<seq<string>> {
    if wrapped == [] then [[""]] else Chunks(wrapped)
  }

  lemma {:induction false} ChunksShape(lines: seq<string>)
    ensures Flatten(Chunks(lines)) == lines
    ensures forall k :: 0 <= k < |Chunks(lines)| ==> 1 <= |Chunks(lines)[k]| <= LINES_PER_PAGE
    ensures forall k :: 0 <= k < |Chunks(lines)| - 1 ==> |Chunks(lines)[k]| == LINES_PER_PAGE
    ensures lines != [] ==> Chunks(lines) != []
  {
    if lines == [] {
    } else if |lines| <= LINES_PER_PAGE {
      assert Flatten([lines]) == lines + Flatten([lines][1..]);
    } else {
      ChunksShape(lines[LINES_PER_PAGE..]);
      assert Chunks(lines)[1..] == Chunks(lines[LINES_PER_PAGE..]);
    }
  }

  /** Pages in order give back the wrapped lines; every page is non-empty, fits above y = 60, and only
      the last may hold less than 49 lines. */
  lemma {:induction false} PaginateShape(wrapped: seq<string>)
    ensures Paginate(wrapped) != []
    ensures Flatten(Paginate(wrapped)) == if wrapped == [] then [""] else wrapped
    ensures forall k :: 0 <= k < |Paginate(wrapped)| ==>
              Paginate(wrapped)[k] != [] && 750 - 14 * (|Paginate(wrapped)[k]| - 1) >= 60
    ensures forall k :: 0 <= k < |Paginate(wrapped)| - 1 ==>
              |Paginate(wrapped)[k]| == 49
  {
    ChunksShape(wrapped);
    assert Flatten([[""]]) == [""] + Flatten([[""]][1..]);
  }
}
