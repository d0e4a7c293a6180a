/** Content streams: interpreting the operators the writer emits recovers the lines of the page. */
module PdfContent {
  import opened Wrappers
  import opened Bytes
  import opened TextLayout
  import opened PdfWriter
  import opened PdfReader
  import opened PdfStrings
  import Utf8

  /** The lines as a viewer sees them: one below the other from (x, y), 14 points apart. */
  function Layout(lines: seq<string>, x: int, y: int): (drawn: seq<Drawn>)
    ensures |drawn| == |lines|
  {
    if lines == [] then []
    else [Drawn(x, y, NormalizeEol(lines[0]))] + Layout(lines[1..], x, y - LINE_HEIGHT)
  }

  /** Line `k` sits 14 * k points under the first. */
  lemma {:induction false} LayoutAt(lines: seq<string>, x: int, y: int, k: nat)
    requires k < |lines|
    ensures Layout(lines, x, y)[k] == Drawn(x, y - LINE_HEIGHT * k, NormalizeEol(lines[k]))
  {
    if k > 0 {
      LayoutAt(lines[1..], x, y - LINE_HEIGHT, k - 1);
    }
  }

  lemma {:induction false} ShowTextParts(ln: string)
    ensures ShowText(ln) == [OPEN] + (Utf8.Encode(OnePass(ln)) + Ascii(") Tj"))
  {
    var esc := OnePass(ln);
    EscapeIsOnePass(ln);
    hide OnePass, EscapePdfStr, Utf8.Encode;
    assert "(" + esc + ") Tj" == "(" + (esc + ") Tj");
    Utf8.EncodeConcat("(", esc + ") Tj");
    Utf8.EncodeConcat(esc, ") Tj");
    Utf8.EncodeAscii("(");
    Utf8.EncodeAscii(") Tj");
    assert Ascii("(") == [OPEN];
  }

  lemma {:induction false} ShowTextIsQuoted(ln: string, rest: bytes)
    ensures ShowText(ln) + NEWLINE + rest == [OPEN] + Quoted(ln, TJ + rest)
  {
    ShowTextParts(ln);
    assert Ascii(") Tj") + NEWLINE == [CLOSE] + TJ;
    AssociateShow(Utf8.Encode(OnePass(ln)), Ascii(") Tj"), rest);
  }

  lemma {:induction false} AssociateShow(esc: bytes, tail: bytes, rest: bytes)
    requires tail + NEWLINE == [CLOSE] + TJ
    ensures ([OPEN] + (esc + tail)) + NEWLINE + rest == [OPEN] + (esc + ([CLOSE] + (TJ + rest)))
  {
    assert ([OPEN] + (esc + tail)) + NEWLINE + rest == [OPEN] + (esc + ((tail + NEWLINE) + rest));
  }

  /** One shown line followed by more operators. */
  lemma {:induction false} ReadShow(ln: string, rest: bytes, x: int, y: int, more: seq<Drawn>)
    requires ReadOps(rest, x, y) == Some(more)
    ensures ReadOps(ShowText(ln) + NEWLINE + rest, x, y) == Some([Drawn(x, y, NormalizeEol(ln))] + more)
  {
    var s := ShowText(ln) + NEWLINE + rest;
    ShowTextIsQuoted(ln, rest);
    assert s[0] == OPEN && s[1..] == Quoted(ln, TJ + rest);
    assert s != ET;
    ReadLiteralOfEscape(ln, TJ + rest);
    ExpectLiteral(TJ, rest);
    Utf8.DecodeOfEncode(NormalizeEol(ln));
  }

  /** One `Td`, given what its two operands read as. */
  lemma {:induction false} ReadMove(s: bytes, dx: int, afterX: bytes, dy: int, rest: bytes)
    requires ReadInt(s) == Some((dx, SPACE + afterX))
    requires ReadInt(afterX) == Some((dy, TD + rest))
    ensures ReadTd(s) == Some((dx, dy, rest))
  {
    ExpectLiteral(SPACE, afterX);
    ExpectLiteral(TD, rest);
  }

  lemma {:induction false} ReadMoveToTop(rest: bytes)
    ensures ReadTd(MOVE_TO_TOP + NEWLINE + rest) == Some((LEFT, TOP, rest))
    ensures IsDigit((MOVE_TO_TOP + NEWLINE + rest)[0])
  {
    var afterX := Dec(TOP) + (TD + rest);
    assert Ascii(" Td") + NEWLINE == TD;
    assert MOVE_TO_TOP + NEWLINE + rest == Dec(LEFT) + (SPACE + afterX);
    ReadIntOfDec(LEFT, SPACE + afterX);
    ReadIntOfDec(TOP, TD + rest);
    ReadMove(Dec(LEFT) + (SPACE + afterX), LEFT, afterX, TOP, rest);
    assert IsDigit(Dec(LEFT)[0]);
  }

  lemma {:induction false} NextLineParts()
    ensures NEXT_LINE + NEWLINE == Dec(0) + SPACE + [45 as byte] + Dec(LINE_HEIGHT) + TD
  {
    assert Ascii(" Td") + NEWLINE == TD;
    assert Ascii("0 -") == Dec(0) + SPACE + [45 as byte];
  }

  lemma {:induction false} ReadNextLine(rest: bytes)
    ensures ReadTd(NEXT_LINE + NEWLINE + rest) == Some((0, -(LINE_HEIGHT as int), rest))
    ensures IsDigit((NEXT_LINE + NEWLINE + rest)[0])
  {
    var afterX := [45 as byte] + (Dec(LINE_HEIGHT) + (TD + rest));
    NextLineParts();
    AssociateMove(Dec(0), SPACE, [45 as byte], Dec(LINE_HEIGHT), TD, rest);
    ReadIntOfDec(0, SPACE + afterX);
    ReadIntOfMinusDec(LINE_HEIGHT, TD + rest);
    ReadMove(NEXT_LINE + NEWLINE + rest, 0, afterX, -(LINE_HEIGHT as int), rest);
    assert IsDigit(Dec(0)[0]);
  }

  lemma {:induction false} AssociateMove(a: bytes, b: bytes, c: bytes, d: bytes, e: bytes, f: bytes)
    ensures a + b + c + d + e + f == a + (b + (c + (d + (e + f))))
  {
  }

  lemma {:induction false} JoinCons(part: bytes, parts: seq<bytes>)
    requires parts != []
    ensures Join(NEWLINE, [part] + parts) == part + NEWLINE + Join(NEWLINE, parts)
  {
    assert ([part] + parts)[1..] == parts;
  }

  lemma {:induction false} ReadShowThen(ln: string, later: seq<bytes>, x: int, y: int, more: seq<Drawn>)
    requires later != []
    requires ReadOps(Join(NEWLINE, later), x, y) == Some(more)
    ensures ReadOps(Join(NEWLINE, [ShowText(ln)] + later), x, y) == Some([Drawn(x, y, NormalizeEol(ln))] + more)
  {
    JoinCons(ShowText(ln), later);
    ReadShow(ln, Join(NEWLINE, later), x, y, more);
  }

  lemma {:induction false} ReadNextLineThen(later: seq<bytes>, x: int, y: int)
    requires later != []
    ensures ReadOps(Join(NEWLINE, [NEXT_LINE] + later), x, y) == ReadOps(Join(NEWLINE, later), x, y - LINE_HEIGHT)
  {
    JoinCons(NEXT_LINE, later);
    ReadNextLine(Join(NEWLINE, later));
    var s := NEXT_LINE + NEWLINE + Join(NEWLINE, later);
    assert s[0] != OPEN && s[0] != ET[0];
  }

  function Operators(lines: seq<string>, first: bool): (ops: seq<bytes>)
    ensures ops != []
  {
    ShowLines(lines, first) + [ET]
  }

  lemma {:induction false} OperatorsCons(lines: seq<string>, first: bool)
    requires lines != []
    ensures var shown := [ShowText(lines[0])] + Operators(lines[1..], false);
      Operators(lines, first) == if first then shown else [NEXT_LINE] + shown
  {
  }

  /** The operators after the first positioning draw exactly the layout of the lines. */
  lemma {:induction false} ReadShowLines(lines: seq<string>, first: bool, x: int, y: int)
    ensures ReadOps(Join(NEWLINE, Operators(lines, first)), x, y)
         == Some(Layout(lines, x, if first then y else y - LINE_HEIGHT))
    decreases |lines|
  {
    if lines == [] {
      assert Operators(lines, first) == [ET];
    } else {
      var y' := if first then y else y - LINE_HEIGHT;
      var later := Operators(lines[1..], false);
      ReadShowLines(lines[1..], false, x, y');
      ReadShowThen(lines[0], later, x, y', Layout(lines[1..], x, y' - LINE_HEIGHT));
      OperatorsCons(lines, first);
      if !first {
        ReadNextLineThen([ShowText(lines[0])] + later, x, y);
      }
    }
  }

  /** A page's content stream reads back as its lines, laid out from the top-left text position. */
  lemma {:induction false} ReadContentStream(lines: seq<string>)
    ensures ReadContent(ContentStream(lines)) == Some(Layout(lines, LEFT, TOP))
  {
    var ops := Operators(lines, true);
    var body := Join(NEWLINE, ops);
    var moved := [MOVE_TO_TOP] + ops;
    JoinCons(MOVE_TO_TOP, ops);
    JoinCons(FONT_SELECT, moved);
    JoinCons(Ascii("BT"), [FONT_SELECT] + moved);
    assert ContentLines(lines) == [Ascii("BT")] + ([FONT_SELECT] + moved);
    var afterStart := MOVE_TO_TOP + NEWLINE + body;
    assert Ascii("BT") + NEWLINE + (FONT_SELECT + NEWLINE) == CONTENT_START;
    assert ContentStream(lines) == CONTENT_START + afterStart;
    ExpectLiteral(CONTENT_START, afterStart);
    ReadMoveToTop(body);
    ReadShowLines(lines, true, LEFT, TOP);
  }
}
