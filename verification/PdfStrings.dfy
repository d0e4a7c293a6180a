/** Literal strings: the escaping of the writer against the reading rules of ISO 32000-1, 7.3.4.2. */
module PdfStrings {
  import opened Wrappers
  import opened Bytes
  import opened PdfWriter
  import opened PdfReader
  import Utf8

  // ---------- the three chained replacements are one pass ----------

  function EscapeChar(c: char): string {
    if c == '\\' || c == '(' || c == ')' then ['\\', c] else [c]
  }

  function OnePass(s: string): string {
    if s == "" then "" else EscapeChar(s[0]) + OnePass(s[1..])
  }

  lemma {:induction false} ReplaceConcat(s: string, t: string, c: char, sub: string)
    ensures Replace(s + t, c, sub) == Replace(s, c, sub) + Replace(t, c, sub)
  {
    if s == "" {
      assert s + t == t;
    } else {
      assert (s + t)[1..] == s[1..] + t;
      ReplaceConcat(s[1..], t, c, sub);
    }
  }

  lemma {:induction false} ReplaceUnit(a: char, c: char, sub: string)
    ensures Replace([a], c, sub) == if a == c then sub else [a]
  {
    assert [a][1..] == "";
  }

  lemma {:induction false} ReplacePair(a: char, b: char, c: char, sub: string)
    ensures Replace([a, b], c, sub) == (if a == c then sub else [a]) + (if b == c then sub else [b])
  {
    assert [a, b][1..] == [b];
    ReplaceUnit(b, c, sub);
  }

  lemma {:induction false} EscapeOneChar(c: char)
    ensures EscapePdfStr([c]) == EscapeChar(c)
  {
    ReplaceUnit(c, '\\', "\\\\");
    if c == '\\' {
      ReplacePair('\\', '\\', '(', "\\(");
      ReplacePair('\\', '\\', ')', "\\)");
    } else {
      ReplaceUnit(c, '(', "\\(");
      if c == '(' {
        ReplacePair('\\', '(', ')', "\\)");
      } else {
        ReplaceUnit(c, ')', "\\)");
      }
    }
  }

  /** Chained `replace` calls, each rescanning the output of the last, equal a single left-to-right pass. */
  lemma {:induction false} EscapeIsOnePass(s: string)
    ensures EscapePdfStr(s) == OnePass(s)
  {
    if s != "" {
      var c, t := [s[0]], s[1..];
      assert s == c + t;
      ReplaceConcat(c, t, '\\', "\\\\");
      var c1, t1 := Replace(c, '\\', "\\\\"), Replace(t, '\\', "\\\\");
      ReplaceConcat(c1, t1, '(', "\\(");
      ReplaceConcat(Replace(c1, '(', "\\("), Replace(t1, '(', "\\("), ')', "\\)");
      assert EscapePdfStr(s) == EscapePdfStr(c) + EscapePdfStr(t);
      EscapeOneChar(s[0]);
      EscapeIsOnePass(t);
    }
  }

  // ---------- end-of-line markers ----------

  /** The text with every CR, LF or CR LF marker turned into one LF. */
  function NormalizeEol(s: string): string {
    if s == "" then ""
    else if s[0] == '\r' then
      "\n" + NormalizeEol(if |s| > 1 && s[1] == '\n' then s[2..] else s[1..])
    else [s[0]] + NormalizeEol(s[1..])
  }

  /** Normalization changes a text exactly when it holds a CR. */
  lemma {:induction false} NormalizeEolIdentity(s: string)
    ensures NormalizeEol(s) == s <==> '\r' !in s
    ensures '\r' !in NormalizeEol(s)
  {
    if s != "" {
      assert s == [s[0]] + s[1..];
      if s[0] == '\r' {
        NormalizeEolIdentity(if |s| > 1 && s[1] == '\n' then s[2..] else s[1..]);
        assert NormalizeEol(s)[0] != s[0];
      } else {
        NormalizeEolIdentity(s[1..]);
        assert NormalizeEol(s)[1..] == NormalizeEol(s[1..]);
      }
    }
  }

  // ---------- reading back ----------

  lemma {:induction false} ReadHighBytes(high: bytes, s: bytes, text: bytes, rest: bytes)
    requires forall i :: 0 <= i < |high| ==> high[i] >= 0x80
    requires ReadLiteral(s) == Some((text, rest))
    ensures ReadLiteral(high + s) == Some((high + text, rest))
  {
    if high == [] {
      assert high + s == s && high + text == text;
    } else {
      ReadHighBytes(high[1..], s, text, rest);
      assert (high + s)[1..] == high[1..] + s;
      assert [high[0]] + (high[1..] + text) == high + text;
    }
  }

  lemma {:induction false} EncodeUnit(c: char)
    ensures Utf8.Encode([c]) == Utf8.EncodeChar(c)
  {
    assert [c][1..] == "";
    assert Utf8.Encode("") == [];
  }

  lemma {:induction false} EncodePair(c: char)
    requires c as int < 0x80
    ensures Utf8.Encode(['\\', c]) == [BACKSLASH, c as int as byte]
  {
    assert ['\\', c][1..] == [c];
    EncodeUnit(c);
  }

  /** One character of the text: its escaped form reads back as the character's own bytes. */
  lemma {:induction false} ReadOneChar(c: char, s: bytes, text: bytes, rest: bytes)
    requires c != '\r'
    requires ReadLiteral(s) == Some((text, rest))
    ensures ReadLiteral(Utf8.Encode(EscapeChar(c)) + s) == Some((Utf8.EncodeChar(c) + text, rest))
  {
    Utf8.EncodeCharHighBytes(c);
    if c as int >= 0x80 {
      EncodeUnit(c);
      ReadHighBytes(Utf8.EncodeChar(c), s, text, rest);
    } else if EscapeChar(c) == [c] {
      EncodeUnit(c);
      assert ([c as int as byte] + s)[1..] == s;
    } else {
      EncodePair(c);
      assert ([BACKSLASH, c as int as byte] + s)[2..] == s;
    }
  }

  /** The escaped text followed by the closing parenthesis. */
  function Quoted(s: string, rest: bytes): bytes {
    Utf8.Encode(OnePass(s)) + ([CLOSE] + rest)
  }

  lemma {:induction false} QuotedCons(s: string, rest: bytes)
    requires s != ""
    ensures Quoted(s, rest) == Utf8.Encode(EscapeChar(s[0])) + Quoted(s[1..], rest)
  {
    Utf8.EncodeConcat(EscapeChar(s[0]), OnePass(s[1..]));
  }

  lemma {:induction false} FirstQuotedByte(s: string, rest: bytes)
    ensures Quoted(s, rest) != []
    ensures Quoted(s, rest)[0] == LF <==> s != "" && s[0] == '\n'
  {
    if s == "" {
      assert Utf8.Encode("") == [];
    } else {
      QuotedCons(s, rest);
      Utf8.EncodeCharHighBytes(s[0]);
      EncodeUnit(s[0]);
      if EscapeChar(s[0]) != [s[0]] {
        EncodePair(s[0]);
      }
    }
  }

  /** Skips a CR and the LF that may follow it. */
  lemma {:induction false} ReadCarriageReturn(s: string, rest: bytes)
    requires s != "" && s[0] == '\r'
    ensures var after := if |s| > 1 && s[1] == '\n' then s[2..] else s[1..];
      ReadLiteral(Quoted(after, rest)).Some? ==>
        ReadLiteral(Quoted(s, rest))
        == Some(([LF] + ReadLiteral(Quoted(after, rest)).value.0, ReadLiteral(Quoted(after, rest)).value.1))
  {
    var q := Quoted(s, rest);
    QuotedCons(s, rest);
    EncodeUnit('\r');
    assert q[0] == CR && q[1..] == Quoted(s[1..], rest);
    FirstQuotedByte(s[1..], rest);
    assert q[1] == Quoted(s[1..], rest)[0];
    if |s| > 1 && s[1] == '\n' {
      QuotedCons(s[1..], rest);
      EncodeUnit('\n');
      assert s[1..][1..] == s[2..];
      assert q[2..] == q[1..][1..] == Quoted(s[2..], rest);
    }
  }

  /** Reading a literal string undoes the writer's escaping and encoding, up to end-of-line markers. */
  lemma {:induction false} ReadLiteralOfEscape(s: string, rest: bytes)
    ensures ReadLiteral(Quoted(s, rest)) == Some((Utf8.Encode(NormalizeEol(s)), rest))
    decreases |s|
  {
    if s == "" {
      assert Utf8.Encode("") == [];
      assert Quoted(s, rest) == [CLOSE] + rest;
    } else if s[0] == '\r' {
      var after := if |s| > 1 && s[1] == '\n' then s[2..] else s[1..];
      ReadLiteralOfEscape(after, rest);
      ReadCarriageReturn(s, rest);
      Utf8.EncodeConcat("\n", NormalizeEol(after));
      EncodeUnit('\n');
    } else {
      ReadLiteralOfEscape(s[1..], rest);
      QuotedCons(s, rest);
      ReadOneChar(s[0], Quoted(s[1..], rest), Utf8.Encode(NormalizeEol(s[1..])), rest);
      assert NormalizeEol(s)[1..] == NormalizeEol(s[1..]);
    }
  }
}
