/** Python's `str.encode()`: UTF-8 over Unicode scalar values, with its decoder. */
module Utf8 {
  import opened Wrappers
  import opened Bytes

  /** The UTF-8 form of one scalar value, one to four bytes. */
  function EncodeChar(c: char): (r: bytes)
    ensures 1 <= |r| <= 4
  {
    var n := c as int;
    if n < 0x80 then [n as byte]
    else if n < 0x800 then [(0xC0 + n / 0x40) as byte, (0x80 + n % 0x40) as byte]
    else if n < 0x10000 then
      [(0xE0 + n / 0x1000) as byte, (0x80 + n / 0x40 % 0x40) as byte, (0x80 + n % 0x40) as byte]
    else
      [(0xF0 + n / 0x40000) as byte, (0x80 + n / 0x1000 % 0x40) as byte,
       (0x80 + n / 0x40 % 0x40) as byte, (0x80 + n % 0x40) as byte]
  }

  function Encode(s: string): bytes {
    if s == "" then [] else EncodeChar(s[0]) + Encode(s[1..])
  }

  predicate IsScalar(n: int) {
    0 <= n < 0xD800 || 0xE000 <= n < 0x11_0000
  }

  predicate IsContinuation(b: byte) {
    0x80 <= b < 0xC0
  }

  /** Number of bytes announced by a lead byte, 0 when it is none. */
  function SequenceLength(lead: byte): (k: nat)
    ensures k <= 4
  {
    if lead < 0x80 then 1
    else if 0xC0 <= lead < 0xE0 then 2
    else if 0xE0 <= lead < 0xF0 then 3
    else if 0xF0 <= lead < 0xF8 then 4
    else 0
  }

  /** The six payload bits of a continuation byte. */
  function Bits(b: byte): int {
    b as int - 0x80
  }

  /** The code point carried by the first `k` bytes. */
  function CodePoint(b: bytes, k: nat): int
    requires 1 <= k <= 4 && k <= |b|
  {
    if k == 1 then b[0] as int
    else if k == 2 then (b[0] as int - 0xC0) * 0x40 + Bits(b[1])
    else if k == 3 then (b[0] as int - 0xE0) * 0x1000 + Bits(b[1]) * 0x40 + Bits(b[2])
    else (b[0] as int - 0xF0) * 0x40000 + Bits(b[1]) * 0x1000 + Bits(b[2]) * 0x40 + Bits(b[3])
  }

  function DecodeChar(b: bytes): (r: Option<(char, nat)>)
    requires b != []
    ensures r.Some? ==> 1 <= r.value.1 <= |b|
  {
    var k := SequenceLength(b[0]);
    if k == 0 || k > |b| || exists i :: 1 <= i < k && !IsContinuation(b[i]) then None
    else
      var n := CodePoint(b, k);
      if IsScalar(n) then Some((n as char, k)) else None
  }

  function Decode(b: bytes): Option<string> {
    if b == [] then Some("")
    else
      var (c, k) :- DecodeChar(b);
      var rest :- Decode(b[k..]);
      Some([c] + rest)
  }

  lemma {:induction false} SplitSixBits(n: nat)
    ensures n == n / 0x40 * 0x40 + n % 0x40
    ensures n / 0x1000 == n / 0x40 / 0x40
    ensures n / 0x40000 == n / 0x1000 / 0x40
  {
  }

  lemma {:induction false} DecodeCharOfEncodeChar(c: char, rest: bytes)
    ensures DecodeChar(EncodeChar(c) + rest) == Some((c, |EncodeChar(c)|))
  {
    var n := c as int;
    SplitSixBits(n);
    SplitSixBits(n / 0x40);
    SplitSixBits(n / 0x1000);
    var e := EncodeChar(c);
    var b := e + rest;
    assert SequenceLength(b[0]) == |e|;
    assert CodePoint(b, |e|) == n;
  }

  /** Decoding undoes encoding. */
  lemma {:induction false} DecodeOfEncode(s: string)
    ensures Decode(Encode(s)) == Some(s)
  {
    if s != "" {
      DecodeCharOfEncodeChar(s[0], Encode(s[1..]));
      DecodeOfEncode(s[1..]);
      assert Encode(s)[|EncodeChar(s[0])|..] == Encode(s[1..]);
      assert s == [s[0]] + s[1..];
    }
  }

  lemma {:induction false} EncodeConcat(s: string, t: string)
    ensures Encode(s + t) == Encode(s) + Encode(t)
  {
    if s == "" {
      assert s + t == t;
    } else {
      assert (s + t)[1..] == s[1..] + t;
      EncodeConcat(s[1..], t);
    }
  }

  predicate IsAscii(s: string) {
    forall i :: 0 <= i < |s| ==> s[i] as int < 0x80
  }

  /** On ASCII text the encoding is the literal's own bytes. */
  lemma {:induction false} EncodeAscii(s: string)
    requires IsAscii(s)
    ensures Encode(s) == Ascii(s)
  {
    if s != "" {
      EncodeAscii(s[1..]);
      assert Ascii(s) == [Ascii(s)[0]] + Ascii(s[1..]);
    }
  }

  /** Bytes of a non-ASCII scalar are all 0x80 or above, so they are never PDF delimiters. */
  lemma {:induction false} EncodeCharHighBytes(c: char)
    ensures c as int < 0x80 ==> EncodeChar(c) == [c as int as byte]
    ensures c as int >= 0x80 ==> forall i :: 0 <= i < |EncodeChar(c)| ==> EncodeChar(c)[i] >= 0x80
  {
  }
}
