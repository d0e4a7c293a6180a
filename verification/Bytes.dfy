/** Byte strings, decimal numerals, and the primitive readers the PDF model is built from. */
module Bytes {
  import opened Wrappers

  newtype byte = b: int | 0 <= b < 256
  type bytes = seq<byte>

  /** The byte string of an ASCII literal. */
  function Ascii(s: string): (r: bytes)
    ensures |r| == |s|
  {
    seq(|s|, i requires 0 <= i < |s| => (s[i] as int % 256) as byte)
  }

  // ---------- decimal numerals ----------

  predicate IsDigit(b: byte) {
    48 <= b <= 57
  }

  predicate AllDigits(ds: bytes) {
    forall i :: 0 <= i < |ds| ==> IsDigit(ds[i])
  }

  /** Python's `str(n)` for a non-negative integer. */
  function Dec(n: nat): (ds: bytes)
    ensures |ds| > 0 && AllDigits(ds)
  {
    if n < 10 then [48 + n as byte] else Dec(n / 10) + [48 + (n % 10) as byte]
  }

  /** The number a digit string denotes. */
  function Value(ds: bytes): nat
    requires AllDigits(ds)
  {
    if ds == [] then 0 else Value(ds[..|ds| - 1]) * 10 + (ds[|ds| - 1] as int - 48)
  }

  function Zeros(n: nat): (ds: bytes)
    ensures |ds| == n && AllDigits(ds)
  {
    seq(n, _ => 48 as byte)
  }

  /** Python's `f"{n:010d}"`. */
  function Pad10(n: nat): (ds: bytes)
    ensures |ds| >= 10 && AllDigits(ds)
  {
    Zeros(if |Dec(n)| < 10 then 10 - |Dec(n)| else 0) + Dec(n)
  }

  function Pow10(k: nat): (p: nat)
    ensures p > 0
  {
    if k == 0 then 1 else 10 * Pow10(k - 1)
  }

  lemma {:induction false} ValueOfDec(n: nat)
    ensures Value(Dec(n)) == n
  {
    if n >= 10 {
      ValueOfDec(n / 10);
      assert Dec(n)[..|Dec(n)| - 1] == Dec(n / 10);
    }
  }

  /** A numeral of `n` has at most `k` digits exactly when `n < 10^k`. */
  lemma {:induction false} DecLength(n: nat, k: nat)
    requires k > 0
    ensures |Dec(n)| <= k <==> n < Pow10(k)
    decreases n
  {
    if n < 10 {
      assert Pow10(k) == 10 * Pow10(k - 1);
    } else if k == 1 {
      assert Pow10(1) == 10 * Pow10(0);
    } else {
      DecLength(n / 10, k - 1);
      assert Pow10(k) == 10 * Pow10(k - 1);
    }
  }

  lemma {:induction false} ValueOfZeros(n: nat, ds: bytes)
    requires AllDigits(ds)
    ensures Value(Zeros(n) + ds) == Value(ds)
    decreases |ds|, n
  {
    var all := Zeros(n) + ds;
    if ds == [] {
      if n > 0 {
        assert all[..|all| - 1] == Zeros(n - 1) + [];
        ValueOfZeros(n - 1, []);
      }
    } else {
      assert all[..|all| - 1] == Zeros(n) + ds[..|ds| - 1];
      ValueOfZeros(n, ds[..|ds| - 1]);
    }
  }

  /** The first number that ten digits cannot hold. */
  const TEN_DIGITS: nat := 10_000_000_000

  lemma {:induction false} Pow10Of10()
    ensures Pow10(10) == TEN_DIGITS
  {
    assert Pow10(5) == 100_000;
  }

  /** The padded form denotes the same number, and is ten bytes wide exactly below 10^10. */
  lemma {:induction false} Pad10Meaning(n: nat)
    ensures Value(Pad10(n)) == n
    ensures |Pad10(n)| == 10 <==> n < TEN_DIGITS
  {
    ValueOfDec(n);
    ValueOfZeros(if |Dec(n)| < 10 then 10 - |Dec(n)| else 0, Dec(n));
    DecLength(n, 10);
    Pow10Of10();
  }

  // ---------- readers ----------

  /** Consumes a fixed literal. */
  function Expect(lit: bytes, s: bytes): (r: Option<bytes>)
    ensures r.Some? <==> lit <= s
    ensures r.Some? ==> s == lit + r.value
  {
    if lit <= s then Some(s[|lit|..]) else None
  }

  /** Length of the longest digit prefix. */
  function LeadingDigits(s: bytes): (k: nat)
    ensures k <= |s| && AllDigits(s[..k])
    ensures k < |s| ==> !IsDigit(s[k])
  {
    if s == [] || !IsDigit(s[0]) then 0
    else
      var k := LeadingDigits(s[1..]);
      assert s[..1 + k] == [s[0]] + s[1..][..k];
      1 + k
  }

  /** Length of the longest digit suffix. */
  function TrailingDigits(s: bytes): (k: nat)
    ensures k <= |s| && AllDigits(s[|s| - k..])
    ensures k < |s| ==> !IsDigit(s[|s| - k - 1])
  {
    if s == [] || !IsDigit(s[|s| - 1]) then 0
    else
      var t := s[..|s| - 1];
      var k := TrailingDigits(t);
      assert s[|s| - (1 + k)..] == t[|t| - k..] + [s[|s| - 1]];
      1 + k
  }

  /** Consumes a decimal numeral. */
  function ReadNat(s: bytes): (r: Option<(nat, bytes)>)
    ensures r.Some? ==> |r.value.1| < |s|
  {
    var k := LeadingDigits(s);
    if k == 0 then None else Some((Value(s[..k]), s[k..]))
  }

  /** Consumes a decimal numeral with an optional minus sign. */
  function ReadInt(s: bytes): (r: Option<(int, bytes)>)
    ensures r.Some? ==> |r.value.1| < |s|
  {
    if s != [] && s[0] == 45 then
      var (n, rest) :- ReadNat(s[1..]);
      Some((-(n as int), rest))
    else
      var (n, rest) :- ReadNat(s);
      Some((n as int, rest))
  }

  predicate EndsWith(s: bytes, lit: bytes) {
    |lit| <= |s| && s[|s| - |lit|..] == lit
  }

  lemma {:induction false} ExpectLiteral(lit: bytes, rest: bytes)
    ensures Expect(lit, lit + rest) == Some(rest)
  {
    assert (lit + rest)[|lit|..] == rest;
  }

  lemma {:induction false} LeadingDigitsOf(ds: bytes, rest: bytes)
    requires AllDigits(ds)
    requires rest == [] || !IsDigit(rest[0])
    ensures LeadingDigits(ds + rest) == |ds|
  {
    if ds == [] {
      assert ds + rest == rest;
    } else {
      assert (ds + rest)[1..] == ds[1..] + rest;
      LeadingDigitsOf(ds[1..], rest);
    }
  }

  lemma {:induction false} TrailingDigitsOf(pre: bytes, ds: bytes)
    requires AllDigits(ds)
    requires pre != [] && !IsDigit(pre[|pre| - 1])
    ensures TrailingDigits(pre + ds) == |ds|
  {
    var s := pre + ds;
    if ds != [] {
      assert s[..|s| - 1] == pre + ds[..|ds| - 1];
      TrailingDigitsOf(pre, ds[..|ds| - 1]);
    }
  }

  /** A reader of numerals undoes `Dec` whenever the next byte is not a digit. */
  lemma {:induction false} ReadNatOfDec(n: nat, rest: bytes)
    requires rest == [] || !IsDigit(rest[0])
    ensures ReadNat(Dec(n) + rest) == Some((n, rest))
  {
    var s := Dec(n) + rest;
    LeadingDigitsOf(Dec(n), rest);
    assert s[..|Dec(n)|] == Dec(n) && s[|Dec(n)|..] == rest;
    ValueOfDec(n);
  }

  lemma {:induction false} ReadIntOfDec(n: nat, rest: bytes)
    requires rest == [] || !IsDigit(rest[0])
    ensures ReadInt(Dec(n) + rest) == Some((n as int, rest))
  {
    ReadNatOfDec(n, rest);
    assert IsDigit(Dec(n)[0]) && (Dec(n) + rest)[0] == Dec(n)[0];
  }

  lemma {:induction false} ReadIntOfMinusDec(n: nat, rest: bytes)
    requires rest == [] || !IsDigit(rest[0])
    ensures ReadInt([45 as byte] + (Dec(n) + rest)) == Some((-(n as int), rest))
  {
    ReadNatOfDec(n, rest);
    assert ([45 as byte] + (Dec(n) + rest))[1..] == Dec(n) + rest;
  }
}
