/** The natural logarithm as a parameter: any function with its three characteristic laws. */
module Logarithm {

  ghost predicate ProductLaw(ln: real -> real, x: real, y: real) {
    ln(x * y) == ln(x) + ln(y)
  }

  ghost predicate Increases(ln: real -> real, x: real, y: real) {
    x < y ==> ln(x) < ln(y)
  }

  /** Strictly increasing on the positive reals, zero at one, turning products into sums. */
  ghost predicate IsLn(ln: real -> real) {
    && ln(1.0) == 0.0
    && (forall x, y :: x > 0.0 && y > 0.0 ==> ProductLaw(ln, x, y))
    && (forall x, y :: x > 0.0 && y > 0.0 ==> Increases(ln, x, y))
  }

  lemma {:induction false} LnOrder(ln: real -> real, x: real, y: real)
    requires IsLn(ln) && x > 0.0 && y > 0.0
    ensures ln(x) < ln(y) <==> x < y
    ensures ln(x) <= ln(y) <==> x <= y
  {
    assert Increases(ln, x, y) && Increases(ln, y, x);
  }

  lemma {:induction false} LnProduct(ln: real -> real, x: real, y: real)
    requires IsLn(ln) && x > 0.0 && y > 0.0
    ensures ln(x * y) == ln(x) + ln(y)
  {
    assert ProductLaw(ln, x, y);
  }

  lemma {:induction false} LnProductIs(ln: real -> real, x: real, y: real, z: real)
    requires IsLn(ln) && x > 0.0 && y > 0.0 && z == x * y
    ensures ln(z) == ln(x) + ln(y)
  {
    LnProduct(ln, x, y);
  }

  lemma {:induction false} LnQuotient(ln: real -> real, x: real, y: real)
    requires IsLn(ln) && x > 0.0 && y > 0.0
    ensures x / y > 0.0 && ln(x / y) == ln(x) - ln(y)
  {
    LnProductIs(ln, x / y, y, x);
  }

  lemma {:induction false} LnPositive(ln: real -> real, x: real)
    requires IsLn(ln) && x > 0.0
    ensures ln(x) > 0.0 <==> x > 1.0
    ensures ln(x) == 0.0 <==> x == 1.0
  {
    LnOrder(ln, x, 1.0);
    LnOrder(ln, 1.0, x);
  }

  // ---------- integer powers ----------

  function Pow(x: real, k: nat): real {
    if k == 0 then 1.0 else x * Pow(x, k - 1)
  }

  /** Powers of two with any integer exponent. */
  function TwoTo(k: int): (p: real)
    ensures p > 0.0
    decreases if k < 0 then -k else k
  {
    if k == 0 then 1.0 else if k > 0 then 2.0 * TwoTo(k - 1) else TwoTo(k + 1) / 2.0
  }

  lemma {:induction false} PowPositive(x: real, k: nat)
    requires x > 0.0
    ensures Pow(x, k) > 0.0
  {
    if k > 0 {
      PowPositive(x, k - 1);
    }
  }

  lemma {:induction false} LnOfPow(ln: real -> real, x: real, k: nat)
    requires IsLn(ln) && x > 0.0
    ensures Pow(x, k) > 0.0 && ln(Pow(x, k)) == k as real * ln(x)
  {
    PowPositive(x, k);
    if k > 0 {
      LnOfPow(ln, x, k - 1);
      LnProductIs(ln, x, Pow(x, k - 1), Pow(x, k));
      assert k as real * ln(x) == (k - 1) as real * ln(x) + ln(x);
    }
  }

  lemma {:induction false} LnOfTwoTo(ln: real -> real, k: int)
    requires IsLn(ln)
    ensures ln(TwoTo(k)) == k as real * ln(2.0)
    decreases if k < 0 then -k else k
  {
    if k > 0 {
      LnOfTwoTo(ln, k - 1);
      LnProduct(ln, 2.0, TwoTo(k - 1));
    } else if k < 0 {
      LnOfTwoTo(ln, k + 1);
      LnQuotient(ln, TwoTo(k + 1), 2.0);
    }
  }

  /** A difference times the logarithm of the ratio is never negative, and zero only for equal arguments:
      the shape of every information-value and stability-index term. */
  lemma {:induction false} DivergenceTerm(ln: real -> real, p: real, q: real)
    requires IsLn(ln) && p > 0.0 && q > 0.0
    ensures (p - q) * ln(p / q) >= 0.0
    ensures (p - q) * ln(p / q) == 0.0 <==> p == q
  {
    LnQuotient(ln, p, q);
    LnOrder(ln, p, q);
    LnOrder(ln, q, p);
    var d, e := p - q, ln(p / q);
    if d > 0.0 {
      assert e > 0.0;
      assert d * e > 0.0;
    } else if d < 0.0 {
      assert e < 0.0;
      assert (-d) * (-e) > 0.0;
    }
  }
}
