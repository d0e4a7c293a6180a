/** Calibration of a repayment probability to the 0-100 and 300-900 scales. */
module Calibration {
  import opened Rounding
  import opened Logarithm

  /** Odds of the probability kept within [0.001, 0.999]. */
  function Odds(prob: real): real {
    var p := ClampReal(0.001, 0.999, prob);
    p / (1.0 - p)
  }

  /** Points per unit of log-odds: 20 points double the odds. */
  function Factor(ln: real -> real): real
    requires ln(2.0) != 0.0
  {
    20.0 / ln(2.0)
  }

  /** The score of even odds, odds of 50 scoring 600. */
  function Offset(ln: real -> real): real
    requires ln(2.0) != 0.0
  {
    600.0 - Factor(ln) * ln(50.0)
  }

  /** The score before truncation and clamping. */
  function RawScore(ln: real -> real, prob: real): real
    requires ln(2.0) != 0.0
  {
    Offset(ln) + Factor(ln) * ln(Odds(prob))
  }

  /** `calibrate_score`, the same formula in both scorecards. */
  function CalibrateScore(ln: real -> real, prob: real): (real, int)
    requires ln(2.0) != 0.0
  {
    (RoundTo(prob * 100.0, 10.0), ClampInt(300, 900, Trunc(RawScore(ln, prob))))
  }

  lemma {:induction false} OddsPositive(prob: real)
    ensures Odds(prob) > 0.0
  {
    var p := ClampReal(0.001, 0.999, prob);
    var o := p / (1.0 - p);
    assert o * (1.0 - p) == p;
    if o <= 0.0 {
      MulMonotone(o, 0.0, 1.0 - p);
    }
  }

  /** They are the odds of the probability itself, held at 1 to 999 and 999 to 1. */
  lemma {:induction false} OddsMeaning(prob: real)
    ensures 0.001 <= prob <= 0.999 ==> Odds(prob) * (1.0 - prob) == prob
    ensures prob < 0.001 ==> Odds(prob) * 999.0 == 1.0
    ensures prob > 0.999 ==> Odds(prob) == 999.0
  {
  }

  lemma {:induction false} Ln2(ln: real -> real)
    requires IsLn(ln)
    ensures ln(2.0) > 0.0
  {
    LnPositive(ln, 2.0);
  }

  /** The raw score is 600 plus 20 points per doubling of the odds over 50. */
  lemma {:induction false} RawScoreReaches(ln: real -> real, prob: real, n: int)
    requires IsLn(ln) && ln(2.0) > 0.0
    ensures RawScore(ln, prob) >= n as real
       <==> 20.0 * ln(Odds(prob) / 50.0) >= (n - 600) as real * ln(2.0)
  {
    var f, l2, o := Factor(ln), ln(2.0), Odds(prob);
    var over, m := ln(o / 50.0), (n - 600) as real;
    OddsPositive(prob);
    LnQuotient(ln, o, 50.0);
    Distribute(f, ln(o), ln(50.0));
    assert RawScore(ln, prob) == 600.0 + f * over;
    assert f * l2 == 20.0;
    MulMonotone(m, f * over, l2);
    assert f * over * l2 == 20.0 * over;
  }

  lemma {:induction false} Distribute(f: real, a: real, b: real)
    ensures f * (a - b) == f * a - f * b
  {
  }

  /** The score without logarithms: it reaches `n` exactly when the 20th power of the odds over 50 reaches
      the matching power of two. */
  lemma {:induction false} ScoreReaches(ln: real -> real, prob: real, n: int)
    requires IsLn(ln) && ln(2.0) != 0.0 && 301 <= n <= 900
    ensures CalibrateScore(ln, prob).1 >= n <==> Pow(Odds(prob) / 50.0, 20) >= TwoTo(n - 600)
  {
    hide Pow, TwoTo, Odds;
    Ln2(ln);
    OddsPositive(prob);
    TruncReaches(RawScore(ln, prob), n);
    RawScoreReaches(ln, prob, n);
    LnOfPow(ln, Odds(prob) / 50.0, 20);
    LnOfTwoTo(ln, n - 600);
    LnOrder(ln, TwoTo(n - 600), Pow(Odds(prob) / 50.0, 20));
  }

  lemma {:induction false} ScoreInRange(ln: real -> real, prob: real)
    requires ln(2.0) != 0.0
    ensures 300 <= CalibrateScore(ln, prob).1 <= 900
  {
  }

  /** The score out of 100 is the probability in percent to one decimal: a whole number of tenths, off by at most half
      a tenth. */
  lemma {:induction false} PercentNear(ln: real -> real, prob: real)
    requires ln(2.0) != 0.0
    ensures var s := CalibrateScore(ln, prob).0;
      && -0.05 <= s - 100.0 * prob <= 0.05
      && exists tenths: int :: s == TenthsOf(tenths)
  {
    RoundNear(prob * 100.0 * 10.0);
    assert CalibrateScore(ln, prob).0 == TenthsOf(Round(prob * 100.0 * 10.0));
  }

  function TenthsOf(n: int): real {
    n as real / 10.0
  }

  // ---------- consequences ----------

  lemma {:induction false} OddsMonotone(p: real, q: real)
    requires p <= q
    ensures 0.0 < Odds(p) <= Odds(q)
  {
    var a, b := ClampReal(0.001, 0.999, p), ClampReal(0.001, 0.999, q);
    OddsPositive(p);
    RatioMonotone(a, 1.0 - a, b, 1.0 - b, Odds(p), Odds(q));
  }

  lemma {:induction false} RatioMonotone(a: real, x: real, b: real, y: real, s: real, t: real)
    requires a <= b && x >= y > 0.0 && s > 0.0
    requires s * x == a && t * y == b
    ensures s <= t
  {
    MulMonotone(y, x, s);
    assert s * y <= t * y;
    MulMonotone(s, t, y);
  }

  lemma {:induction false} PowMonotone(x: real, y: real, k: nat)
    requires 0.0 < x <= y
    ensures 0.0 < Pow(x, k) <= Pow(y, k)
  {
    if k > 0 {
      PowMonotone(x, y, k - 1);
      MulMonotone(x, y, Pow(y, k - 1));
      MulMonotone(Pow(x, k - 1), Pow(y, k - 1), x);
    }
  }

  /** A higher probability never scores lower, on either scale. */
  lemma {:induction false} CalibrationMonotone(ln: real -> real, p: real, q: real)
    requires IsLn(ln) && ln(2.0) != 0.0 && p <= q
    ensures CalibrateScore(ln, p).0 <= CalibrateScore(ln, q).0
    ensures CalibrateScore(ln, p).1 <= CalibrateScore(ln, q).1
  {
    RoundToMonotone(p * 100.0, q * 100.0, 10.0);
    var n := CalibrateScore(ln, p).1;
    ScoreInRange(ln, p);
    if n > 300 {
      ScoreReaches(ln, p, n);
      ScoreReaches(ln, q, n);
      hide Pow, TwoTo, Odds, CalibrateScore;
      OddsMonotone(p, q);
      DivMonotone(Odds(p), Odds(q), 50.0);
      PowMonotone(Odds(p) / 50.0, Odds(q) / 50.0, 20);
    }
  }

  lemma {:induction false} PowOfProduct(x: real, y: real, k: nat)
    ensures Pow(x * y, k) == Pow(x, k) * Pow(y, k)
  {
    if k > 0 {
      PowOfProduct(x, y, k - 1);
      var a, b := Pow(x, k - 1), Pow(y, k - 1);
      Regroup(x, y, a, b);
    }
  }

  lemma {:induction false} Regroup(x: real, y: real, a: real, b: real)
    ensures x * y * (a * b) == x * a * (y * b)
  {
  }

  lemma {:induction false} PowSum(x: real, j: nat, k: nat)
    ensures Pow(x, j + k) == Pow(x, j) * Pow(x, k)
  {
    if j > 0 {
      PowSum(x, j - 1, k);
    }
  }

  lemma {:induction false} TwoToSum(k: int, j: nat)
    ensures TwoTo(k + j) == TwoTo(k) * Pow(2.0, j)
    decreases j
  {
    if j > 0 {
      TwoToSum(k, j - 1);
      assert TwoTo(k + j) == 2.0 * TwoTo(k + j - 1);
    }
  }

  lemma {:induction false} PowStrictlyMonotone(x: real, y: real, k: nat)
    requires 0.0 < x < y && k > 0
    ensures Pow(x, k) < Pow(y, k)
  {
    if k == 1 {
      assert Pow(x, 0) == Pow(y, 0) == 1.0;
    } else {
      PowStrictlyMonotone(x, y, k - 1);
      PowPositive(y, k - 1);
      MulMonotone(x, y, Pow(y, k - 1));
      MulMonotone(Pow(x, k - 1), Pow(y, k - 1), x);
    }
  }

  lemma {:induction false} TwoToIsPow(k: nat)
    ensures TwoTo(k) == Pow(2.0, k)
  {
    TwoToSum(0, k);
  }

  lemma {:induction false} PowFour(x: real)
    ensures Pow(x, 4) == x * x * (x * x)
  {
    assert Pow(x, 1) == x && Pow(x, 2) == x * Pow(x, 1);
    PowSum(x, 2, 2);
  }

  /** The 20th power as the fifth power of the fourth. */
  lemma {:induction false} PowTwenty(x: real)
    ensures var f := Pow(x, 4); Pow(x, 20) == f * f * (f * f) * f
  {
    hide Pow;
    PowSum(x, 4, 4);
    PowSum(x, 8, 8);
    PowSum(x, 16, 4);
  }

  lemma {:induction false} FifthPowerMonotone(f: real, g: real)
    requires 0.0 < f <= g
    ensures f * f * (f * f) * f <= g * g * (g * g) * g
  {
    var f2, g2 := f * f, g * g;
    SquareMonotone(f, g, f2, g2);
    var f4, g4 := f2 * f2, g2 * g2;
    SquareMonotone(f2, g2, f4, g4);
    MulMonotone(f, g, f4);
    MulMonotone(f4, g4, g);
  }

  lemma {:induction false} SquarePositive(a: real, b: real, c: real)
    requires a > 0.0 && b > 0.0 && c == a * b
    ensures c > 0.0
  {
  }

  lemma {:induction false} SquareMonotone(f: real, g: real, f2: real, g2: real)
    requires 0.0 < f <= g && f2 == f * f && g2 == g * g
    ensures 0.0 < f2 <= g2
  {
    SquarePositive(f, f, f2);
    var m := f * g;
    assert f2 <= m by {
      MulMonotone(f, g, f);
    }
    assert m <= g2 by {
      MulMonotone(f, g, g);
    }
  }

  lemma {:induction false} TwoTo87()
    ensures Pow(2.0, 87) == 154_742_504_910_672_534_362_390_528.0
  {
    hide Pow;
    PowOfTwo7And10();
    PowSum(2.0, 10, 10);
    PowSum(2.0, 20, 20);
    PowSum(2.0, 40, 40);
    PowSum(2.0, 80, 7);
  }

  lemma {:induction false} PowOfTwo7And10()
    ensures Pow(2.0, 7) == 128.0 && Pow(2.0, 10) == 1024.0
  {
  }

  /** The largest odds, 999, fall short of 87 doublings' worth of points over 600. */
  lemma {:induction false} LargestOdds()
    ensures Pow(999.0 / 50.0, 20) < TwoTo(87)
  {
    hide Pow, TwoTo;
    var f := Pow(19.98, 4);
    PowFour(19.98);
    PowTwenty(19.98);
    FifthPowerMonotone(f, 159_361.0);
    TwoToIsPow(87);
    TwoTo87();
  }

  lemma {:induction false} OddsOf99()
    ensures Odds(0.99) == 99.0 && Pow(99.0 / 50.0, 20) < TwoTo(20)
  {
    hide Pow, TwoTo;
    PowStrictlyMonotone(99.0 / 50.0, 2.0, 20);
    TwoToIsPow(20);
  }

  /** No probability scores above 686, and none up to 0.99 above 619: the clamp at 900 is never reached. */
  lemma {:induction false} ScoreCeilings(ln: real -> real, prob: real)
    requires IsLn(ln) && ln(2.0) != 0.0
    ensures CalibrateScore(ln, prob).1 <= 686
    ensures prob <= 0.99 ==> CalibrateScore(ln, prob).1 <= 619
  {
    hide Pow, TwoTo, CalibrateScore;
    ScoreReaches(ln, 1.0, 687);
    assert Odds(1.0) == 999.0;
    LargestOdds();
    ScoreReaches(ln, 0.99, 620);
    OddsOf99();
    if prob <= 0.99 {
      CalibrationMonotone(ln, prob, 0.99);
    } else if prob <= 1.0 {
      CalibrationMonotone(ln, prob, 1.0);
    } else {
      ScoreOfOdds(ln, prob, 1.0);
    }
  }

  lemma {:induction false} ScoreOfOdds(ln: real -> real, p: real, q: real)
    requires ln(2.0) != 0.0 && Odds(p) == Odds(q)
    ensures CalibrateScore(ln, p).1 == CalibrateScore(ln, q).1
  {
    hide Odds, RoundTo, Trunc, ClampInt, Offset, Factor;
  }

  /** Doubling what is raised to the 20th power is worth twenty doublings. */
  lemma {:induction false} DoubledPower(x: real, k: int)
    ensures Pow(2.0 * x, 20) >= TwoTo(k + 20) <==> Pow(x, 20) >= TwoTo(k)
  {
    hide Pow, TwoTo;
    PowOfProduct(2.0, x, 20);
    TwoToSum(k, 20);
    PowPositive(2.0, 20);
    MulMonotone(TwoTo(k), Pow(x, 20), Pow(2.0, 20));
  }

  /** Doubled odds reach `n + 20` exactly when the odds' 20th power reaches what `n` asks for. */
  lemma {:induction false} DoubledReaches(ln: real -> real, p: real, q: real, n: int)
    requires IsLn(ln) && ln(2.0) != 0.0
    requires Odds(q) == 2.0 * Odds(p)
    requires 281 <= n <= 880
    ensures CalibrateScore(ln, q).1 >= n + 20 <==> Pow(Odds(p) / 50.0, 20) >= TwoTo(n - 600)
  {
    hide Pow, TwoTo, CalibrateScore, Odds;
    ScoreReaches(ln, q, n + 20);
    DoubledPower(Odds(p) / 50.0, n - 600);
  }

  /** Doubling the odds adds exactly 20 points if and only if the 20th power of the odds over 50 is at least 2^-300,
      that is, unless the score before truncation already lies under the floor of 300. */
  lemma {:induction false} DoublingOddsAddsTwenty(ln: real -> real, p: real, q: real)
    requires IsLn(ln) && ln(2.0) != 0.0
    requires Odds(q) == 2.0 * Odds(p)
    ensures CalibrateScore(ln, q).1 == CalibrateScore(ln, p).1 + 20
       <==> Pow(Odds(p) / 50.0, 20) >= TwoTo(-300)
  {
    ScoreInRange(ln, p);
    hide CalibrateScore, Odds, Pow;
    var n := CalibrateScore(ln, p).1;
    ScoreCeilings(ln, p);
    DoubledReaches(ln, p, q, n);
    DoubledReaches(ln, p, q, n + 1);
    ScoreReaches(ln, p, n + 1);
    if n > 300 {
      ScoreReaches(ln, p, n);
      TwoToMonotone(-300, n - 600);
    }
  }

  lemma {:induction false} TwoToMonotone(j: int, k: int)
    requires j <= k
    ensures TwoTo(j) <= TwoTo(k)
    decreases k - j
  {
    if j < k {
      TwoToMonotone(j, k - 1);
      assert TwoTo(k) == 2.0 * TwoTo(k - 1) by {
        TwoToSum(k - 1, 1);
        assert Pow(2.0, 1) == 2.0 * Pow(2.0, 0);
      }
    }
  }

  lemma {:induction false} PowOfPow(x: real, j: nat, k: nat)
    ensures Pow(Pow(x, j), k) == Pow(x, j * k)
  {
    if k > 0 {
      PowOfPow(x, j, k - 1);
      PowSum(x, j, j * (k - 1));
      assert j + j * (k - 1) == j * k;
    } else {
      assert j * k == 0;
    }
  }

  /** At the lowest odds, 1 to 999, doubling adds less: the score sits on the floor. */
  lemma {:induction false} DoublingCanAddLess(ln: real -> real)
    requires IsLn(ln) && ln(2.0) != 0.0
    ensures Odds(2.0 / 1001.0) == 2.0 * Odds(0.001)
    ensures CalibrateScore(ln, 2.0 / 1001.0).1 != CalibrateScore(ln, 0.001).1 + 20
  {
    OddsAtFloor();
    hide Pow, TwoTo, CalibrateScore, Odds;
    DoublingOddsAddsTwenty(ln, 0.001, 2.0 / 1001.0);
    FloorOdds();
  }

  lemma {:induction false} OddsAtFloor()
    ensures Odds(0.001) == 1.0 / 999.0 && Odds(2.0 / 1001.0) == 2.0 / 999.0
  {
  }

  lemma {:induction false} FloorOdds()
    ensures Pow(1.0 / 999.0 / 50.0, 20) < TwoTo(-300)
  {
    assert TwoTo(0) == 1.0;
    hide Pow, TwoTo;
    var x := 1.0 / 999.0 / 50.0;
    PowFifteen();
    PowOfPow(2.0, 15, 20);
    TwoToSum(-300, 300);
    PowPositive(2.0, 300);
    PowOfProduct(x, 32_768.0, 20);
    PowStrictlyMonotone(x * 32_768.0, 1.0, 20);
    PowOfOne(20);
    MulMonotone(Pow(x, 20), TwoTo(-300), Pow(2.0, 300));
  }

  lemma {:induction false} PowFifteen()
    ensures Pow(2.0, 15) == 32_768.0
  {
    PowOfTwo7And10();
    assert Pow(2.0, 1) == 2.0;
    hide Pow;
    PowSum(2.0, 7, 7);
    PowSum(2.0, 14, 1);
  }

  lemma {:induction false} PowOfOne(k: nat)
    ensures Pow(1.0, k) == 1.0
  {
    if k > 0 {
      PowOfOne(k - 1);
    }
  }
}
