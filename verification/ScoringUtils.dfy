/** The uniform form of a score: one number on each scale, one band, a confidence interval. */
module ScoringUtils {
  import opened Wrappers
  import opened Rounding

  datatype Band = Excellent | Good | Moderate | HighRisk | VeryHighRisk

  /** `ScoringService.get_score_band`, also the cascade inside `normalize_score`. */
  function ScoreBand(score100: real): Band {
    if score100 >= 81.0 then Excellent
    else if score100 >= 66.0 then Good
    else if score100 >= 51.0 then Moderate
    else if score100 >= 31.0 then HighRisk
    else VeryHighRisk
  }

  function Within100(x: real): real {
    ClampReal(0.0, 100.0, x)
  }

  function Within900(n: int): int {
    ClampInt(300, 900, n)
  }

  /** A raw number on both scales: at most 100 it is a percentage, above that a number on the 900 scale. */
  function Score100(raw: real): real {
    if raw <= 100.0 then RoundTo(raw, 10.0) else RoundTo((Round(raw) as real - 300.0) / 6.0, 10.0)
  }

  function Score900(raw: real): int {
    if raw <= 100.0 then Round(300.0 + RoundTo(raw, 10.0) / 100.0 * 600.0) else Round(raw)
  }

  datatype Normalized = Normalized(
    score100: real, score900: int, band: Band, lower100: real, upper100: real, lower900: int, upper900: int)

  function MinInt(x: int, y: int): int {
    if y < x then y else x
  }

  function MaxInt(x: int, y: int): int {
    if y > x then y else x
  }

  /** `normalize_score`. */
  function Normalize(raw: real, lower: Option<real>, upper: Option<real>): Normalized {
    var s100, s900 := Within100(Score100(raw)), Within900(Score900(raw));
    var low100 := if lower.Some? then Score100(lower.value) else MaxReal(0.0, s100 - 5.0);
    var low900 := if lower.Some? then Score900(lower.value) else MaxInt(300, s900 - 30);
    var high100 := if upper.Some? then Score100(upper.value) else MinReal(100.0, s100 + 5.0);
    var high900 := if upper.Some? then Score900(upper.value) else MinInt(900, s900 + 30);
    Normalized(s100, s900, ScoreBand(s100),
               MinReal(low100, s100), MaxReal(high100, s100), MinInt(low900, s900), MaxInt(high900, s900))
  }

  /** The band of a raw score, whatever confidence interval comes with it. */
  function BandOf(raw: real): Band {
    ScoreBand(Within100(Score100(raw)))
  }

  // ---------- tenths ----------

  /** The percentage as a whole number of tenths. */
  function Tenths(raw: real): int {
    if raw <= 100.0 then Round(raw * 10.0) else Round((Round(raw) as real - 300.0) / 6.0 * 10.0)
  }

  lemma {:induction false} InTenths(raw: real)
    ensures Score100(raw) == Tenths(raw) as real / 10.0
    ensures raw <= 100.0 ==> Score900(raw) == Round(300.0 + Tenths(raw) as real * 0.6)
  {
    hide Round;
  }

  /** Rounding reaches an even number from one half below it. */
  lemma {:induction false} ReachesEven(x: real, n: int)
    requires n % 2 == 0
    ensures Round(x) >= n <==> x >= n as real - 0.5
  {
  }

  lemma {:induction false} PercentFloor(raw: real, t: int)
    requires raw <= 100.0
    ensures Score100(raw) >= t as real <==> raw >= t as real - 0.05
    ensures Score100(raw) >= t as real <==> Score900(raw) >= 300 + 6 * t
  {
    InTenths(raw);
    hide Round, Score100, Score900;
    ReachesTens(raw * 10.0, t);
    TenthsReach(Tenths(raw), t);
    TenthsAtLeast(Tenths(raw), t);
    TenTimes(raw, t as real);
  }

  lemma {:induction false} TenthsAtLeast(k: int, t: int)
    ensures k >= 10 * t <==> k as real / 10.0 >= t as real
  {
  }

  lemma {:induction false} TenthsReach(k: int, t: int)
    ensures k >= 10 * t <==> Round(300.0 + k as real * 0.6) >= 300 + 6 * t
  {
    hide Round;
    var x, floor := 300.0 + k as real * 0.6, t as real;
    assert Round(x) >= 300 + 6 * t <==> x >= 300.0 + 6.0 * floor - 0.5 by {
      ReachesEven(x, 300 + 6 * t);
    }
    if k >= 10 * t {
      assert k as real >= 10.0 * floor;
    } else {
      assert k as real <= 10.0 * floor - 1.0;
    }
  }

  lemma {:induction false} WideFloor(raw: real, t: int)
    requires raw > 100.0
    ensures Score100(raw) >= t as real <==> Score900(raw) >= 300 + 6 * t
  {
    InTenths(raw);
    hide Round, Score100;
    WideReach(Round(raw), t);
  }

  /** Ten times the percentage of a number on the 900 scale. */
  function FromWide(d: real): real {
    d / 6.0 * 10.0
  }

  lemma {:induction false} WideReach(n: int, t: int)
    ensures Round((n as real - 300.0) / 6.0 * 10.0) as real / 10.0 >= t as real <==> n >= 300 + 6 * t
  {
    assert FromWide(n as real - 300.0) == (n as real - 300.0) / 6.0 * 10.0;
    hide Round, FromWide;
    TenthsAtLeast(Round(FromWide(n as real - 300.0)), t);
    WideAt(n as real - 300.0, t);
    Above(n, t);
  }

  lemma {:induction false} WideAt(d: real, t: int)
    ensures Round(FromWide(d)) >= 10 * t <==> d >= 6.0 * t as real - 0.3
  {
    hide Round, FromWide;
    ReachesTens(FromWide(d), t);
    FiveThirds(d, t as real);
  }

  lemma {:induction false} ReachesTens(x: real, t: int)
    ensures Round(x) >= 10 * t <==> x >= 10.0 * t as real - 0.5
  {
    hide Round;
    ReachesTwice(x, 5 * t, 10.0 * t as real - 0.5);
  }

  lemma {:induction false} ReachesTwice(x: real, h: int, b: real)
    requires b == 2.0 * h as real - 0.5
    ensures Round(x) >= 2 * h <==> x >= b
  {
    ReachesEven(x, 2 * h);
  }

  lemma {:induction false} Above(n: int, t: int)
    ensures n as real - 300.0 >= 6.0 * t as real - 0.3 <==> n >= 300 + 6 * t
  {
    if n >= 300 + 6 * t {
      assert n as real >= 300.0 + 6.0 * t as real;
    } else {
      assert n as real <= 299.0 + 6.0 * t as real;
    }
  }

  lemma {:induction false} TenTimes(x: real, t: real)
    ensures x * 10.0 >= 10.0 * t - 0.5 <==> x >= t - 0.05
  {
  }

  lemma {:induction false} FiveThirds(d: real, t: real)
    ensures FromWide(d) >= 10.0 * t - 0.5 <==> d >= 6.0 * t - 0.3
  {
  }

  // ---------- one band on both scales ----------

  /** The bands read off the 900 scale. */
  function Band900(score900: int): Band {
    if score900 >= 786 then Excellent
    else if score900 >= 696 then Good
    else if score900 >= 606 then Moderate
    else if score900 >= 486 then HighRisk
    else VeryHighRisk
  }

  lemma {:induction false} FloorOnBothScales(raw: real, t: int)
    requires t % 5 == 1 && 0 < t < 100
    ensures Within100(Score100(raw)) >= t as real <==> Within900(Score900(raw)) >= 300 + 6 * t
    ensures raw <= 100.0 ==> (Within100(Score100(raw)) >= t as real <==> raw >= t as real - 0.05)
  {
    hide Score100, Score900;
    if raw <= 100.0 {
      PercentFloor(raw, t);
    } else {
      WideFloor(raw, t);
    }
  }

  /** Whichever scale the raw score is on, its two normalised numbers tell the same band. */
  lemma {:induction false} BandOnBothScales(raw: real)
    ensures BandOf(raw) == Band900(Within900(Score900(raw)))
  {
    hide Score100, Score900, Within100, Within900;
    FloorOnBothScales(raw, 81);
    FloorOnBothScales(raw, 66);
    FloorOnBothScales(raw, 51);
    FloorOnBothScales(raw, 31);
  }

  /** Normalising a normalised score again, on the 900 scale, changes neither the number nor the band. */
  lemma {:induction false} NormalizeAgain(raw: real, lower: Option<real>, upper: Option<real>)
    ensures var n := Normalize(raw, lower, upper);
      var again := Normalize(n.score900 as real, lower, upper);
      again.score900 == n.score900 && again.band == n.band == BandOf(raw)
  {
    var n := Within900(Score900(raw));
    RoundOfInt(n);
    BandOnBothScales(raw);
    BandOnBothScales(n as real);
  }

  /** The band read directly off the raw number, as the handoff does, is the normalised one exactly when a
      percentage is not within half a tenth below a floor and a 900-scale score is itself excellent. */
  lemma {:induction false} RawBandAgreesIff(raw: real)
    ensures ScoreBand(raw) == BandOf(raw) <==>
      if raw <= 100.0 then
        && !(30.95 <= raw < 31.0) && !(50.95 <= raw < 51.0) && !(65.95 <= raw < 66.0) && !(80.95 <= raw < 81.0)
      else raw >= 785.5
  {
    hide Score100, Score900, Within100, Within900;
    FloorOnBothScales(raw, 81);
    FloorOnBothScales(raw, 66);
    FloorOnBothScales(raw, 51);
    FloorOnBothScales(raw, 31);
    if raw > 100.0 {
      WideClamped(raw, 786);
    }
  }

  lemma {:induction false} WideClamped(raw: real, n: int)
    requires raw > 100.0 && n % 2 == 0 && 300 < n <= 900
    ensures Within900(Score900(raw)) >= n <==> raw >= n as real - 0.5
  {
    ReachesEven(raw, n);
  }

  /** On each scale the normalised score never falls as the raw one grows. */
  lemma {:induction false} MonotoneOnEachScale(x: real, y: real)
    requires x <= y && (x <= 100.0 <==> y <= 100.0)
    ensures Within900(Score900(x)) <= Within900(Score900(y))
  {
    if x <= 100.0 {
      RoundToMonotone(x, y, 10.0);
      hide RoundTo, Round;
      RoundMonotone(300.0 + RoundTo(x, 10.0) / 100.0 * 600.0, 300.0 + RoundTo(y, 10.0) / 100.0 * 600.0);
    }
  }

  /** Across the switch at 100 the order is kept exactly when the percentage rounds to nothing, or its image on the
      900 scale is at most the other number rounded. */
  lemma {:induction false} AcrossHundredIff(x: real, y: real)
    requires x <= 100.0 < y
    ensures Within900(Score900(x)) <= Within900(Score900(y)) <==> x <= 0.05 || Score900(x) <= Round(y)
  {
    HighEnd(x);
    AboveNothing(x);
    assert Score900(y) == Round(y);
    hide Score900, Round;
  }

  lemma {:induction false} AboveNothing(x: real)
    requires x <= 100.0
    ensures Score900(x) <= 300 <==> x <= 0.05
  {
    InTenths(x);
    var k := Tenths(x);
    assert k >= 1 <==> x > 0.05;
    hide Score900, Score100;
    if k >= 1 {
      RoundMonotone(300.6, 300.0 + k as real * 0.6);
      assert Round(300.6) == 301;
    } else {
      RoundMonotone(300.0 + k as real * 0.6, 300.0);
      assert Round(300.0) == 300;
    }
  }

  /** For instance 100 is the highest score and 101 the lowest. */
  lemma {:induction false} OfHundred()
    ensures Within900(Score900(100.0)) == 900 && Within900(Score900(101.0)) == 300
  {
    RoundOfInt(1000);
    RoundOfInt(900);
    RoundOfInt(101);
  }

  // ---------- the two scales ----------

  /** Neither number is further from the raw one than rounding takes it, and a point of a percentage is six on the wide
      scale, which starts at 300. */
  lemma {:induction false} ScalesAgree(raw: real)
    ensures raw <= 100.0 ==>
      && -0.05 <= Score100(raw) - raw <= 0.05
      && -0.5 <= Score900(raw) as real - (300.0 + 6.0 * Score100(raw)) <= 0.5
    ensures raw > 100.0 ==>
      && -0.5 <= Score900(raw) as real - raw <= 0.5
      && -0.05 <= Score100(raw) - (Score900(raw) as real - 300.0) / 6.0 <= 0.05
  {
    RoundNear(raw * 10.0);
    RoundNear(raw);
    RoundNear(300.0 + RoundTo(raw, 10.0) / 100.0 * 600.0);
    RoundNear((Round(raw) as real - 300.0) / 6.0 * 10.0);
  }

  // ---------- the confidence interval ----------

  /** The interval always holds the score, on both scales. */
  lemma {:induction false} IntervalBrackets(raw: real, lower: Option<real>, upper: Option<real>)
    ensures var n := Normalize(raw, lower, upper);
      n.lower100 <= n.score100 <= n.upper100 && n.lower900 <= n.score900 <= n.upper900
  {
    hide Score100, Score900;
  }

  /** Without bounds of its own the interval is the score with 5 points, or 30 on the wide scale, on each side, cut off
      at the ends of the scale; a given bound is put on both scales like a score. */
  lemma {:induction false} IntervalDefault(raw: real, lower: Option<real>, upper: Option<real>)
    ensures var n := Normalize(raw, lower, upper);
      && (lower == None ==>
            && n.lower100 == (if n.score100 >= 5.0 then n.score100 - 5.0 else 0.0)
            && n.lower900 == (if n.score900 >= 330 then n.score900 - 30 else 300))
      && (upper == None ==>
            && n.upper100 == (if n.score100 <= 95.0 then n.score100 + 5.0 else 100.0)
            && n.upper900 == (if n.score900 <= 870 then n.score900 + 30 else 900))
      && (lower.Some? && Score100(lower.value) <= n.score100 ==> n.lower100 == Score100(lower.value))
      && (upper.Some? && Score100(upper.value) >= n.score100 ==> n.upper100 == Score100(upper.value))
  {
    hide Score100, Score900;
  }

  /** On either scale the interval stays inside its range exactly when a given lower bound is a non-negative
      percentage or at least 300, and a given upper bound is at most 900, each up to rounding. */
  lemma {:induction false} IntervalBoundedIff(raw: real, lower: Option<real>, upper: Option<real>)
    ensures var n := Normalize(raw, lower, upper);
      var lowOk := lower.Some? ==> if lower.value <= 100.0 then lower.value >= -0.05 else lower.value >= 299.5;
      var highOk := upper.Some? ==> upper.value <= 900.5;
      && (n.lower900 >= 300 <==> lowOk) && (n.lower100 >= 0.0 <==> lowOk)
      && (n.upper900 <= 900 <==> highOk) && (n.upper100 <= 100.0 <==> highOk)
  {
    hide Score100, Score900;
    if lower.Some? {
      LowEnd(lower.value);
      LowEnd100(lower.value);
    }
    if upper.Some? {
      HighEnd(upper.value);
      HighEnd100(upper.value);
    }
  }

  lemma {:induction false} LowEnd100(x: real)
    ensures Score100(x) >= 0.0 <==> Score900(x) >= 300
  {
    hide Score100, Score900;
    if x <= 100.0 {
      PercentFloor(x, 0);
    } else {
      WideFloor(x, 0);
    }
  }

  lemma {:induction false} HighEnd100(x: real)
    ensures Score100(x) <= 100.0 <==> Score900(x) <= 900
  {
    HighEnd(x);
    if x <= 100.0 {
      RoundToMonotone(x, 100.0, 10.0);
      HundredStays();
    } else {
      hide Round, RoundTo;
      WideTop(Round(x));
    }
  }

  lemma {:induction false} WideTop(n: int)
    ensures RoundTo((n as real - 300.0) / 6.0, 10.0) <= 100.0 <==> n <= 900
  {
    if n <= 900 {
      assert (n as real - 300.0) / 6.0 <= 100.0;
      RoundToMonotone((n as real - 300.0) / 6.0, 100.0, 10.0);
      HundredStays();
    } else {
      RoundOfInt(1001);
      assert (n as real - 300.0) / 6.0 >= 100.1;
      RoundToMonotone(100.1, (n as real - 300.0) / 6.0, 10.0);
      assert RoundTo(100.1, 10.0) == 100.1;
    }
  }

  lemma {:induction false} LowEnd(x: real)
    ensures Score900(x) >= 300 <==> if x <= 100.0 then x >= -0.05 else x >= 299.5
  {
    hide Round, Score100;
    InTenths(x);
    if x <= 100.0 {
      ReachesEven(x * 10.0, 0);
      TenthsReach(Tenths(x), 0);
      TenthsAtLeast(Tenths(x), 0);
    } else {
      ReachesEven(x, 300);
    }
  }

  lemma {:induction false} HighEnd(x: real)
    ensures Score900(x) <= 900 <==> x <= 900.5
  {
    if x <= 100.0 {
      RoundToMonotone(x, 100.0, 10.0);
      HundredStays();
      hide RoundTo, Round;
      RoundMonotone(300.0 + RoundTo(x, 10.0) / 100.0 * 600.0, 900.0);
      RoundOfInt(900);
    } else {
      assert Round(x) <= 900 <==> x <= 900.5;
    }
  }

  lemma {:induction false} HundredStays()
    ensures RoundTo(100.0, 10.0) == 100.0
  {
    RoundOfInt(1000);
  }
}
