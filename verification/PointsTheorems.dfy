/** How far the integer points table can be from the exact score, and when its lookups are right. */
module PointsTheorems {
  import opened Wrappers
  import opened Rounding
  import opened Logarithm
  import opened Binning
  import opened Woe
  import opened WoeTheorems
  import opened WoeScorecards
  import opened Calibration
  import opened Contributions

  // ---------- one feature's table ----------

  /** The points stored under a label are those of its last bin. */
  lemma {:induction false} TableHasLast(m: Model, w: real, bins: seq<WoEBin>, i: nat)
    requires i < |bins|
    ensures bins[i].tag in FeatureTable(m, w, bins)
    ensures (forall j :: i < j < |bins| ==> bins[j].tag != bins[i].tag) ==>
              FeatureTable(m, w, bins)[bins[i].tag] == BinPoints(m, w, bins[i].woe)
  {
    hide BinPoints;
    if i < |bins| - 1 {
      TableHasLast(m, w, bins[..|bins| - 1], i);
    }
  }

  predicate LabelsDistinct(bins: seq<WoEBin>) {
    forall i, j :: 0 <= i < j < |bins| ==> bins[i].tag != bins[j].tag
  }

  lemma {:induction false} LastOccurrence(bins: seq<WoEBin>, tag: Label) returns (k: nat)
    requires exists i :: 0 <= i < |bins| && bins[i].tag == tag
    ensures k < |bins| && bins[k].tag == tag && forall j :: k < j < |bins| ==> bins[j].tag != tag
  {
    k := |bins| - 1;
    while bins[k].tag != tag
      invariant k < |bins| && forall j :: k < j < |bins| ==> bins[j].tag != tag
      decreases k
    {
      k := k - 1;
    }
  }

  /** Each bin's label leads to its own points. */
  ghost predicate TableCorrect(m: Model, w: real, bins: seq<WoEBin>) {
    forall i :: 0 <= i < |bins| ==>
      && bins[i].tag in FeatureTable(m, w, bins)
      && FeatureTable(m, w, bins)[bins[i].tag] == BinPoints(m, w, bins[i].woe)
  }

  /** Bins with one label carry equal points. */
  ghost predicate SharedLabelsAgree(m: Model, w: real, bins: seq<WoEBin>) {
    forall i, j :: 0 <= i < |bins| && 0 <= j < |bins| && bins[i].tag == bins[j].tag ==>
      BinPoints(m, w, bins[i].woe) == BinPoints(m, w, bins[j].woe)
  }

  /** Every bin finds its own points in the table exactly when bins that share a label carry equal points:
      the table is keyed by a label of two decimals, which different bins can share. */
  lemma {:induction false} TableCorrectIff(m: Model, w: real, bins: seq<WoEBin>)
    ensures TableCorrect(m, w, bins) <==> SharedLabelsAgree(m, w, bins)
  {
    if SharedLabelsAgree(m, w, bins) {
      forall i | 0 <= i < |bins|
        ensures bins[i].tag in FeatureTable(m, w, bins)
        ensures FeatureTable(m, w, bins)[bins[i].tag] == BinPoints(m, w, bins[i].woe)
      {
        hide BinPoints, FeatureTable;
        var k := LastOccurrence(bins, bins[i].tag);
        TableHasLast(m, w, bins, k);
      }
    }
  }

  // ---------- the label and the weight come from the same bin ----------

  lemma {:induction false} MatchedLabelIs(rule: FeatureRule, c: Cell, k: nat)
    requires k <= |rule.bins| && !c.Missing?
    requires exists i :: k <= i <= |rule.bins| && FirstHit(rule.bins, c, k, i)
    ensures forall i :: k <= i <= |rule.bins| && FirstHit(rule.bins, c, k, i) ==>
      && MatchedLabel(rule.bins[k..], c) == (if i < |rule.bins| then rule.bins[i].tag else MissingLabel)
      && (c.Number? ==>
            FirstMatch(rule.bins[k..], c.v, rule.missingWoe)
            == if i < |rule.bins| then rule.bins[i].woe else rule.missingWoe)
    decreases |rule.bins| - k
  {
    if k < |rule.bins| {
      assert rule.bins[k..][0] == rule.bins[k] && rule.bins[k..][1..] == rule.bins[k + 1..];
      if !Hit(rule.bins[k], c) {
        assert forall i :: k <= i <= |rule.bins| && FirstHit(rule.bins, c, k, i) ==>
          i > k && FirstHit(rule.bins, c, k + 1, i);
        MatchedLabelIs(rule, c, k + 1);
      }
    }
  }

  predicate Hit(b: WoEBin, c: Cell) {
    b.tag != MissingLabel && b.Matches(c)
  }

  /** `i` is the first bin from `k` on that matches, or the end if none does. */
  predicate FirstHit(bins: seq<WoEBin>, c: Cell, k: nat, i: nat) {
    && k <= i <= |bins|
    && (forall j :: k <= j < i ==> !Hit(bins[j], c))
    && (i < |bins| ==> Hit(bins[i], c))
  }

  lemma {:induction false} FindHit(bins: seq<WoEBin>, c: Cell, k: nat) returns (i: nat)
    requires k <= |bins|
    ensures FirstHit(bins, c, k, i)
    decreases |bins| - k
  {
    hide Hit;
    if k == |bins| || Hit(bins[k], c) {
      i := k;
    } else {
      i := FindHit(bins, c, k + 1);
    }
  }

  /** The rule ends with its missing bin, whose weight is the missing weight. */
  predicate EndsWithMissing(rule: FeatureRule) {
    && rule.bins != []
    && rule.bins[|rule.bins| - 1].tag == MissingLabel
    && rule.bins[|rule.bins| - 1].woe == rule.missingWoe
  }

  /** Whatever the cell, the label looked up is that of a bin whose weight is the one the log-odds use. */
  lemma {:induction false} SameBin(rule: FeatureRule, c: Cell) returns (i: nat)
    requires EndsWithMissing(rule)
    ensures i < |rule.bins|
    ensures rule.bins[i].tag == LabelFor(rule, c) && rule.bins[i].woe == TransformValue(rule, c)
  {
    hide Hit;
    if c.Missing? {
      i := |rule.bins| - 1;
    } else {
      i := FindHit(rule.bins, c, 0);
      MatchedLabelIs(rule, c, 0);
      assert rule.bins[0..] == rule.bins;
      if c.Text? {
        NoHitForText(rule.bins, c, i);
      }
      if i == |rule.bins| {
        i := |rule.bins| - 1;
      }
    }
  }

  lemma {:induction false} NoHitForText(bins: seq<WoEBin>, c: Cell, i: nat)
    requires c.Text? && FirstHit(bins, c, 0, i)
    ensures i == |bins|
  {
  }

  // ---------- one feature's points ----------

  /** What the bound needs of a feature: it was fitted, and its bins that share a label carry equal points. */
  ghost predicate Tabulated(m: Model, w: real, rule: FeatureRule) {
    EndsWithMissing(rule) && SharedLabelsAgree(m, w, rule.bins)
  }

  lemma {:induction false} FeaturePoints(m: Model, w: real, rule: FeatureRule, c: Cell)
    requires Tabulated(m, w, rule)
    ensures var table := FeatureTable(m, w, rule.bins);
      && LabelFor(rule, c) in table
      && table[LabelFor(rule, c)] == BinPoints(m, w, TransformValue(rule, c))
  {
    hide BinPoints, FeatureTable, LabelFor, TransformValue, SharedLabelsAgree;
    var i := SameBin(rule, c);
    TableCorrectIff(m, w, rule.bins);
  }

  // ---------- the whole table ----------

  predicate NamesDistinct(weights: Weights) {
    forall i, j :: 0 <= i < j < |weights| ==> weights[i].0 != weights[j].0
  }

  lemma {:induction false} TableEntry(m: Model, weights: Weights, i: nat)
    requires NamesDistinct(weights) && i < |weights| && weights[i].0 in m.rules
    ensures var table := PointsTable(m, weights);
      && weights[i].0 in table
      && table[weights[i].0] == FeatureTable(m, weights[i].1, m.rules[weights[i].0].bins)
  {
    hide FeatureTable;
    if i < |weights| - 1 {
      TableEntry(m, weights[..|weights| - 1], i);
    }
  }

  /** Every weighted feature is fitted, and looks up the right points. */
  ghost predicate AllTabulated(m: Model) {
    forall i :: 0 <= i < |m.weights| ==>
      m.weights[i].0 in m.rules && Tabulated(m, m.weights[i].1, m.rules[m.weights[i].0])
  }

  /** Sum of the unrounded points of the first `n` features. */
  function SumExact(m: Model, features: map<string, Cell>, n: nat): real
    requires n <= |m.weights|
  {
    if n == 0 then 0.0
    else
      var (name, w) := m.weights[n - 1];
      SumExact(m, features, n - 1) + ExactPoints(m, w, WoeOf(m.rules, name, Get(features, name)))
  }

  lemma {:induction false} PointsNear(m: Model, features: map<string, Cell>, i: nat)
    requires NamesDistinct(m.weights) && AllTabulated(m) && i < |m.weights|
    ensures var (name, w) := m.weights[i];
      var points := PointsOf(m, PointsTable(m, m.weights), name, Get(features, name)) as real;
      var exact := ExactPoints(m, w, WoeOf(m.rules, name, Get(features, name)));
      -0.5 <= points - exact <= 0.5
  {
    hide ExactPoints, FeatureTable, PointsTable, LabelFor, TransformValue, Tabulated, Round;
    var (name, w) := m.weights[i];
    TableEntry(m, m.weights, i);
    FeaturePoints(m, w, m.rules[name], Get(features, name));
    RoundNear(ExactPoints(m, w, WoeOf(m.rules, name, Get(features, name))));
  }

  lemma {:induction false} TotalNear(m: Model, features: map<string, Cell>, n: nat)
    requires NamesDistinct(m.weights) && AllTabulated(m) && n <= |m.weights|
    ensures var total := TotalPoints(m, PointsTable(m, m.weights), features, m.weights[..n]) as real;
      -0.5 * n as real <= total - SumExact(m, features, n) <= 0.5 * n as real
  {
    hide PointsOf, PointsTable, ExactPoints, AllTabulated, NamesDistinct;
    if n > 0 {
      TotalNear(m, features, n - 1);
      PointsNear(m, features, n - 1);
      assert m.weights[..n][..n - 1] == m.weights[..n - 1];
    }
  }

  lemma {:induction false} ExactPointsIs(m: Model, w: real, woe: real, o: real, b: real)
    requires o == m.offset / Spread(m) as real && b == m.intercept / Spread(m) as real
    ensures ExactPoints(m, w, woe) == o - m.factor * (b + Weighted(w, woe))
  {
    hide Weighted;
  }

  lemma {:induction false} SumExactIs(m: Model, features: map<string, Cell>, n: nat, o: real, b: real)
    requires n <= |m.weights|
    requires o == m.offset / Spread(m) as real && b == m.intercept / Spread(m) as real
    ensures SumExact(m, features, n)
         == n as real * o - m.factor * (n as real * b + (LogOdds(m, features, m.weights[..n]) - m.intercept))
  {
    hide WoeOf, Weighted, ExactPoints, Spread;
    if n > 0 {
      SumExactIs(m, features, n - 1, o, b);
      assert m.weights[..n][..n - 1] == m.weights[..n - 1];
      var (name, w) := m.weights[n - 1];
      var woe := WoeOf(m.rules, name, Get(features, name));
      var before := LogOdds(m, features, m.weights[..n - 1]) - m.intercept;
      ExactPointsIs(m, w, woe, o, b);
      OneMore((n - 1) as real, o, b, m.factor, before, Weighted(w, woe));
    } else {
      assert m.weights[..0] == [];
    }
  }

  lemma {:induction false} OneMore(j: real, o: real, b: real, f: real, s: real, t: real)
    ensures j * o - f * (j * b + s) + (o - f * (b + t)) == (j + 1.0) * o - f * ((j + 1.0) * b + (s + t))
  {
  }

  /** The exact score the table approximates. */
  function ExactScore(m: Model, features: map<string, Cell>): real {
    m.offset - m.factor * LogOdds(m, features, m.weights)
  }

  lemma {:induction false} DivMul(a: real, k: real)
    requires k != 0.0
    ensures k * (a / k) == a
  {
  }

  lemma {:induction false} SumExactIsScore(m: Model, features: map<string, Cell>)
    requires m.weights != []
    ensures SumExact(m, features, |m.weights|) == ExactScore(m, features)
  {
    hide LogOdds, SumExact;
    var n := |m.weights|;
    var k := n as real;
    var o, b := m.offset / k, m.intercept / k;
    SumExactIs(m, features, n, o, b);
    assert m.weights[..n] == m.weights;
    DivMul(m.offset, k);
    DivMul(m.intercept, k);
  }

  lemma {:induction false} ClampNear(total: int, exact: real, bound: real)
    requires bound >= 0.0 && -bound <= total as real - exact <= bound
    ensures -bound <= ClampInt(300, 900, total) as real - ClampReal(300.0, 900.0, exact) <= bound
  {
  }

  /** With m weighted features, all fitted and with equal points wherever bins share a label, the points of a
      borrower differ from the clamped exact score by at most m / 2. */
  lemma {:induction false} PointsErrorBound(m: Model, features: map<string, Cell>)
    requires m.weights != [] && NamesDistinct(m.weights) && AllTabulated(m)
    ensures var points := ClampInt(300, 900, TotalPoints(m, PointsTable(m, m.weights), features, m.weights));
      var half := |m.weights| as real / 2.0;
      -half <= points as real - ClampReal(300.0, 900.0, ExactScore(m, features)) <= half
  {
    hide TotalPoints, PointsTable, SumExact, ExactScore, ClampInt, ClampReal, AllTabulated;
    var n := |m.weights|;
    TotalNear(m, features, n);
    SumExactIsScore(m, features);
    assert m.weights[..n] == m.weights;
    ClampNear(TotalPoints(m, PointsTable(m, m.weights), features, m.weights), ExactScore(m, features), n as real / 2.0);
  }

  /** A fitted feature ends with its missing bin, so only shared labels can break the bound. */
  lemma {:induction false} FittedEndsWithMissing(ln: real -> real, rows: seq<Row>, maxBins: nat, stats: Stats)
    requires FitFeature(ln, rows, maxBins, stats).Success?
    ensures EndsWithMissing(FitFeature(ln, rows, maxBins, stats).value)
  {
    hide FitFeature, Cutoffs;
    FitIsFitted(ln, rows, maxBins, stats);
  }

  // ---------- points against calibration ----------

  /** `p` is the probability with these log-odds: the logistic function, without its exponential. */
  ghost predicate Logistic(ln: real -> real, p: real, logOdds: real) {
    0.0 < p < 1.0 && ln(p / (1.0 - p)) == logOdds
  }

  /** The scorecard scales points as calibration scales odds. */
  ghost predicate SameScale(ln: real -> real, m: Model) {
    IsLn(ln) && ln(2.0) > 0.0 && m.factor == Factor(ln) && m.offset == Offset(ln)
  }

  lemma {:induction false} RatioPositive(a: real, b: real)
    requires a > 0.0 && b > 0.0
    ensures a / b > 0.0
  {
    var q := a / b;
    assert q * b == a;
    if q <= 0.0 {
      MulMonotone(q, 0.0, b);
    }
  }

  lemma {:induction false} OddsGrow(p: real, q: real)
    requires 0.0 < p < q < 1.0
    ensures 0.0 < p / (1.0 - p) < q / (1.0 - q)
  {
    RatioPositive(p, 1.0 - p);
    var x, y := p / (1.0 - p), q / (1.0 - q);
    assert x * (1.0 - p) == p && y * (1.0 - q) == q;
    if y <= x {
      MulMonotone(y, x, 1.0 - q);
      MulMonotone(1.0 - q, 1.0 - p, x);
    }
  }

  lemma {:induction false} FactorPositive(ln: real -> real)
    requires ln(2.0) > 0.0
    ensures Factor(ln) > 0.0
  {
    RatioPositive(20.0, ln(2.0));
  }

  /** Clamping the probability changes its odds exactly outside [0.001, 0.999]. */
  lemma {:induction false} ClampedOdds(p: real)
    requires 0.0 < p < 1.0
    ensures 0.001 <= p <= 0.999 ==> Odds(p) == p / (1.0 - p)
    ensures p < 0.001 ==> 0.0 < p / (1.0 - p) < Odds(p)
    ensures p > 0.999 ==> 0.0 < Odds(p) < p / (1.0 - p)
  {
    if p < 0.001 {
      OddsGrow(p, 0.001);
    } else if p > 0.999 {
      OddsGrow(0.999, p);
    }
  }

  lemma {:induction false} MirrorIff(f: real, o: real, l: real, k: real)
    requires f > 0.0
    ensures o + f * k + (o - f * l) == 2.0 * o <==> k == l
  {
    if k < l {
      MulMonotone(k, l, f);
    } else if l < k {
      MulMonotone(l, k, f);
    }
  }

  /** Points fall with the log-odds while calibrated scores rise with them: the exact score and the calibrated score
      before truncation mirror each other about the offset, exactly as long as calibration does not clamp the
      probability. */
  lemma {:induction false} PointsMirrorCalibration(ln: real -> real, m: Model, features: map<string, Cell>, p: real)
    requires SameScale(ln, m) && Logistic(ln, p, LogOdds(m, features, m.weights))
    ensures RawScore(ln, p) + ExactScore(m, features) == 2.0 * Offset(ln) <==> 0.001 <= p <= 0.999
  {
    hide IsLn, Odds, Factor, Offset, LogOdds;
    FactorPositive(ln);
    ClampedOdds(p);
    RatioPositive(p, 1.0 - p);
    OddsPositive(p);
    LnOrder(ln, p / (1.0 - p), Odds(p));
    LnOrder(ln, Odds(p), p / (1.0 - p));
    MirrorIff(m.factor, m.offset, LogOdds(m, features, m.weights), ln(Odds(p)));
  }

  function Points(m: Model, features: map<string, Cell>): int {
    ClampInt(300, 900, TotalPoints(m, PointsTable(m, m.weights), features, m.weights))
  }

  /** The exact score drops by at least the number of features when the log-odds grow by that over the factor. */
  lemma {:induction false} ExactScoreDrops(m: Model, lower: map<string, Cell>, higher: map<string, Cell>, n: real)
    requires m.factor > 0.0
    requires LogOdds(m, higher, m.weights) >= LogOdds(m, lower, m.weights) + n / m.factor
    ensures ExactScore(m, higher) <= ExactScore(m, lower) - n
  {
    hide LogOdds;
    var f, d := m.factor, n / m.factor;
    var l, h := LogOdds(m, lower, m.weights), LogOdds(m, higher, m.weights);
    assert f * d == n;
    MulMonotone(l + d, h, f);
    assert f * (l + d) == f * l + n;
  }

  /** A borrower whose log-odds are larger by at least m / factor never has more points, and never a smaller
      calibrated score: the two scores of one model rank borrowers in opposite directions. */
  lemma {:induction false} PointsFallAsScoresRise(ln: real -> real, m: Model, lower: map<string, Cell>,
                                                  higher: map<string, Cell>, p: real, q: real)
    requires SameScale(ln, m) && NamesDistinct(m.weights) && AllTabulated(m)
    requires Logistic(ln, p, LogOdds(m, lower, m.weights)) && Logistic(ln, q, LogOdds(m, higher, m.weights))
    requires m.factor != 0.0
    requires LogOdds(m, higher, m.weights) >= LogOdds(m, lower, m.weights) + |m.weights| as real / m.factor
    ensures Points(m, higher) <= Points(m, lower)
    ensures CalibrateScore(ln, p).1 <= CalibrateScore(ln, q).1
  {
    hide IsLn, LogOdds, Factor, Offset, ExactScore, TotalPoints, PointsTable, AllTabulated, CalibrateScore;
    FactorPositive(ln);
    var n := |m.weights|;
    GrowthNonNegative(n as real, m.factor);
    ProbabilityOrder(ln, p, q);
    CalibrationMonotone(ln, p, q);
    if n > 0 {
      ExactScoreDrops(m, lower, higher, n as real);
      TotalNear(m, lower, n);
      TotalNear(m, higher, n);
      SumExactIsScore(m, lower);
      SumExactIsScore(m, higher);
      assert m.weights[..n] == m.weights;
    } else {
      NoPoints(m, lower, higher);
    }
  }

  lemma {:induction false} NoPoints(m: Model, f: map<string, Cell>, g: map<string, Cell>)
    requires m.weights == []
    ensures Points(m, f) == Points(m, g)
  {
  }

  lemma {:induction false} GrowthNonNegative(n: real, f: real)
    requires n >= 0.0 && f > 0.0
    ensures n / f >= 0.0
  {
    DivMonotone(0.0, n, f);
  }

  lemma {:induction false} ProbabilityOrder(ln: real -> real, p: real, q: real)
    requires IsLn(ln) && 0.0 < p < 1.0 && 0.0 < q < 1.0
    requires ln(p / (1.0 - p)) <= ln(q / (1.0 - q))
    ensures p <= q
  {
    hide IsLn;
    RatioPositive(p, 1.0 - p);
    RatioPositive(q, 1.0 - q);
    LnOrder(ln, p / (1.0 - p), q / (1.0 - q));
    if q < p {
      OddsGrow(q, p);
    }
  }

  // ---------- explanation ----------

  lemma {:induction false} ExplainTotal(m: Model, features: map<string, Cell>, weights: Weights, grade: string -> real)
    ensures Total(WoeScorecards.Explain(m, features, weights, grade)) == LogOdds(m, features, weights) - m.intercept
  {
    hide WoeOf, Weighted, ShownValue;
    if weights != [] {
      var n := |weights| - 1;
      ExplainTotal(m, features, weights[..n], grade);
      var (name, w) := weights[n];
      var c := Get(features, name);
      TotalSnoc(WoeScorecards.Explain(m, features, weights[..n], grade),
                Contribution(name, ShownValue(c, name, grade), Weighted(w, WoeOf(m.rules, name, c))));
    }
  }

  /** Contributions in WoE space add up to exactly the log-odds minus the intercept. */
  lemma {:induction false} WoeShapleyEfficiency(m: Model, features: map<string, Cell>, grade: string -> real)
    ensures Total(Sort(WoeScorecards.Explain(m, features, m.weights, grade)))
         == LogOdds(m, features, m.weights) - m.intercept
  {
    TotalOfSort(WoeScorecards.Explain(m, features, m.weights, grade));
    ExplainTotal(m, features, m.weights, grade);
  }

  function Without(weights: Weights, i: nat): Weights
    requires i < |weights|
  {
    weights[..i] + weights[i + 1..]
  }

  lemma {:induction false} LogOddsWithout(m: Model, features: map<string, Cell>, weights: Weights, i: nat)
    requires i < |weights|
    ensures LogOdds(m, features, weights)
         == LogOdds(m, features, Without(weights, i))
            + Weighted(weights[i].1, WoeOf(m.rules, weights[i].0, Get(features, weights[i].0)))
  {
    hide WoeOf, Get, Weighted;
    var n := |weights| - 1;
    if i < n {
      LogOddsWithout(m, features, weights[..n], i);
      assert Without(weights, i)[..n - 1] == Without(weights[..n], i);
      assert Without(weights, i)[n - 1] == weights[n];
    } else {
      assert Without(weights, i) == weights[..n];
    }
  }

  lemma {:induction false} ExplainAt(m: Model, features: map<string, Cell>, weights: Weights, grade: string -> real,
                                     i: nat)
    requires i < |weights|
    ensures var (name, w) := weights[i];
      var c := Get(features, name);
      WoeScorecards.Explain(m, features, weights, grade)[i]
      == Contribution(name, ShownValue(c, name, grade), Weighted(w, WoeOf(m.rules, name, c)))
  {
    hide WoeOf, Get, Weighted, ShownValue;
    if i < |weights| - 1 {
      ExplainAt(m, features, weights[..|weights| - 1], grade, i);
    }
  }

  /** `c` is what the log-odds lose when the `i`-th feature is left out, beside the borrower's own value. */
  predicate LossOf(m: Model, features: map<string, Cell>, grade: string -> real, i: nat, c: Contribution)
    requires i < |m.weights|
  {
    && c.feature == m.weights[i].0
    && c.shap == LogOdds(m, features, m.weights) - LogOdds(m, features, Without(m.weights, i))
    && c.value == match Get(features, c.feature) case Missing => 0.0 case Number(v) => v case Text => grade(c.feature)
  }

  lemma {:induction false} ExplainLoss(m: Model, features: map<string, Cell>, grade: string -> real, i: nat)
    requires i < |m.weights|
    ensures LossOf(m, features, grade, i, WoeScorecards.Explain(m, features, m.weights, grade)[i])
  {
    ExplainAt(m, features, m.weights, grade, i);
    LogOddsWithout(m, features, m.weights, i);
    hide WoeScorecards.Explain, LogOdds, Without, WoeOf, Get, Weighted;
  }

  /** Each feature's contribution is what the log-odds lose when that feature is left out of the scorecard, and it is
      shown beside the borrower's own value, zero when missing. */
  lemma {:induction false} WoeShapleyMarginal(m: Model, features: map<string, Cell>, grade: string -> real, i: nat)
    requires i < |m.weights|
    ensures exists c ::
      c in Sort(WoeScorecards.Explain(m, features, m.weights, grade)) && LossOf(m, features, grade, i, c)
  {
    var cs := WoeScorecards.Explain(m, features, m.weights, grade);
    ExplainLoss(m, features, grade, i);
    SortMeaning(cs);
    hide WoeScorecards.Explain, LossOf, Sort;
    var c := cs[i];
    assert c in cs;
    assert c in multiset(cs);
    assert c in Sort(cs);
  }
}
