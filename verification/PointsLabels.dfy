/** When the two-decimal labels of the points table tell bins apart, read off the cut-offs. */
module PointsLabels {
  import opened Wrappers
  import opened Rounding
  import opened Logarithm
  import opened Binning
  import opened Woe
  import opened WoeTheorems
  import opened WoeMonotonicity
  import opened WoeScorecards
  import opened PointsTheorems

  // ---------- labels and cut-offs ----------

  /** Three consecutive finite cut-offs that print alike. */
  predicate TripleAt(cuts: seq<Cut>, i: nat) {
    && i + 2 < |cuts|
    && cuts[i].At? && cuts[i + 1].At? && cuts[i + 2].At?
    && Format2(cuts[i].v) == Format2(cuts[i + 1].v) == Format2(cuts[i + 2].v)
  }

  ghost predicate NoTriple(cuts: seq<Cut>) {
    forall i: nat :: i + 2 < |cuts| ==> !TripleAt(cuts, i)
  }

  /** What prints like both its neighbours in order prints alike. */
  lemma {:induction false} FormatBetween(x: real, y: real, z: real)
    requires x <= y <= z && Format2(x) == Format2(z)
    ensures Format2(y) == Format2(x)
  {
    hide Round;
    if x < 0.0 {
      RoundMonotone(Abs(z) * 100.0, Abs(y) * 100.0);
      RoundMonotone(Abs(y) * 100.0, Abs(x) * 100.0);
    } else {
      RoundMonotone(Abs(x) * 100.0, Abs(y) * 100.0);
      RoundMonotone(Abs(y) * 100.0, Abs(z) * 100.0);
    }
  }

  /** Two ranges that print alike enclose cut-offs that all print alike. */
  lemma {:induction false} SameRange(cuts: seq<Cut>, i: nat, j: nat)
    requires ValidCuts(cuts) && i < j < |cuts| - 1
    requires LabelOf(cuts[i], cuts[i + 1]) == LabelOf(cuts[j], cuts[j + 1])
    ensures i + 2 < |cuts| && TripleAt(cuts, i)
  {
    hide Format2;
    assert cuts[i].At? && cuts[i + 1].At? && cuts[j].At? && cuts[j + 1].At?;
    assert cuts[i + 2].At?;
    assert cuts[i].v < cuts[i + 1].v <= cuts[j].v;
    FormatBetween(cuts[i].v, cuts[i + 1].v, cuts[j].v);
    assert cuts[i + 1].v < cuts[i + 2].v <= cuts[j + 1].v;
    FormatBetween(cuts[i + 1].v, cuts[i + 2].v, cuts[j + 1].v);
  }

  /** The bins of a fitted feature have distinct labels exactly when no three consecutive finite cut-offs print
      alike: two may, since then only one range has both as its ends. */
  lemma {:induction false} LabelsDistinctIff(rule: FeatureRule, cuts: seq<Cut>)
    requires FittedOver(rule, cuts)
    ensures LabelsDistinct(rule.bins) <==> NoTriple(cuts)
  {
    hide Format2, TripleAt;
    if NoTriple(cuts) {
      forall i, j | 0 <= i < j < |rule.bins|
        ensures rule.bins[i].tag != rule.bins[j].tag
      {
        assert rule.bins[i].tag == LabelOf(cuts[i], cuts[i + 1]);
        if j == |rule.bins| - 1 {
          assert rule.bins[j].tag == MissingLabel;
        } else if rule.bins[i].tag == rule.bins[j].tag {
          assert rule.bins[j].tag == LabelOf(cuts[j], cuts[j + 1]);
          SameRange(cuts, i, j);
        }
      }
    } else {
      var i: nat :| i + 2 < |cuts| && TripleAt(cuts, i);
      TripleCollides(rule, cuts, i);
    }
  }

  lemma {:induction false} TripleCollides(rule: FeatureRule, cuts: seq<Cut>, i: nat)
    requires FittedOver(rule, cuts) && TripleAt(cuts, i)
    ensures i + 1 < |rule.bins| && rule.bins[i].tag == rule.bins[i + 1].tag
  {
    hide Format2;
  }

  /** A rule fitted over cut-offs no three of which print alike in a row. */
  ghost predicate FittedApart(rule: FeatureRule) {
    exists cuts :: FittedOver(rule, cuts) && NoTriple(cuts)
  }

  lemma {:induction false} FittedApartTabulated(m: Model, w: real, rule: FeatureRule)
    requires FittedApart(rule)
    ensures Tabulated(m, w, rule)
  {
    hide BinPoints, NoTriple, LabelOf;
    var cuts :| FittedOver(rule, cuts) && NoTriple(cuts);
    LabelsDistinctIff(rule, cuts);
  }

  /** The error bound from the cut-offs alone: with m features fitted over cut-offs no three of which print alike in
      a row, points differ from the clamped exact score by at most m / 2, whatever the weights. */
  lemma {:induction false} FittedPointsErrorBound(m: Model, features: map<string, Cell>)
    requires m.weights != [] && NamesDistinct(m.weights)
    requires forall i :: 0 <= i < |m.weights| ==> m.weights[i].0 in m.rules && FittedApart(m.rules[m.weights[i].0])
    ensures var points := ClampInt(300, 900, TotalPoints(m, PointsTable(m, m.weights), features, m.weights));
      var half := |m.weights| as real / 2.0;
      -half <= points as real - ClampReal(300.0, 900.0, ExactScore(m, features)) <= half
  {
    hide FittedApart, Tabulated, TotalPoints, PointsTable, ExactScore, NamesDistinct;
    forall i | 0 <= i < |m.weights|
      ensures Tabulated(m, m.weights[i].1, m.rules[m.weights[i].0])
    {
      FittedApartTabulated(m, m.weights[i].1, m.rules[m.weights[i].0]);
    }
    PointsErrorBound(m, features);
  }

  // ---------- a fit whose labels collide ----------

  /** Two good borrowers, then two bad ones, a thousandth apart. */
  const CLOSE: seq<Row> :=
    [Row(Number(0.0005), 1), Row(Number(0.0015), 1), Row(Number(0.0025), 0), Row(Number(0.0035), 0)]

  const CLOSE_CUTS: seq<Cut> := [NegInf, At(0.001), At(0.002), At(0.003), PosInf]

  lemma {:induction false} CloseValues()
    ensures Values(CLOSE) == [0.0005, 0.0015, 0.0025, 0.0035] && GoodValues(CLOSE) == [0.0005, 0.0015]
    ensures CountTarget(CLOSE, 1) == 2 && CountTarget(CLOSE, 0) == 2 && AllNumeric(CLOSE)
  {
    var one, two, three := [CLOSE[3]], [CLOSE[2], CLOSE[3]], [CLOSE[1], CLOSE[2], CLOSE[3]];
    assert CLOSE[1..] == three && three[1..] == two && two[1..] == one && one[1..] == [];
    assert Values(one[1..]) == [] && GoodValues(one[1..]) == [];
    assert Values(one) == [0.0035] && GoodValues(one) == [];
    assert CountTarget(one, 1) == 0 && CountTarget(one, 0) == 1;
    assert Values(two) == [0.0025] + Values(one) && GoodValues(two) == GoodValues(one);
    assert CountTarget(two, 1) == 0 && CountTarget(two, 0) == 2;
    assert Values(three) == [0.0015] + Values(two) && GoodValues(three) == [0.0015] + GoodValues(two);
    assert CountTarget(three, 1) == 1 && CountTarget(three, 0) == 2;
  }

  lemma {:induction false} CloseUnique()
    ensures Unique([0.0005, 0.0015, 0.0025, 0.0035]) == [0.0005, 0.0015, 0.0025, 0.0035]
  {
    var a, b, c, d := [0.0035], [0.0025, 0.0035], [0.0015, 0.0025, 0.0035], [0.0005, 0.0015, 0.0025, 0.0035];
    assert d[1..] == c && c[1..] == b && b[1..] == a && a[1..] == [];
    assert Unique(a) == InsertUnique(0.0035, []) == a;
    assert Unique(b) == InsertUnique(0.0025, a) == b;
    assert Unique(c) == InsertUnique(0.0015, b) == c;
  }

  lemma {:induction false} CloseFit(ln: real -> real, stats: Stats)
    ensures FitFeature(ln, CLOSE, 4, stats).Success?
    ensures FitFeature(ln, CLOSE, 4, stats).value.bins == AllBins(ln, CLOSE, CLOSE_CUTS)
    ensures FittedOver(FitFeature(ln, CLOSE, 4, stats).value, CLOSE_CUTS)
  {
    CloseValues();
    CloseUnique();
    assert Midpoints([0.0005, 0.0015, 0.0025, 0.0035]) == [0.001, 0.002, 0.003];
    assert Cutoffs(Values(CLOSE), 4, stats) == CLOSE_CUTS;
    hide AllBins, FittedOver, Unique, Midpoints, Values, GoodValues;
    FitIsFitted(ln, CLOSE, 4, stats);
  }

  /** The second and the third bin of the fit share a label, the later ones carry others. */
  lemma {:induction false} CloseTags(rule: FeatureRule)
    requires FittedOver(rule, CLOSE_CUTS)
    ensures |rule.bins| == 5 && rule.bins[1].tag == rule.bins[2].tag
    ensures rule.bins[3].tag != rule.bins[2].tag && rule.bins[4].tag != rule.bins[2].tag
  {
    CloseTriple();
    TripleCollides(rule, CLOSE_CUTS, 1);
    hide Format2, TripleAt;
  }

  /** They weigh the logarithm of 3 and its opposite. */
  lemma {:induction false} CloseWeights(ln: real -> real)
    requires IsLn(ln) && ln(3.0) >= 1.0
    ensures var bins := AllBins(ln, CLOSE, CLOSE_CUTS);
      |bins| == 5 && bins[1].woe >= 1.0 && bins[2].woe <= -1.0
  {
    CloseValues();
    CloseIn();
    hide AllBins, Values, GoodValues, CountTarget, CountIn, IsLn, ValueBin;
    AllBinsLength(ln);
    AllBinsAt(ln, CLOSE, CLOSE_CUTS, 1);
    AllBinsAt(ln, CLOSE, CLOSE_CUTS, 2);
    CloseWoe(ln, CLOSE_CUTS[1], CLOSE_CUTS[2], 1);
    CloseWoe(ln, CLOSE_CUTS[2], CLOSE_CUTS[3], 0);
  }

  lemma {:induction false} AllBinsLength(ln: real -> real)
    ensures |AllBins(ln, CLOSE, CLOSE_CUTS)| == 5
  {
  }

  lemma {:induction false} CloseTriple()
    ensures TripleAt(CLOSE_CUTS, 1)
  {
    assert Round(0.1) == 0 && Round(0.2) == 0 && Round(0.3) == 0;
  }

  lemma {:induction false} CloseIn()
    ensures CountIn([0.0005, 0.0015, 0.0025, 0.0035], At(0.001), At(0.002)) == 1
    ensures CountIn([0.0005, 0.0015, 0.0025, 0.0035], At(0.002), At(0.003)) == 1
    ensures CountIn([0.0005, 0.0015], At(0.001), At(0.002)) == 1
    ensures CountIn([0.0005, 0.0015], At(0.002), At(0.003)) == 0
  {
    var a, b, c, d := [0.0035], [0.0025, 0.0035], [0.0015, 0.0025, 0.0035], [0.0005, 0.0015, 0.0025, 0.0035];
    assert d[1..] == c && c[1..] == b && b[1..] == a && a[1..] == [];
    var e, f := [0.0015], [0.0005, 0.0015];
    assert f[1..] == e && e[1..] == [];
    assert CountIn(a, At(0.001), At(0.002)) == 0 && CountIn(a, At(0.002), At(0.003)) == 0;
    assert CountIn(b, At(0.001), At(0.002)) == 0 && CountIn(b, At(0.002), At(0.003)) == 1;
    assert CountIn(c, At(0.001), At(0.002)) == 1 && CountIn(c, At(0.002), At(0.003)) == 1;
    assert CountIn(e, At(0.001), At(0.002)) == 1 && CountIn(e, At(0.002), At(0.003)) == 0;
  }

  /** A bin of one borrower, in a sample of two good and two bad. */
  lemma {:induction false} CloseWoe(ln: real -> real, lo: Cut, hi: Cut, goods: nat)
    requires IsLn(ln) && ln(3.0) >= 1.0 && goods <= 1
    ensures CountIn(Values(CLOSE), lo, hi) == 1 && CountIn(GoodValues(CLOSE), lo, hi) == goods ==>
      var woe := ValueBin(ln, CLOSE, lo, hi, 2, 2).woe;
      if goods == 1 then woe >= 1.0 else woe <= -1.0
  {
    hide CountIn, Values, GoodValues, RoundTo, RawIv, LabelOf, FiniteOf;
    ShareNonzero(1 - goods, 2);
    var raw := RawWoe(ln, goods, 1 - goods, 2, 2);
    LnThirds(ln);
    RoundOne();
    if goods == 1 {
      assert raw == ln(3.0);
      RoundToMonotone(1.0, raw, DECIMALS5);
    } else {
      assert raw == ln(1.0 / 3.0);
      RoundToMonotone(raw, -1.0, DECIMALS5);
    }
  }

  lemma {:induction false} LnThirds(ln: real -> real)
    requires IsLn(ln)
    ensures ln(1.0 / 3.0) == -ln(3.0)
  {
    LnQuotient(ln, 1.0, 3.0);
  }

  lemma {:induction false} RoundOne()
    ensures RoundTo(1.0, DECIMALS5) == 1.0 && RoundTo(-1.0, DECIMALS5) == -1.0
  {
    RoundOfInt(100_000);
    RoundOfInt(-100_000);
  }

  /** A scorecard on that one feature. */
  function CloseModel(ln: real -> real, stats: Stats): Model
    requires FitFeature(ln, CLOSE, 4, stats).Success?
  {
    Model(map["x" := FitFeature(ln, CLOSE, 4, stats).value], 0.0, [("x", 1.0)], 20.0, 500.0)
  }

  /** Shared labels do give wrong points: the second bin's label leads to the third bin's points, at least 520 where
      its own are at most 480. */
  lemma {:induction false} LabelsCanCollide(ln: real -> real, stats: Stats)
    requires IsLn(ln) && ln(3.0) >= 1.0
    ensures FitFeature(ln, CLOSE, 4, stats).Success?
    ensures var m := CloseModel(ln, stats);
      var bins := m.rules["x"].bins;
      && |bins| == 5
      && bins[1].tag in FeatureTable(m, 1.0, bins)
      && FeatureTable(m, 1.0, bins)[bins[1].tag] >= 520
      && BinPoints(m, 1.0, bins[1].woe) <= 480
      && !TableCorrect(m, 1.0, bins)
  {
    CloseFit(ln, stats);
    CloseWeights(ln);
    var m := CloseModel(ln, stats);
    hide FitFeature, FittedOver, AllBins, IsLn, TableCorrect, FeatureTable, BinPoints;
    CloseTags(m.rules["x"]);
    WrongPoints(m, m.rules["x"].bins);
  }

  lemma {:induction false} WrongPoints(m: Model, bins: seq<WoEBin>)
    requires |m.weights| == 1 && m.intercept == 0.0 && m.factor == 20.0 && m.offset == 500.0
    requires |bins| == 5 && bins[1].tag == bins[2].tag && bins[3].tag != bins[2].tag && bins[4].tag != bins[2].tag
    requires bins[1].woe >= 1.0 && bins[2].woe <= -1.0
    ensures bins[1].tag in FeatureTable(m, 1.0, bins)
    ensures FeatureTable(m, 1.0, bins)[bins[1].tag] >= 520 && BinPoints(m, 1.0, bins[1].woe) <= 480
    ensures !TableCorrect(m, 1.0, bins)
  {
    hide FeatureTable, BinPoints;
    TableHasLast(m, 1.0, bins, 2);
    ClosePoints(m, bins[1].woe);
    ClosePoints(m, bins[2].woe);
  }

  lemma {:induction false} ClosePoints(m: Model, woe: real)
    requires |m.weights| == 1 && m.intercept == 0.0 && m.factor == 20.0 && m.offset == 500.0
    ensures woe >= 1.0 ==> BinPoints(m, 1.0, woe) <= 480
    ensures woe <= -1.0 ==> BinPoints(m, 1.0, woe) >= 520
  {
    RoundOfInt(480);
    RoundOfInt(520);
    var x := ExactPoints(m, 1.0, woe);
    assert x == 500.0 - 20.0 * woe;
    hide Round;
    if woe >= 1.0 {
      RoundMonotone(x, 480.0);
    } else if woe <= -1.0 {
      RoundMonotone(520.0, x);
    }
  }
}
