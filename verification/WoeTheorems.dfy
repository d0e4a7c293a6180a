/** What fitting guarantees: an exact partition, agreement of the two lookups, conservation, non-negative IV. */
module WoeTheorems {
  import opened Wrappers
  import opened Rounding
  import opened Logarithm
  import opened Binning
  import opened Woe

  // ---------- the fitted bins ----------

  /** Whatever the percentiles are, the cut-offs run from minus to plus infinity, strictly increasing. */
  lemma {:induction false} CutoffsValid(values: seq<real>, maxBins: nat, stats: Stats)
    requires values != []
    ensures ValidCuts(Cutoffs(values, maxBins, stats))
  {
    var unique := Unique(values);
    UniqueMeaning(values);
    if |unique| <= maxBins && unique != [] {
      MidpointsIncreasing(unique);
      BetweenValid(Midpoints(unique));
    } else {
      QuantileCutsValid(stats.percentiles(values, maxBins), stats.median(values));
    }
  }

  lemma {:induction false} ValueBinsAt(ln: real -> real, rows: seq<Row>, cuts: seq<Cut>, n: nat,
                                       totalGoods: nat, totalBads: nat, i: nat)
    requires i < n < |cuts|
    ensures ValueBins(ln, rows, cuts, n, totalGoods, totalBads)[i]
         == ValueBin(ln, rows, cuts[i], cuts[i + 1], totalGoods, totalBads)
  {
    hide ValueBin;
    if i < n - 1 {
      ValueBinsAt(ln, rows, cuts, n - 1, totalGoods, totalBads, i);
    }
  }

  /** The bins a fit can produce: value bins over valid cut-offs, if there were values, and a missing bin. */
  ghost predicate FittedOver(rule: FeatureRule, cuts: seq<Cut>) {
    && (cuts != [] ==> ValidCuts(cuts))
    && |rule.bins| == BinCount(cuts) + 1
    && (forall i :: 0 <= i < BinCount(cuts) ==>
          && rule.bins[i].tag == LabelOf(cuts[i], cuts[i + 1])
          && rule.bins[i].lo == FiniteOf(cuts[i]) && rule.bins[i].hi == FiniteOf(cuts[i + 1]))
    && rule.bins[BinCount(cuts)].tag == MissingLabel
    && rule.bins[BinCount(cuts)].woe == rule.missingWoe
  }

  lemma {:induction false} AllBinsAt(ln: real -> real, rows: seq<Row>, cuts: seq<Cut>, i: nat)
    requires i < BinCount(cuts)
    ensures AllBins(ln, rows, cuts)[i]
         == ValueBin(ln, rows, cuts[i], cuts[i + 1], CountTarget(rows, 1), CountTarget(rows, 0))
  {
    hide ValueBin, ValueBins, MissingBin;
    ValueBinsAt(ln, rows, cuts, BinCount(cuts), CountTarget(rows, 1), CountTarget(rows, 0), i);
  }

  lemma {:induction false} AllBinsFitted(ln: real -> real, rows: seq<Row>, cuts: seq<Cut>, iv: real)
    requires cuts != [] ==> ValidCuts(cuts)
    ensures var bins := AllBins(ln, rows, cuts);
      FittedOver(FeatureRule(iv, bins, bins[|bins| - 1].woe), cuts)
  {
    hide CountIn, RoundTo, ValueBins, CountTarget, CountMissing, CountMissingGood, Values, GoodValues,
         LabelOf, FiniteOf;
    var bins := AllBins(ln, rows, cuts);
    forall i | 0 <= i < BinCount(cuts)
      ensures bins[i].tag == LabelOf(cuts[i], cuts[i + 1])
      ensures bins[i].lo == FiniteOf(cuts[i]) && bins[i].hi == FiniteOf(cuts[i + 1])
    {
      AllBinsAt(ln, rows, cuts, i);
    }
  }

  lemma {:induction false} FitIsFitted(ln: real -> real, rows: seq<Row>, maxBins: nat, stats: Stats)
    requires FitFeature(ln, rows, maxBins, stats).Success?
    ensures FittedOver(FitFeature(ln, rows, maxBins, stats).value, Cutoffs(Values(rows), maxBins, stats))
  {
    hide RoundTo, SumIv, CountTarget, Values, Cutoffs, AllBins, FittedOver;
    NoCutsWithoutValues(Values(rows), maxBins, stats);
    AllBinsFitted(ln, rows, Cutoffs(Values(rows), maxBins, stats),
                  FitFeature(ln, rows, maxBins, stats).value.iv);
  }

  lemma {:induction false} NoCutsWithoutValues(values: seq<real>, maxBins: nat, stats: Stats)
    ensures var cuts := Cutoffs(values, maxBins, stats);
      if values == [] then cuts == [] else ValidCuts(cuts)
  {
    if values != [] {
      CutoffsValid(values, maxBins, stats);
    }
  }

  // ---------- both lookups find the one matching bin ----------

  /** A number matches bin `i` exactly when it lies between that bin's cuts; the array test agrees. */
  lemma {:induction false} BinTests(rule: FeatureRule, cuts: seq<Cut>, v: real, i: nat)
    requires FittedOver(rule, cuts) && i < |rule.bins|
    ensures i == |rule.bins| - 1 ==> rule.bins[i].tag == MissingLabel && !rule.bins[i].Matches(Number(v))
    ensures i < |rule.bins| - 1 ==>
      && rule.bins[i].tag != MissingLabel
      && (rule.bins[i].Matches(Number(v)) <==> i == BinOf(cuts, v, |cuts| - 1))
      && (InMask(rule.bins[i], v) <==> i == BinOf(cuts, v, |cuts| - 1))
  {
    if i < |rule.bins| - 1 {
      ExactlyOneBin(cuts, v, i);
    }
  }

  /** Every real value matches exactly one bin of a feature fitted on at least one value. */
  lemma {:induction false} MatchesExactlyOnce(rule: FeatureRule, cuts: seq<Cut>, v: real)
    requires FittedOver(rule, cuts) && cuts != []
    ensures exists i :: 0 <= i < |rule.bins| && rule.bins[i].Matches(Number(v))
              && forall j :: 0 <= j < |rule.bins| && rule.bins[j].Matches(Number(v)) ==> j == i
  {
    var m := BinOf(cuts, v, |cuts| - 1);
    BinTests(rule, cuts, v, m);
    forall j | 0 <= j < |rule.bins| && rule.bins[j].Matches(Number(v))
      ensures j == m
    {
      BinTests(rule, cuts, v, j);
    }
  }

  /** The weight of the bin a value falls in, or the missing weight without value bins. */
  function WoeAt(rule: FeatureRule, cuts: seq<Cut>, v: real): real
    requires FittedOver(rule, cuts)
  {
    if cuts == [] then rule.missingWoe else rule.bins[BinOf(cuts, v, |cuts| - 1)].woe
  }

  lemma {:induction false} FirstMatchIs(rule: FeatureRule, cuts: seq<Cut>, v: real, k: nat)
    requires FittedOver(rule, cuts) && k <= |rule.bins|
    requires cuts != [] ==> k <= BinOf(cuts, v, |cuts| - 1)
    ensures FirstMatch(rule.bins[k..], v, rule.missingWoe) == WoeAt(rule, cuts, v)
    decreases |rule.bins| - k
  {
    if k < |rule.bins| {
      BinTests(rule, cuts, v, k);
      assert rule.bins[k..][0] == rule.bins[k] && rule.bins[k..][1..] == rule.bins[k + 1..];
      if cuts == [] || k != BinOf(cuts, v, |cuts| - 1) {
        FirstMatchIs(rule, cuts, v, k + 1);
      }
    }
  }

  lemma {:induction false} LastMatchIs(rule: FeatureRule, cuts: seq<Cut>, v: real, k: nat)
    requires FittedOver(rule, cuts) && k <= |rule.bins|
    requires cuts != [] ==> BinOf(cuts, v, |cuts| - 1) < k
    ensures LastMatch(rule.bins[..k], v, rule.missingWoe) == WoeAt(rule, cuts, v)
  {
    if k > 0 {
      BinTests(rule, cuts, v, k - 1);
      assert rule.bins[..k][..k - 1] == rule.bins[..k - 1];
      if cuts == [] || k - 1 != BinOf(cuts, v, |cuts| - 1) {
        LastMatchIs(rule, cuts, v, k - 1);
      }
    }
  }

  /** On a fitted feature the column transform, in which later bins overwrite earlier ones, agrees entry by
      entry with the scalar lookup, in which the first bin wins, missing values included. */
  lemma {:induction false} VectorisedEqualsScalar(ln: real -> real, rows: seq<Row>, maxBins: nat, stats: Stats, c: Cell)
    requires FitFeature(ln, rows, maxBins, stats).Success?
    ensures var rule := FitFeature(ln, rows, maxBins, stats).value;
      ColumnValue(rule, c, |rule.bins|) == TransformValue(rule, c)
  {
    hide FitFeature, Cutoffs;
    var rule := FitFeature(ln, rows, maxBins, stats).value;
    var cuts := Cutoffs(Values(rows), maxBins, stats);
    FitIsFitted(ln, rows, maxBins, stats);
    if c.Number? {
      FirstMatchIs(rule, cuts, c.v, 0);
      LastMatchIs(rule, cuts, c.v, |rule.bins|);
      assert rule.bins[0..] == rule.bins && rule.bins[..|rule.bins|] == rule.bins;
    }
  }

  // ---------- conservation ----------

  function SumCount(bins: seq<WoEBin>): int {
    if bins == [] then 0 else SumCount(bins[..|bins| - 1]) + bins[|bins| - 1].count
  }

  function SumGoods(bins: seq<WoEBin>): int {
    if bins == [] then 0 else SumGoods(bins[..|bins| - 1]) + bins[|bins| - 1].goods
  }

  function SumBads(bins: seq<WoEBin>): int {
    if bins == [] then 0 else SumBads(bins[..|bins| - 1]) + bins[|bins| - 1].bads
  }

  lemma {:induction false} SumsOfValueBins(ln: real -> real, rows: seq<Row>, cuts: seq<Cut>, n: nat,
                                           totalGoods: nat, totalBads: nat)
    requires n < |cuts|
    ensures var bins := ValueBins(ln, rows, cuts, n, totalGoods, totalBads);
      && SumCount(bins) == SumCounts(Values(rows), cuts, n)
      && SumGoods(bins) == SumCounts(GoodValues(rows), cuts, n)
      && SumBads(bins) == SumCount(bins) - SumGoods(bins)
  {
    if n > 0 {
      hide Values, GoodValues, CountIn, RoundTo, LabelOf;
      SumsOfValueBins(ln, rows, cuts, n - 1, totalGoods, totalBads);
      var bins := ValueBins(ln, rows, cuts, n, totalGoods, totalBads);
      assert bins[..n - 1] == ValueBins(ln, rows, cuts, n - 1, totalGoods, totalBads);
    }
  }

  lemma {:induction false} RowTotals(rows: seq<Row>)
    requires AllNumeric(rows)
    ensures |Values(rows)| + CountMissing(rows) == |rows|
    ensures |GoodValues(rows)| + CountMissingGood(rows) == CountTarget(rows, 1)
  {
    if rows != [] {
      RowTotals(rows[1..]);
    }
  }

  lemma {:induction false} BinaryTargets(rows: seq<Row>)
    ensures CountTarget(rows, 0) + CountTarget(rows, 1) <= |rows|
    ensures CountTarget(rows, 0) + CountTarget(rows, 1) == |rows|
       <==> forall i :: 0 <= i < |rows| ==> rows[i].target == 0 || rows[i].target == 1
  {
    if rows != [] {
      BinaryTargets(rows[1..]);
      assert rows == [rows[0]] + rows[1..];
    }
  }

  /** Over the bins of a fit, counts and goods sum to the sample's totals; bads do exactly when every target is
      0 or 1, because a bin's bads are whatever in it is not good. */
  lemma {:induction false} BinningConserves(ln: real -> real, rows: seq<Row>, maxBins: nat, stats: Stats)
    requires FitFeature(ln, rows, maxBins, stats).Success?
    ensures var bins := FitFeature(ln, rows, maxBins, stats).value.bins;
      && SumCount(bins) == |rows|
      && SumGoods(bins) == CountTarget(rows, 1)
      && (SumBads(bins) == CountTarget(rows, 0)
          <==> forall i :: 0 <= i < |rows| ==> rows[i].target == 0 || rows[i].target == 1)
  {
    hide Cutoffs, RoundTo, SumIv, CountTarget, Values, GoodValues, AllBins, AllNumeric;
    var cuts := Cutoffs(Values(rows), maxBins, stats);
    NoCutsWithoutValues(Values(rows), maxBins, stats);
    AllBinsConserve(ln, rows, cuts);
    BinaryTargets(rows);
  }

  lemma {:induction false} SumsSnoc(bins: seq<WoEBin>, b: WoEBin)
    ensures SumCount(bins + [b]) == SumCount(bins) + b.count
    ensures SumGoods(bins + [b]) == SumGoods(bins) + b.goods
    ensures SumBads(bins + [b]) == SumBads(bins) + b.bads
  {
    assert (bins + [b])[..|bins|] == bins;
  }

  lemma {:induction false} ValueBinsConserve(ln: real -> real, rows: seq<Row>, cuts: seq<Cut>, totalGoods: nat,
                                             totalBads: nat)
    requires if Values(rows) == [] then cuts == [] else ValidCuts(cuts)
    ensures var bins := ValueBins(ln, rows, cuts, BinCount(cuts), totalGoods, totalBads);
      && SumCount(bins) == |Values(rows)|
      && SumGoods(bins) == |GoodValues(rows)|
      && SumBads(bins) == SumCount(bins) - SumGoods(bins)
  {
    hide Values, GoodValues;
    NoGoodsWithoutValues(rows);
    if cuts != [] {
      SumsOfValueBins(ln, rows, cuts, |cuts| - 1, totalGoods, totalBads);
      CountsConserved(Values(rows), cuts);
      CountsConserved(GoodValues(rows), cuts);
    }
  }

  lemma {:induction false} MissingBinCounts(ln: real -> real, rows: seq<Row>, totalGoods: nat, totalBads: nat)
    ensures var b := MissingBin(ln, rows, totalGoods, totalBads);
      b.count == CountMissing(rows) && b.goods == CountMissingGood(rows) && b.bads == b.count - b.goods
  {
  }

  lemma {:induction false} AllBinsConserve(ln: real -> real, rows: seq<Row>, cuts: seq<Cut>)
    requires AllNumeric(rows)
    requires if Values(rows) == [] then cuts == [] else ValidCuts(cuts)
    ensures SumCount(AllBins(ln, rows, cuts)) == |rows|
    ensures SumGoods(AllBins(ln, rows, cuts)) == CountTarget(rows, 1)
    ensures SumBads(AllBins(ln, rows, cuts)) == |rows| - CountTarget(rows, 1)
  {
    hide CountTarget, Values, GoodValues, CountMissing, CountMissingGood, ValueBins, MissingBin, SumCount, SumGoods,
         SumBads, AllNumeric, ValidCuts;
    var totalGoods, totalBads := CountTarget(rows, 1), CountTarget(rows, 0);
    ValueBinsConserve(ln, rows, cuts, totalGoods, totalBads);
    MissingBinCounts(ln, rows, totalGoods, totalBads);
    SumsSnoc(ValueBins(ln, rows, cuts, BinCount(cuts), totalGoods, totalBads),
             MissingBin(ln, rows, totalGoods, totalBads));
    RowTotals(rows);
  }

  lemma {:induction false} NoGoodsWithoutValues(rows: seq<Row>)
    ensures |GoodValues(rows)| <= |Values(rows)|
  {
    if rows != [] {
      NoGoodsWithoutValues(rows[1..]);
    }
  }

  // ---------- information value ----------

  lemma {:induction false} GoodsWithinCount(rows: seq<Row>, lo: Cut, hi: Cut)
    ensures CountIn(GoodValues(rows), lo, hi) <= CountIn(Values(rows), lo, hi)
    ensures CountMissingGood(rows) <= CountMissing(rows)
  {
    if rows != [] {
      GoodsWithinCount(rows[1..], lo, hi);
      CountInHead(rows, lo, hi);
    }
  }

  lemma {:induction false} CountInHead(rows: seq<Row>, lo: Cut, hi: Cut)
    requires rows != []
    ensures var r := rows[0];
      && CountIn(Values(rows), lo, hi)
         == CountIn(Values(rows[1..]), lo, hi) + (if r.cell.Number? && InBin(r.cell.v, lo, hi) then 1 else 0)
      && CountIn(GoodValues(rows), lo, hi)
         == CountIn(GoodValues(rows[1..]), lo, hi)
            + (if r.cell.Number? && r.target == 1 && InBin(r.cell.v, lo, hi) then 1 else 0)
  {
    hide InBin;
    var r := rows[0];
    var values, goods := Values(rows[1..]), GoodValues(rows[1..]);
    assert Values(rows) == if r.cell.Number? then [r.cell.v] + values else values;
    assert GoodValues(rows) == if r.cell.Number? && r.target == 1 then [r.cell.v] + goods else goods;
    CountInCons(r.cell, values, lo, hi);
    CountInCons(r.cell, goods, lo, hi);
  }

  lemma {:induction false} CountInCons(c: Cell, values: seq<real>, lo: Cut, hi: Cut)
    ensures c.Number? ==>
      CountIn([c.v] + values, lo, hi) == CountIn(values, lo, hi) + (if InBin(c.v, lo, hi) then 1 else 0)
  {
    if c.Number? {
      assert ([c.v] + values)[1..] == values;
    }
  }

  /** One bin's information value is never negative, and zero exactly when its smoothed shares agree. */
  lemma {:induction false} RawIvNonNegative(ln: real -> real, goods: nat, bads: nat, totalGoods: nat, totalBads: nat)
    requires IsLn(ln) && Share(bads, totalBads) != 0.0
    ensures RawIv(ln, goods, bads, totalGoods, totalBads) >= 0.0
    ensures RawIv(ln, goods, bads, totalGoods, totalBads) == 0.0 <==> Share(goods, totalGoods) == Share(bads, totalBads)
  {
    ShareNonzero(goods, totalGoods);
    ShareNonzero(bads, totalBads);
    DivergenceTerm(ln, Share(goods, totalGoods), Share(bads, totalBads));
  }

  lemma {:induction false} RoundNonNegative(x: real)
    requires x >= 0.0
    ensures RoundTo(x, DECIMALS5) >= 0.0
  {
    RoundToMonotone(0.0, x, DECIMALS5);
    RoundOfInt(0);
  }

  lemma {:induction false} MadeBinNonNegative(ln: real -> real, lo: Option<real>, hi: Option<real>, tag: Label,
                                              count: nat, goods: nat, totalGoods: nat, totalBads: nat)
    requires IsLn(ln) && goods <= count
    ensures var b := MakeBin(ln, lo, hi, tag, count, goods, totalGoods, totalBads);
      b.iv >= 0.0 && IvOf(ln, b, totalGoods, totalBads) >= 0.0
  {
    hide RoundTo, Share;
    ShareNonzero(count - goods, totalBads);
    RawIvNonNegative(ln, goods, count - goods, totalGoods, totalBads);
    RoundNonNegative(RawIv(ln, goods, count - goods, totalGoods, totalBads));
  }

  lemma {:induction false} ValueBinsNonNegative(ln: real -> real, rows: seq<Row>, cuts: seq<Cut>, n: nat,
                                                totalGoods: nat, totalBads: nat)
    requires IsLn(ln) && (n > 0 ==> n < |cuts|)
    ensures var bins := ValueBins(ln, rows, cuts, n, totalGoods, totalBads);
      && (forall i :: 0 <= i < n ==> bins[i].iv >= 0.0)
      && SumIv(ln, bins, totalGoods, totalBads) >= 0.0
  {
    if n > 0 {
      hide MakeBin, IvOf, Values, GoodValues, CountIn, LabelOf, FiniteOf, IsLn;
      ValueBinsNonNegative(ln, rows, cuts, n - 1, totalGoods, totalBads);
      var earlier := ValueBins(ln, rows, cuts, n - 1, totalGoods, totalBads);
      var bin := ValueBin(ln, rows, cuts[n - 1], cuts[n], totalGoods, totalBads);
      GoodsWithinCount(rows, cuts[n - 1], cuts[n]);
      MadeBinNonNegative(ln, FiniteOf(cuts[n - 1]), FiniteOf(cuts[n]), LabelOf(cuts[n - 1], cuts[n]),
                         CountIn(Values(rows), cuts[n - 1], cuts[n]), CountIn(GoodValues(rows), cuts[n - 1], cuts[n]),
                         totalGoods, totalBads);
      SumIvSnoc(ln, earlier, bin, totalGoods, totalBads);
    }
  }

  /** Every bin's information value and the feature's total are non-negative, after rounding too. */
  lemma {:induction false} IvNonNegative(ln: real -> real, rows: seq<Row>, maxBins: nat, stats: Stats)
    requires IsLn(ln) && FitFeature(ln, rows, maxBins, stats).Success?
    ensures var rule := FitFeature(ln, rows, maxBins, stats).value;
      && rule.iv >= 0.0
      && forall i :: 0 <= i < |rule.bins| ==> rule.bins[i].iv >= 0.0
  {
    hide Cutoffs, RoundTo, SumIv, IvOf, MakeBin, CountTarget, CountMissing, CountMissingGood, Values, CountIn,
         ValueBins, IsLn;
    var cuts := Cutoffs(Values(rows), maxBins, stats);
    NoCutsWithoutValues(Values(rows), maxBins, stats);
    var n, totalGoods, totalBads := BinCount(cuts), CountTarget(rows, 1), CountTarget(rows, 0);
    var missing := MissingBin(ln, rows, totalGoods, totalBads);
    ValueBinsNonNegative(ln, rows, cuts, n, totalGoods, totalBads);
    GoodsWithinCount(rows, NegInf, PosInf);
    MadeBinNonNegative(ln, None, None, MissingLabel, CountMissing(rows), CountMissingGood(rows), totalGoods, totalBads);
    SumIvSnoc(ln, ValueBins(ln, rows, cuts, n, totalGoods, totalBads), missing, totalGoods, totalBads);
    RoundNonNegative(SumIv(ln, AllBins(ln, rows, cuts), totalGoods, totalBads));
  }
}
