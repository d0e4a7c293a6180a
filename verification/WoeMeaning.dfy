/** What a fit stores, said over the rows of the sample: where it cuts, what each bin counts and weighs, the missing
    one included, and what a lookup answers. */
module WoeMeaning {
  import opened Wrappers
  import opened Rounding
  import opened Logarithm
  import opened Binning
  import opened Woe
  import opened WoeTheorems

  // ---------- when a fit succeeds ----------

  lemma {:induction false} SomeTarget(rows: seq<Row>, target: int)
    ensures CountTarget(rows, target) > 0 <==> exists i :: 0 <= i < |rows| && rows[i].target == target
  {
    if rows != [] {
      SomeTarget(rows[1..], target);
      assert rows == [rows[0]] + rows[1..];
      if i :| 0 <= i < |rows[1..]| && rows[1..][i].target == target {
        assert rows[i + 1].target == target;
      }
    }
  }

  /** A fit fails on a sample without a good or without a bad borrower, and only then on a cell that is no number. */
  lemma {:induction false} FitSucceedsIff(ln: real -> real, rows: seq<Row>, maxBins: nat, stats: Stats)
    ensures var r := FitFeature(ln, rows, maxBins, stats);
      var bothClasses := (exists i :: 0 <= i < |rows| && rows[i].target == 1)
                         && exists j :: 0 <= j < |rows| && rows[j].target == 0;
      && (r == Failure(OneClassTarget) <==> !bothClasses)
      && (r == Failure(NotNumeric) <==> bothClasses && exists i :: 0 <= i < |rows| && rows[i].cell.Text?)
      && (r.Success? <==> bothClasses && forall i :: 0 <= i < |rows| ==> !rows[i].cell.Text?)
  {
    hide AllBins, SumIv, RoundTo, Cutoffs, CountTarget, Values;
    SomeTarget(rows, 1);
    SomeTarget(rows, 0);
  }

  // ---------- where it cuts ----------

  /** There is one way to list a set of numbers in increasing order. */
  lemma {:induction false} OneIncreasing(u: seq<real>, w: seq<real>)
    requires Increasing(u) && Increasing(w) && forall x :: x in u <==> x in w
    ensures u == w
  {
    if u != [] {
      AlsoNonempty(u, w);
    }
    if w != [] {
      AlsoNonempty(w, u);
      FirstIsLeast(u, w[0]);
      FirstIsLeast(w, u[0]);
      forall x
        ensures x in u[1..] <==> x in w[1..]
      {
        RestOf(u, x);
        RestOf(w, x);
      }
      OneIncreasing(u[1..], w[1..]);
      assert u == [u[0]] + u[1..] && w == [w[0]] + w[1..];
    }
  }

  lemma {:induction false} AlsoNonempty(u: seq<real>, w: seq<real>)
    requires u != [] && forall x :: x in u <==> x in w
    ensures w != []
  {
    var x := u[0];
    assert x in u;
  }

  lemma {:induction false} FirstIsLeast(u: seq<real>, x: real)
    requires u != [] && Increasing(u) && x in u
    ensures u[0] <= x
  {
  }

  lemma {:induction false} RestOf(u: seq<real>, x: real)
    requires u != [] && Increasing(u)
    ensures x in u[1..] <==> x in u && x != u[0]
  {
    assert u == [u[0]] + u[1..];
  }

  /** Few distinct values are cut half-way between neighbours; many at the distinct percentiles apart from the first
      and the last, or at the median when fewer than three are distinct. */
  lemma {:induction false} CutoffsMeaning(values: seq<real>, maxBins: nat, stats: Stats, u: seq<real>, w: seq<real>)
    requires values != []
    requires Increasing(u) && forall x :: x in u <==> x in values
    requires Increasing(w) && forall x :: x in w <==> x in stats.percentiles(values, maxBins)
    ensures var cuts := Cutoffs(values, maxBins, stats);
      if |u| <= maxBins then
        && |cuts| == |u| + 1 && cuts[0] == NegInf && cuts[|u|] == PosInf
        && forall i :: 0 < i < |u| ==> cuts[i] == At((u[i - 1] + u[i]) / 2.0)
      else if |w| < 3 then cuts == [NegInf, At(stats.median(values)), PosInf]
      else
        && |cuts| == |w| && cuts[0] == NegInf && cuts[|w| - 1] == PosInf
        && forall i :: 0 < i < |w| - 1 ==> cuts[i] == At(w[i])
  {
    UniqueMeaning(values);
    OneIncreasing(u, Unique(values));
    UniqueMeaning(stats.percentiles(values, maxBins));
    OneIncreasing(w, Unique(stats.percentiles(values, maxBins)));
    hide Unique, Increasing;
    assert values[0] in values;
    if |u| <= maxBins {
      HalfWay(u);
    }
  }

  lemma {:induction false} HalfWay(u: seq<real>)
    requires u != []
    ensures var cuts := Between(Midpoints(u));
      && |cuts| == |u| + 1 && cuts[0] == NegInf && cuts[|u|] == PosInf
      && forall i :: 0 < i < |u| ==> cuts[i] == At((u[i - 1] + u[i]) / 2.0)
  {
    var m := Midpoints(u);
    forall i | 0 < i < |u|
      ensures m[i - 1] == (u[i - 1] + u[i]) / 2.0
    {
    }
    hide Midpoints;
  }

  // ---------- what each bin counts ----------

  /** The rows of the sample that belong in the bin. */
  function RowsIn(rows: seq<Row>, b: WoEBin): nat {
    if rows == [] then 0 else (if b.Matches(rows[0].cell) then 1 else 0) + RowsIn(rows[1..], b)
  }

  /** Those of them that turned out well. */
  function GoodRowsIn(rows: seq<Row>, b: WoEBin): nat {
    if rows == [] then 0
    else (if b.Matches(rows[0].cell) && rows[0].target == 1 then 1 else 0) + GoodRowsIn(rows[1..], b)
  }

  lemma {:induction false} CountedByCuts(rows: seq<Row>, b: WoEBin, lo: Cut, hi: Cut)
    requires b.tag != MissingLabel && b.lo == FiniteOf(lo) && b.hi == FiniteOf(hi) && !lo.PosInf? && !hi.NegInf?
    ensures CountIn(Values(rows), lo, hi) == RowsIn(rows, b)
    ensures CountIn(GoodValues(rows), lo, hi) == GoodRowsIn(rows, b)
  {
    if rows != [] {
      CountedByCuts(rows[1..], b, lo, hi);
      CountInHead(rows, lo, hi);
      var c := rows[0].cell;
      assert b.Matches(c) <==> c.Number? && InBin(c.v, lo, hi);
      hide Values, GoodValues, CountIn, InBin, WoEBin.Matches;
    }
  }

  lemma {:induction false} CountedMissing(rows: seq<Row>, b: WoEBin)
    requires b.tag == MissingLabel
    ensures CountMissing(rows) == RowsIn(rows, b) && CountMissingGood(rows) == GoodRowsIn(rows, b)
  {
    if rows != [] {
      CountedMissing(rows[1..], b);
    }
  }

  lemma {:induction false} GoodRowsWithin(rows: seq<Row>, b: WoEBin)
    ensures GoodRowsIn(rows, b) <= RowsIn(rows, b)
  {
    if rows != [] {
      GoodRowsWithin(rows[1..], b);
    }
  }

  /** A share with half a borrower added, so that no share is zero. */
  function Smoothed(part: nat, total: nat): (share: real)
    ensures share > 0.0
  {
    ShareNonzero(part, total);
    (part as real + 0.5) / (total as real + 1.0)
  }

  /** The logarithm of the good share over the bad one, to five decimals. */
  function StoredWoe(ln: real -> real, goods: nat, bads: nat, totalGoods: nat, totalBads: nat): real {
    RoundTo(ln(Smoothed(goods, totalGoods) / Smoothed(bads, totalBads)), 100_000.0)
  }

  /** How far two shares are apart: the logarithm of their quotient times their difference. */
  function Divergence(ln: real -> real, good: real, bad: real): real
    requires bad > 0.0
  {
    (good - bad) * ln(good / bad)
  }

  /** The divergence of the good share from the bad one, to five decimals. */
  function StoredIv(ln: real -> real, goods: nat, bads: nat, totalGoods: nat, totalBads: nat): real {
    RoundTo(Divergence(ln, Smoothed(goods, totalGoods), Smoothed(bads, totalBads)), 100_000.0)
  }

  /** The stored weight and information value are those of the stored counts. */
  predicate WeighedBy(ln: real -> real, b: WoEBin, totalGoods: nat, totalBads: nat)
    requires b.bads >= 0
  {
    && b.woe == StoredWoe(ln, b.goods, b.bads, totalGoods, totalBads)
    && b.iv == StoredIv(ln, b.goods, b.bads, totalGoods, totalBads)
  }

  /** The bin holds what the sample has for it. */
  ghost predicate TrueBin(ln: real -> real, rows: seq<Row>, b: WoEBin) {
    && b.count == RowsIn(rows, b) && b.goods == GoodRowsIn(rows, b) && b.bads == b.count - b.goods >= 0
    && WeighedBy(ln, b, CountTarget(rows, 1), CountTarget(rows, 0))
  }

  lemma {:induction false} RoundedRaw(ln: real -> real, goods: nat, bads: nat, totalGoods: nat, totalBads: nat)
    requires Share(bads, totalBads) != 0.0
    ensures RoundTo(RawWoe(ln, goods, bads, totalGoods, totalBads), DECIMALS5)
         == StoredWoe(ln, goods, bads, totalGoods, totalBads)
    ensures RoundTo(RawIv(ln, goods, bads, totalGoods, totalBads), DECIMALS5)
         == StoredIv(ln, goods, bads, totalGoods, totalBads)
  {
    var good, bad := Smoothed(goods, totalGoods), Smoothed(bads, totalBads);
    assert Share(goods, totalGoods) == good && Share(bads, totalBads) == bad;
    var woe := ln(good / bad);
    hide RoundTo, Share, Smoothed;
    assert RawWoe(ln, goods, bads, totalGoods, totalBads) == woe;
    assert StoredWoe(ln, goods, bads, totalGoods, totalBads) == RoundTo(woe, DECIMALS5);
    hide RawWoe, StoredWoe;
    assert RawIv(ln, goods, bads, totalGoods, totalBads) == Divergence(ln, good, bad);
  }

  lemma {:induction false} MadeBinWeighedBy(ln: real -> real, lo: Option<real>, hi: Option<real>, tag: Label,
                                            count: nat, goods: nat, totalGoods: nat, totalBads: nat)
    requires goods <= count
    ensures var b := MakeBin(ln, lo, hi, tag, count, goods, totalGoods, totalBads);
      && b.lo == lo && b.hi == hi && b.tag == tag && b.count == count && b.goods == goods && b.bads == count - goods
      && WeighedBy(ln, b, totalGoods, totalBads)
  {
    ShareNonzero(count - goods, totalBads);
    RoundedRaw(ln, goods, count - goods, totalGoods, totalBads);
    hide RoundTo, Share, RawWoe, RawIv, StoredWoe, StoredIv;
  }

  lemma {:induction false} ValueBinTrue(ln: real -> real, rows: seq<Row>, lo: Cut, hi: Cut)
    requires !lo.PosInf? && !hi.NegInf?
    ensures TrueBin(ln, rows, ValueBin(ln, rows, lo, hi, CountTarget(rows, 1), CountTarget(rows, 0)))
  {
    GoodsWithinCount(rows, lo, hi);
    assert LabelOf(lo, hi) != MissingLabel;
    var totalGoods, totalBads := CountTarget(rows, 1), CountTarget(rows, 0);
    var b := ValueBin(ln, rows, lo, hi, totalGoods, totalBads);
    hide MakeBin, WeighedBy, CountIn, Values, GoodValues, CountTarget, LabelOf, FiniteOf, RowsIn, GoodRowsIn;
    MadeBinWeighedBy(ln, FiniteOf(lo), FiniteOf(hi), LabelOf(lo, hi), CountIn(Values(rows), lo, hi),
                     CountIn(GoodValues(rows), lo, hi), totalGoods, totalBads);
    CountedByCuts(rows, b, lo, hi);
  }

  lemma {:induction false} MissingBinTrue(ln: real -> real, rows: seq<Row>)
    ensures TrueBin(ln, rows, MissingBin(ln, rows, CountTarget(rows, 1), CountTarget(rows, 0)))
  {
    GoodsWithinCount(rows, NegInf, PosInf);
    var totalGoods, totalBads := CountTarget(rows, 1), CountTarget(rows, 0);
    var b := MissingBin(ln, rows, totalGoods, totalBads);
    hide MakeBin, WeighedBy, CountMissing, CountMissingGood, CountTarget, RowsIn, GoodRowsIn;
    MadeBinWeighedBy(ln, None, None, MissingLabel, CountMissing(rows), CountMissingGood(rows), totalGoods, totalBads);
    CountedMissing(rows, b);
  }

  lemma {:induction false} LastBin(ln: real -> real, rows: seq<Row>, cuts: seq<Cut>)
    ensures var bins := AllBins(ln, rows, cuts);
      && |bins| == BinCount(cuts) + 1
      && bins[|bins| - 1] == MissingBin(ln, rows, CountTarget(rows, 1), CountTarget(rows, 0))
  {
    hide ValueBins, MissingBin, CountTarget;
  }

  /** Every bin of every fit, the missing one included, counts the rows that belong in it and the good ones among
      them, and stores the rounded weight and information value of those counts. */
  lemma {:induction false} FitCounts(ln: real -> real, rows: seq<Row>, maxBins: nat, stats: Stats, i: nat)
    requires FitFeature(ln, rows, maxBins, stats).Success?
    requires i < |FitFeature(ln, rows, maxBins, stats).value.bins|
    ensures TrueBin(ln, rows, FitFeature(ln, rows, maxBins, stats).value.bins[i])
  {
    var cuts := Cutoffs(Values(rows), maxBins, stats);
    assert FitFeature(ln, rows, maxBins, stats).value.bins == AllBins(ln, rows, cuts);
    NoCutsWithoutValues(Values(rows), maxBins, stats);
    hide FitFeature, AllBins, Cutoffs, ValueBin, MissingBin, TrueBin, CountTarget;
    LastBin(ln, rows, cuts);
    if i < BinCount(cuts) {
      AllBinsAt(ln, rows, cuts, i);
      ValueBinTrue(ln, rows, cuts[i], cuts[i + 1]);
    } else {
      MissingBinTrue(ln, rows);
    }
  }

  // ---------- what a label says ----------

  /** The sign and the hundredths nearest to a number. */
  predicate Prints(t: TwoDecimals, x: real) {
    (t.negative <==> x < 0.0) && -0.5 <= t.hundredths as real - 100.0 * Abs(x) <= 0.5
  }

  lemma {:induction false} Format2Prints(x: real)
    ensures Prints(Format2(x), x)
  {
    RoundNear(Abs(x) * 100.0);
  }

  /** The label of every bin of a fit prints its two ends, and only the last bin is the missing one. */
  lemma {:induction false} FitLabels(ln: real -> real, rows: seq<Row>, maxBins: nat, stats: Stats, i: nat)
    requires FitFeature(ln, rows, maxBins, stats).Success?
    requires i < |FitFeature(ln, rows, maxBins, stats).value.bins|
    ensures var bins := FitFeature(ln, rows, maxBins, stats).value.bins;
      var b := bins[i];
      match b.tag
      case MissingLabel => i == |bins| - 1
      case Below(h) => b.lo == None && b.hi.Some? && Prints(h, b.hi.value)
      case BelowInfinity => b.lo == None && b.hi == None && i < |bins| - 1
      case Range(l, h) => b.lo.Some? && Prints(l, b.lo.value) && b.hi.Some? && Prints(h, b.hi.value)
      case AtLeast(l) => b.lo.Some? && Prints(l, b.lo.value) && b.hi == None
  {
    FitIsFitted(ln, rows, maxBins, stats);
    hide FitFeature, Cutoffs, Values;
    var cuts := Cutoffs(Values(rows), maxBins, stats);
    var rule := FitFeature(ln, rows, maxBins, stats).value;
    if i < BinCount(cuts) {
      if cuts[i].At? {
        Format2Prints(cuts[i].v);
      }
      if cuts[i + 1].At? {
        Format2Prints(cuts[i + 1].v);
      }
      hide Format2, Prints;
      assert rule.bins[i].tag == LabelOf(cuts[i], cuts[i + 1]);
    }
  }

  // ---------- what a lookup answers ----------

  /** The weight stored for missing values is the rounded logarithm of the smoothed share of good borrowers that are
      missing over that of bad ones. */
  lemma {:induction false} MissingWeight(ln: real -> real, rows: seq<Row>, maxBins: nat, stats: Stats)
    requires FitFeature(ln, rows, maxBins, stats).Success?
    ensures CountMissingGood(rows) <= CountMissing(rows)
    ensures FitFeature(ln, rows, maxBins, stats).value.missingWoe
         == StoredWoe(ln, CountMissingGood(rows), CountMissing(rows) - CountMissingGood(rows), CountTarget(rows, 1),
                      CountTarget(rows, 0))
  {
    FitIsFitted(ln, rows, maxBins, stats);
    GoodsWithinCount(rows, NegInf, PosInf);
    hide FitFeature, StoredWoe, CountTarget, CountMissing, CountMissingGood, Cutoffs, RowsIn, GoodRowsIn;
    var rule := FitFeature(ln, rows, maxBins, stats).value;
    var last := |rule.bins| - 1;
    FitCounts(ln, rows, maxBins, stats, last);
    CountedMissing(rows, rule.bins[last]);
  }

  /** A lookup answers the weight of the bin a cell matches.  A number or a missing value matches one, unless it is a
      number and the sample had none; whatever matches none gets the weight of the missing bin. */
  lemma {:induction false} LookupMeaning(ln: real -> real, rows: seq<Row>, maxBins: nat, stats: Stats, c: Cell)
    requires FitFeature(ln, rows, maxBins, stats).Success?
    ensures var rule := FitFeature(ln, rows, maxBins, stats).value;
      && (forall i :: 0 <= i < |rule.bins| && rule.bins[i].Matches(c) ==> TransformValue(rule, c) == rule.bins[i].woe)
      && ((exists i :: 0 <= i < |rule.bins| && rule.bins[i].Matches(c))
          <==> c.Missing? || (c.Number? && Values(rows) != []))
      && ((forall i :: 0 <= i < |rule.bins| ==> !rule.bins[i].Matches(c)) || c.Missing? ==>
            TransformValue(rule, c) == rule.missingWoe)
  {
    NoCutsWithoutValues(Values(rows), maxBins, stats);
    FitIsFitted(ln, rows, maxBins, stats);
    hide FitFeature, Cutoffs, Values;
    var rule := FitFeature(ln, rows, maxBins, stats).value;
    var cuts := Cutoffs(Values(rows), maxBins, stats);
    LookupOver(rule, cuts, c);
  }

  lemma {:induction false} LookupOver(rule: FeatureRule, cuts: seq<Cut>, c: Cell)
    requires FittedOver(rule, cuts)
    ensures forall i :: 0 <= i < |rule.bins| && rule.bins[i].Matches(c) ==> TransformValue(rule, c) == rule.bins[i].woe
    ensures (exists i :: 0 <= i < |rule.bins| && rule.bins[i].Matches(c)) <==> c.Missing? || (c.Number? && cuts != [])
    ensures (forall i :: 0 <= i < |rule.bins| ==> !rule.bins[i].Matches(c)) || c.Missing? ==>
              TransformValue(rule, c) == rule.missingWoe
  {
    if c.Number? {
      FirstMatchIs(rule, cuts, c.v, 0);
      assert rule.bins[0..] == rule.bins;
      hide FirstMatch, FittedOver, WoEBin.Matches;
      forall i | 0 <= i < |rule.bins|
        ensures rule.bins[i].Matches(c) <==> cuts != [] && i == BinOf(cuts, c.v, |cuts| - 1)
      {
        MatchesAt(rule, cuts, c.v, i);
      }
      ShapeOf(rule, cuts);
    } else {
      NonNumber(rule, cuts, c);
    }
  }

  lemma {:induction false} ShapeOf(rule: FeatureRule, cuts: seq<Cut>)
    requires FittedOver(rule, cuts)
    ensures |rule.bins| == BinCount(cuts) + 1 && (cuts != [] ==> |cuts| >= 2)
  {
  }

  lemma {:induction false} MatchesAt(rule: FeatureRule, cuts: seq<Cut>, v: real, i: nat)
    requires FittedOver(rule, cuts) && i < |rule.bins|
    ensures cuts != [] ==> |cuts| >= 2
    ensures rule.bins[i].Matches(Number(v)) <==> cuts != [] && i == BinOf(cuts, v, |cuts| - 1)
  {
    BinTests(rule, cuts, v, i);
  }

  lemma {:induction false} NonNumber(rule: FeatureRule, cuts: seq<Cut>, c: Cell)
    requires FittedOver(rule, cuts) && !c.Number?
    ensures forall i :: 0 <= i < |rule.bins| ==>
              (rule.bins[i].Matches(c) <==> c.Missing? && i == |rule.bins| - 1)
    ensures rule.bins[|rule.bins| - 1].woe == rule.missingWoe
  {
    forall i | 0 <= i < |rule.bins| - 1
      ensures rule.bins[i].tag != MissingLabel
    {
      assert rule.bins[i].tag == LabelOf(cuts[i], cuts[i + 1]);
    }
  }

  // ---------- the total ----------

  function TotalStored(bins: seq<WoEBin>): real {
    if bins == [] then 0.0 else TotalStored(bins[..|bins| - 1]) + bins[|bins| - 1].iv
  }

  lemma {:induction false} Round5Near(x: real)
    ensures -0.000005 <= RoundTo(x, DECIMALS5) - x <= 0.000005
  {
    RoundNear(x * DECIMALS5);
  }

  ghost predicate StoresIv(ln: real -> real, bins: seq<WoEBin>, totalGoods: nat, totalBads: nat) {
    forall i :: 0 <= i < |bins| ==> bins[i].iv == RoundTo(IvOf(ln, bins[i], totalGoods, totalBads), DECIMALS5)
  }

  lemma {:induction false} SumIvNear(ln: real -> real, bins: seq<WoEBin>, totalGoods: nat, totalBads: nat)
    requires StoresIv(ln, bins, totalGoods, totalBads)
    ensures -0.000005 * |bins| as real <= TotalStored(bins) - SumIv(ln, bins, totalGoods, totalBads)
         <= 0.000005 * |bins| as real
  {
    hide RoundTo, IvOf;
    if bins != [] {
      SumIvNear(ln, bins[..|bins| - 1], totalGoods, totalBads);
      Round5Near(IvOf(ln, bins[|bins| - 1], totalGoods, totalBads));
    }
  }

  lemma {:induction false} StoredIs(ln: real -> real, b: WoEBin, totalGoods: nat, totalBads: nat)
    requires b.bads >= 0 && WeighedBy(ln, b, totalGoods, totalBads)
    ensures b.iv == RoundTo(IvOf(ln, b, totalGoods, totalBads), DECIMALS5)
  {
    ShareNonzero(b.bads, totalBads);
    RoundedRaw(ln, b.goods, b.bads, totalGoods, totalBads);
    hide RoundTo, Share, RawWoe, RawIv, StoredWoe, StoredIv;
  }

  /** The feature's information value is the sum of those stored with its bins, up to half a unit of the fifth decimal
      for each bin and for the total. */
  lemma {:induction false} IvIsTheSum(ln: real -> real, rows: seq<Row>, maxBins: nat, stats: Stats)
    requires FitFeature(ln, rows, maxBins, stats).Success?
    ensures var rule := FitFeature(ln, rows, maxBins, stats).value;
      var slack := 0.000005 * (|rule.bins| + 1) as real;
      TotalStored(rule.bins) - slack <= rule.iv <= TotalStored(rule.bins) + slack
  {
    var rule := FitFeature(ln, rows, maxBins, stats).value;
    var totalGoods, totalBads := CountTarget(rows, 1), CountTarget(rows, 0);
    assert rule.iv == RoundTo(SumIv(ln, rule.bins, totalGoods, totalBads), DECIMALS5);
    hide FitFeature, RoundTo, SumIv, IvOf, TotalStored, CountTarget, WeighedBy;
    forall i | 0 <= i < |rule.bins|
      ensures rule.bins[i].iv == RoundTo(IvOf(ln, rule.bins[i], totalGoods, totalBads), DECIMALS5)
    {
      FitCounts(ln, rows, maxBins, stats, i);
      StoredIs(ln, rule.bins[i], totalGoods, totalBads);
    }
    SumIvNear(ln, rule.bins, totalGoods, totalBads);
    Round5Near(SumIv(ln, rule.bins, totalGoods, totalBads));
  }
}
