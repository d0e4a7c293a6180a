/** When the bins of a fit carry monotone weights: the promise of the transformer's own description, which nothing
    in the fit enforces. */
module WoeMonotonicity {
  import opened Wrappers
  import opened Rounding
  import opened Logarithm
  import opened Binning
  import opened Woe
  import opened WoeTheorems

  // ---------- the bins of a fit ----------

  /** A bin's weight before rounding, from its counts. */
  function RawOf(ln: real -> real, b: WoEBin, totalGoods: nat, totalBads: nat): real {
    ShareNonzero(b.bads, totalBads);
    RawWoe(ln, b.goods, b.bads, totalGoods, totalBads)
  }

  /** The bin holds at least as many borrowers as good ones, and its stored weight is the rounded raw one. */
  predicate Weighed(ln: real -> real, b: WoEBin, totalGoods: nat, totalBads: nat) {
    b.bads >= 0 && b.woe == RoundTo(RawOf(ln, b, totalGoods, totalBads), DECIMALS5)
  }

  lemma {:induction false} MadeBinWeighed(ln: real -> real, rows: seq<Row>, lo: Cut, hi: Cut,
                                          totalGoods: nat, totalBads: nat)
    ensures Weighed(ln, ValueBin(ln, rows, lo, hi, totalGoods, totalBads), totalGoods, totalBads)
  {
    hide RoundTo, RawWoe, RawIv, Share, LabelOf, FiniteOf, CountIn, Values, GoodValues;
    GoodsWithinCount(rows, lo, hi);
  }

  /** Every value bin of every fit is weighed by the sample's own totals. */
  lemma {:induction false} FitWeighed(ln: real -> real, rows: seq<Row>, maxBins: nat, stats: Stats, i: nat)
    requires FitFeature(ln, rows, maxBins, stats).Success?
    requires i < |FitFeature(ln, rows, maxBins, stats).value.bins| - 1
    ensures Weighed(ln, FitFeature(ln, rows, maxBins, stats).value.bins[i], CountTarget(rows, 1), CountTarget(rows, 0))
  {
    var cuts := Cutoffs(Values(rows), maxBins, stats);
    assert FitFeature(ln, rows, maxBins, stats).value.bins == AllBins(ln, rows, cuts);
    assert i < BinCount(cuts);
    hide FitFeature, AllBins, Cutoffs, ValueBin, Weighed, CountTarget;
    AllBinsAt(ln, rows, cuts, i);
    MadeBinWeighed(ln, rows, cuts[i], cuts[i + 1], CountTarget(rows, 1), CountTarget(rows, 0));
  }

  // ---------- ratios and weights ----------

  /** Bin `b` has a smaller smoothed good-to-bad ratio than bin `c`, cross-multiplied. */
  predicate RatioLess(b: WoEBin, c: WoEBin, totalGoods: nat, totalBads: nat) {
    Share(b.goods, totalGoods) * Share(c.bads, totalBads) < Share(c.goods, totalGoods) * Share(b.bads, totalBads)
  }

  lemma {:induction false} ShareOrder(ln: real -> real, p1: real, q1: real, p2: real, q2: real)
    requires IsLn(ln) && p1 > 0.0 && q1 > 0.0 && p2 > 0.0 && q2 > 0.0
    ensures ln(p1 / q1) < ln(p2 / q2) <==> p1 * q2 < p2 * q1
  {
    LnQuotient(ln, p1, q1);
    LnQuotient(ln, p2, q2);
    LnOrder(ln, p1 / q1, p2 / q2);
    RatioOrder(p1, q1, p2, q2);
  }

  /** Before rounding one bin weighs less than another exactly when its ratio is the smaller. */
  lemma {:induction false} RawOrder(ln: real -> real, b: WoEBin, c: WoEBin, totalGoods: nat, totalBads: nat)
    requires IsLn(ln) && b.bads >= 0 && c.bads >= 0
    ensures RawOf(ln, b, totalGoods, totalBads) < RawOf(ln, c, totalGoods, totalBads)
       <==> RatioLess(b, c, totalGoods, totalBads)
  {
    hide Share, IsLn;
    ShareNonzero(b.goods, totalGoods);
    ShareNonzero(b.bads, totalBads);
    ShareNonzero(c.goods, totalGoods);
    ShareNonzero(c.bads, totalBads);
    ShareOrder(ln, Share(b.goods, totalGoods), Share(b.bads, totalBads),
               Share(c.goods, totalGoods), Share(c.bads, totalBads));
  }

  /** In every fit, for any two value bins: the raw weights are ordered exactly as the ratios are, and the stored
      weights never against them. */
  lemma {:induction false} WoeOrder(ln: real -> real, rows: seq<Row>, maxBins: nat, stats: Stats, i: nat, j: nat)
    requires IsLn(ln) && FitFeature(ln, rows, maxBins, stats).Success?
    requires var n := |FitFeature(ln, rows, maxBins, stats).value.bins| - 1; i < n && j < n
    ensures var bins := FitFeature(ln, rows, maxBins, stats).value.bins;
      var totalGoods, totalBads := CountTarget(rows, 1), CountTarget(rows, 0);
      && (RawOf(ln, bins[i], totalGoods, totalBads) < RawOf(ln, bins[j], totalGoods, totalBads)
          <==> RatioLess(bins[i], bins[j], totalGoods, totalBads))
      && (!RatioLess(bins[j], bins[i], totalGoods, totalBads) ==> bins[i].woe <= bins[j].woe)
  {
    FitWeighed(ln, rows, maxBins, stats, i);
    FitWeighed(ln, rows, maxBins, stats, j);
    hide FitFeature, CountTarget, IsLn, RatioLess, RawOf, RoundTo;
    var bins := FitFeature(ln, rows, maxBins, stats).value.bins;
    var totalGoods, totalBads := CountTarget(rows, 1), CountTarget(rows, 0);
    RawOrder(ln, bins[i], bins[j], totalGoods, totalBads);
    RawOrder(ln, bins[j], bins[i], totalGoods, totalBads);
    var x, y := RawOf(ln, bins[i], totalGoods, totalBads), RawOf(ln, bins[j], totalGoods, totalBads);
    if x <= y {
      RoundToMonotone(x, y, DECIMALS5);
    }
  }

  // ---------- monotone fits ----------

  /** Value bins in order, each with a ratio no smaller than those before it. */
  predicate RatiosRise(bins: seq<WoEBin>, totalGoods: nat, totalBads: nat) {
    forall i, j :: 0 <= i < j < |bins| - 1 ==> !RatioLess(bins[j], bins[i], totalGoods, totalBads)
  }

  /** Value bins in order, each weighing before rounding no less than those before it. */
  predicate RawRises(ln: real -> real, bins: seq<WoEBin>, totalGoods: nat, totalBads: nat) {
    forall i, j :: 0 <= i < j < |bins| - 1 ==>
      RawOf(ln, bins[i], totalGoods, totalBads) <= RawOf(ln, bins[j], totalGoods, totalBads)
  }

  predicate WoeRises(bins: seq<WoEBin>) {
    forall i, j :: 0 <= i < j < |bins| - 1 ==> bins[i].woe <= bins[j].woe
  }

  /** The weights of a fit rise from bin to bin, before rounding, exactly when the ratios do; and then the stored
      weights rise too. */
  lemma {:induction false} MonotoneFitIff(ln: real -> real, rows: seq<Row>, maxBins: nat, stats: Stats)
    requires IsLn(ln) && FitFeature(ln, rows, maxBins, stats).Success?
    ensures var bins := FitFeature(ln, rows, maxBins, stats).value.bins;
      var totalGoods, totalBads := CountTarget(rows, 1), CountTarget(rows, 0);
      && (RawRises(ln, bins, totalGoods, totalBads) <==> RatiosRise(bins, totalGoods, totalBads))
      && (RatiosRise(bins, totalGoods, totalBads) ==> WoeRises(bins))
  {
    hide FitFeature, CountTarget, IsLn, RatioLess, RawOf;
    var bins := FitFeature(ln, rows, maxBins, stats).value.bins;
    var totalGoods, totalBads := CountTarget(rows, 1), CountTarget(rows, 0);
    forall i, j | 0 <= i < j < |bins| - 1
      ensures RawOf(ln, bins[i], totalGoods, totalBads) <= RawOf(ln, bins[j], totalGoods, totalBads)
         <==> !RatioLess(bins[j], bins[i], totalGoods, totalBads)
      ensures !RatioLess(bins[j], bins[i], totalGoods, totalBads) ==> bins[i].woe <= bins[j].woe
    {
      WoeOrder(ln, rows, maxBins, stats, j, i);
      WoeOrder(ln, rows, maxBins, stats, i, j);
    }
  }

  lemma {:induction false} RatioOrder(p1: real, q1: real, p2: real, q2: real)
    requires q1 > 0.0 && q2 > 0.0
    ensures p1 / q1 < p2 / q2 <==> p1 * q2 < p2 * q1
  {
    var r1, r2, q := p1 / q1, p2 / q2, q1 * q2;
    assert r1 * q1 == p1 && r2 * q2 == p2;
    CrossMultiply(r1, q1, p1, q2);
    CrossMultiply(r2, q2, p2, q1);
    ProductPositive(q1, q2);
    MulMonotone(r1, r2, q);
  }

  lemma {:induction false} CrossMultiply(r: real, q: real, p: real, s: real)
    requires r * q == p
    ensures r * (q * s) == p * s
    ensures r * (s * q) == p * s
  {
  }

  lemma {:induction false} ProductPositive(a: real, b: real)
    requires a > 0.0 && b > 0.0
    ensures a * b > 0.0
  {
  }

  // ---------- a sample whose weights are not monotone ----------

  /** A good borrower at 0, a bad one at 1, a good one at 2. */
  const SAMPLE: seq<Row> := [Row(Number(0.0), 1), Row(Number(1.0), 0), Row(Number(2.0), 1)]

  lemma {:induction false} SampleUnique()
    ensures Unique([0.0, 1.0, 2.0]) == [0.0, 1.0, 2.0]
  {
    var a, b, c := [2.0], [1.0, 2.0], [0.0, 1.0, 2.0];
    assert Unique(a) == InsertUnique(2.0, []) == a by {
      assert a[1..] == [];
    }
    assert Unique(b) == InsertUnique(1.0, a) == b by {
      assert b[1..] == a;
    }
    assert c[1..] == b;
  }

  lemma {:induction false} SampleValues()
    ensures Values(SAMPLE) == [0.0, 1.0, 2.0] && GoodValues(SAMPLE) == [0.0, 2.0]
  {
    var a, b, c := SAMPLE[0], SAMPLE[1], SAMPLE[2];
    var last, tail := [c], [b, c];
    assert SAMPLE[1..] == tail && tail[1..] == last && last[1..] == [];
    assert Values(last) == [2.0] && GoodValues(last) == [2.0] by {
      assert Values(last[1..]) == [] && GoodValues(last[1..]) == [];
    }
    assert GoodValues(tail) == GoodValues(last);
    assert Values(tail) == [1.0] + Values(last);
  }

  lemma {:induction false} SampleCuts(stats: Stats)
    ensures Cutoffs(Values(SAMPLE), 3, stats) == [NegInf, At(0.5), At(1.5), PosInf]
  {
    SampleValues();
    SampleUnique();
    assert Midpoints([0.0, 1.0, 2.0]) == [0.5, 1.5];
  }

  /** What the sample is counted as. */
  lemma {:induction false} SampleCounts()
    ensures CountTarget(SAMPLE, 1) == 2 && CountTarget(SAMPLE, 0) == 1 && AllNumeric(SAMPLE)
  {
    var a, b, c := SAMPLE[0], SAMPLE[1], SAMPLE[2];
    assert SAMPLE[1..] == [b, c] && [b, c][1..] == [c] && [c][1..] == [];
    assert CountTarget([c], 1) == 1 && CountTarget([c], 0) == 0;
    assert CountTarget([b, c], 1) == 1 && CountTarget([b, c], 0) == 1;
  }

  lemma {:induction false} SampleBin(ln: real -> real, stats: Stats, i: nat)
    requires i < 3
    ensures FitFeature(ln, SAMPLE, 3, stats).Success?
    ensures var bins := FitFeature(ln, SAMPLE, 3, stats).value.bins;
      && |bins| == 4
      && bins[i].count == 1 && bins[i].goods == (if i == 1 then 0 else 1) && bins[i].bads == (if i == 1 then 1 else 0)
  {
    SampleCounts();
    SampleValues();
    SampleCuts(stats);
    var cuts := Cutoffs(Values(SAMPLE), 3, stats);
    var rule := FitFeature(ln, SAMPLE, 3, stats);
    assert rule.Success? && rule.value.bins == AllBins(ln, SAMPLE, cuts);
    assert |AllBins(ln, SAMPLE, cuts)| == 4;
    hide FitFeature, AllBins, Cutoffs, CountTarget, Values, GoodValues;
    AllBinsAt(ln, SAMPLE, cuts, i);
    SampleIn(i);
    BinCounted(ln, SAMPLE, cuts[i], cuts[i + 1], 2, 1);
  }

  lemma {:induction false} BinCounted(ln: real -> real, rows: seq<Row>, lo: Cut, hi: Cut,
                                      totalGoods: nat, totalBads: nat)
    ensures var b := ValueBin(ln, rows, lo, hi, totalGoods, totalBads);
      && b.count == CountIn(Values(rows), lo, hi) && b.goods == CountIn(GoodValues(rows), lo, hi)
      && b.bads == b.count - b.goods
  {
    hide RoundTo, RawWoe, RawIv, Share, LabelOf, FiniteOf, CountIn, Values, GoodValues;
  }

  lemma {:induction false} SampleIn(i: nat)
    requires i < 3
    ensures var cuts := [NegInf, At(0.5), At(1.5), PosInf];
      && CountIn([0.0, 1.0, 2.0], cuts[i], cuts[i + 1]) == 1
      && CountIn([0.0, 2.0], cuts[i], cuts[i + 1]) == if i == 1 then 0 else 1
  {
    assert [0.0, 1.0, 2.0][1..] == [1.0, 2.0] && [1.0, 2.0][1..] == [2.0] && [0.0, 2.0][1..] == [2.0];
  }

  /** The sample fits, and its stored weights fall and rise again: nothing makes bins monotone.  The logarithm of 9
      being more than one unit of the fifth decimal is all that is asked of its base. */
  lemma {:induction false} WoeCanFall(ln: real -> real, stats: Stats)
    requires IsLn(ln) && ln(9.0) > 0.00001
    ensures FitFeature(ln, SAMPLE, 3, stats).Success?
    ensures var bins := FitFeature(ln, SAMPLE, 3, stats).value.bins;
      |bins| == 4 && bins[1].woe < bins[0].woe && bins[1].woe < bins[2].woe && !WoeRises(bins)
  {
    SampleBin(ln, stats, 0);
    SampleBin(ln, stats, 1);
    SampleBin(ln, stats, 2);
    SampleCounts();
    FitWeighed(ln, SAMPLE, 3, stats, 0);
    FitWeighed(ln, SAMPLE, 3, stats, 1);
    FitWeighed(ln, SAMPLE, 3, stats, 2);
    hide FitFeature, IsLn, CountTarget, RoundTo;
    SampleRaw(ln);
    RoundApart(RawWoeOf(ln, 0, 1), RawWoeOf(ln, 1, 0));
  }

  function RawWoeOf(ln: real -> real, goods: nat, bads: nat): real {
    ShareNonzero(bads, 1);
    RawWoe(ln, goods, bads, 2, 1)
  }

  lemma {:induction false} SampleRaw(ln: real -> real)
    requires IsLn(ln)
    ensures RawWoeOf(ln, 1, 0) - RawWoeOf(ln, 0, 1) == ln(9.0)
  {
    var x, y := Share(1, 2) / Share(0, 1), Share(0, 2) / Share(1, 1);
    assert x == 2.0 && y == 2.0 / 9.0;
    LnQuotient(ln, x, y);
    assert x / y == 9.0;
  }

  lemma {:induction false} RoundApart(x: real, y: real)
    requires y - x > 0.00001
    ensures RoundTo(x, DECIMALS5) < RoundTo(y, DECIMALS5)
  {
    RoundNear(x * DECIMALS5);
    RoundNear(y * DECIMALS5);
  }
}
