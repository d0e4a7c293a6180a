/** Weight-of-evidence binning: fitting one feature, and looking values up one by one or a column at a time. */
module Woe {
  import opened Wrappers
  import opened Rounding
  import opened Logarithm
  import opened Binning

  /** A cell of a feature column: missing, a number, or something `float()` refuses. */
  datatype Cell = Missing | Number(v: real) | Text

  /** `f"{x:.2f}"`: the sign and the rounded hundredths. */
  datatype TwoDecimals = TwoDecimals(negative: bool, hundredths: int)

  function Format2(x: real): TwoDecimals {
    TwoDecimals(x < 0.0, Round(Abs(x) * 100.0))
  }

  datatype Label = MissingLabel | Below(hi: TwoDecimals) | BelowInfinity
                 | Range(lo: TwoDecimals, hi: TwoDecimals) | AtLeast(lo: TwoDecimals)

  datatype WoEBin = WoEBin(
    lo: Option<real>, hi: Option<real>, tag: Label, count: nat, goods: nat, bads: int,
    woe: real, iv: real)
  {
    predicate Matches(c: Cell) {
      if c.Missing? then tag == MissingLabel
      else if c.Text? || tag == MissingLabel then false
      else !(lo.Some? && c.v < lo.value) && !(hi.Some? && c.v >= hi.value)
    }
  }

  datatype FeatureRule = FeatureRule(iv: real, bins: seq<WoEBin>, missingWoe: real)

  /** `np.percentile` at evenly spaced levels, and `np.median`, whatever they return. */
  datatype Stats = Stats(percentiles: (seq<real>, nat) -> seq<real>, median: seq<real> -> real)

  datatype FitError = OneClassTarget | NotNumeric

  // ---------- the sample ----------

  /** A value with its 0/1 target. */
  datatype Row = Row(cell: Cell, target: int)

  function Values(rows: seq<Row>): seq<real> {
    if rows == [] then []
    else (if rows[0].cell.Number? then [rows[0].cell.v] else []) + Values(rows[1..])
  }

  /** The values whose target is 1. */
  function GoodValues(rows: seq<Row>): seq<real> {
    if rows == [] then []
    else (if rows[0].cell.Number? && rows[0].target == 1 then [rows[0].cell.v] else []) + GoodValues(rows[1..])
  }

  function CountTarget(rows: seq<Row>, target: int): nat {
    if rows == [] then 0 else (if rows[0].target == target then 1 else 0) + CountTarget(rows[1..], target)
  }

  function CountMissing(rows: seq<Row>): nat {
    if rows == [] then 0 else (if rows[0].cell.Missing? then 1 else 0) + CountMissing(rows[1..])
  }

  function CountMissingGood(rows: seq<Row>): nat {
    if rows == [] then 0
    else (if rows[0].cell.Missing? && rows[0].target == 1 then 1 else 0) + CountMissingGood(rows[1..])
  }

  predicate AllNumeric(rows: seq<Row>) {
    forall i :: 0 <= i < |rows| ==> !rows[i].cell.Text?
  }

  // ---------- one bin ----------

  /** Laplace-smoothed share of `part` in `total`. */
  function Share(part: int, total: nat): real {
    (part as real + 0.5) / (total as real + 1.0)
  }

  /** Unrounded weight of evidence and information value of a bin. */
  function RawWoe(ln: real -> real, goods: int, bads: int, totalGoods: nat, totalBads: nat): real
    requires Share(bads, totalBads) != 0.0
  {
    ln(Share(goods, totalGoods) / Share(bads, totalBads))
  }

  function RawIv(ln: real -> real, goods: int, bads: int, totalGoods: nat, totalBads: nat): real
    requires Share(bads, totalBads) != 0.0
  {
    (Share(goods, totalGoods) - Share(bads, totalBads)) * RawWoe(ln, goods, bads, totalGoods, totalBads)
  }

  /** A sum of a half and a whole number is never zero. */
  lemma {:induction false} ShareNonzero(part: int, total: nat)
    ensures Share(part, total) != 0.0
    ensures part >= 0 ==> Share(part, total) > 0.0
  {
    var n, d := part as real + 0.5, total as real + 1.0;
    assert n != 0.0;
    var q := n / d;
    assert q * d == n;
    if part >= 0 && q <= 0.0 {
      MulMonotone(q, 0.0, d);
    }
  }

  const DECIMALS5: real := 100_000.0

  function LabelOf(lo: Cut, hi: Cut): Label {
    if lo.At? && hi.At? then Range(Format2(lo.v), Format2(hi.v))
    else if !lo.At? then (if hi.At? then Below(Format2(hi.v)) else BelowInfinity)
    else AtLeast(Format2(lo.v))
  }

  function FiniteOf(c: Cut): Option<real> {
    if c.At? then Some(c.v) else None
  }

  function MakeBin(ln: real -> real, lo: Option<real>, hi: Option<real>, tag: Label, count: nat, goods: nat,
                   totalGoods: nat, totalBads: nat): WoEBin
  {
    var bads := count as int - goods;
    ShareNonzero(bads, totalBads);
    WoEBin(lo, hi, tag, count, goods, bads,
           RoundTo(RawWoe(ln, goods, bads, totalGoods, totalBads), DECIMALS5),
           RoundTo(RawIv(ln, goods, bads, totalGoods, totalBads), DECIMALS5))
  }

  function ValueBin(ln: real -> real, rows: seq<Row>, lo: Cut, hi: Cut, totalGoods: nat, totalBads: nat): WoEBin {
    MakeBin(ln, FiniteOf(lo), FiniteOf(hi), LabelOf(lo, hi), CountIn(Values(rows), lo, hi),
            CountIn(GoodValues(rows), lo, hi), totalGoods, totalBads)
  }

  function MissingBin(ln: real -> real, rows: seq<Row>, totalGoods: nat, totalBads: nat): WoEBin {
    MakeBin(ln, None, None, MissingLabel, CountMissing(rows), CountMissingGood(rows), totalGoods, totalBads)
  }

  // ---------- a whole feature ----------

  /** Cut-offs: midpoints when there are few distinct values, quantiles otherwise, none without values. */
  function Cutoffs(values: seq<real>, maxBins: nat, stats: Stats): seq<Cut> {
    if values == [] then []
    else
      var unique := Unique(values);
      if |unique| <= maxBins && unique != [] then Between(Midpoints(unique))
      else QuantileCuts(stats.percentiles(values, maxBins), stats.median(values))
  }

  /** Bins `0 .. n` over the cut-offs. */
  function ValueBins(ln: real -> real, rows: seq<Row>, cuts: seq<Cut>, n: nat, totalGoods: nat, totalBads: nat)
    : (bins: seq<WoEBin>)
    requires n > 0 ==> n < |cuts|
    ensures |bins| == n
  {
    if n == 0 then []
    else
      ValueBins(ln, rows, cuts, n - 1, totalGoods, totalBads)
      + [ValueBin(ln, rows, cuts[n - 1], cuts[n], totalGoods, totalBads)]
  }

  /** Unrounded information value of a bin, from its counts. */
  function IvOf(ln: real -> real, b: WoEBin, totalGoods: nat, totalBads: nat): real {
    ShareNonzero(b.bads, totalBads);
    RawIv(ln, b.goods, b.bads, totalGoods, totalBads)
  }

  function SumIv(ln: real -> real, bins: seq<WoEBin>, totalGoods: nat, totalBads: nat): real {
    if bins == [] then 0.0
    else SumIv(ln, bins[..|bins| - 1], totalGoods, totalBads) + IvOf(ln, bins[|bins| - 1], totalGoods, totalBads)
  }

  function BinCount(cuts: seq<Cut>): nat {
    if cuts == [] then 0 else |cuts| - 1
  }

  /** All bins of a feature: value bins in order, then the missing bin. */
  function AllBins(ln: real -> real, rows: seq<Row>, cuts: seq<Cut>): seq<WoEBin> {
    var totalGoods, totalBads := CountTarget(rows, 1), CountTarget(rows, 0);
    ValueBins(ln, rows, cuts, BinCount(cuts), totalGoods, totalBads) + [MissingBin(ln, rows, totalGoods, totalBads)]
  }

  function FitFeature(ln: real -> real, rows: seq<Row>, maxBins: nat, stats: Stats): Result<FeatureRule, FitError> {
    var totalGoods, totalBads := CountTarget(rows, 1), CountTarget(rows, 0);
    if totalGoods == 0 || totalBads == 0 then Failure(OneClassTarget)
    else if !AllNumeric(rows) then Failure(NotNumeric)
    else
      var bins := AllBins(ln, rows, Cutoffs(Values(rows), maxBins, stats));
      Success(FeatureRule(RoundTo(SumIv(ln, bins, totalGoods, totalBads), DECIMALS5), bins, bins[|bins| - 1].woe))
  }

  /** The loop over the cut-offs. */
  method BuildValueBins(ln: real -> real, rows: seq<Row>, cuts: seq<Cut>, totalGoods: nat, totalBads: nat)
    returns (binsList: seq<WoEBin>, totalIv: real)
    ensures binsList == ValueBins(ln, rows, cuts, BinCount(cuts), totalGoods, totalBads)
    ensures totalIv == SumIv(ln, binsList, totalGoods, totalBads)
  {
    binsList := [];
    totalIv := 0.0;
    var i := 0;
    while i < |cuts| - 1
      invariant 0 <= i <= BinCount(cuts)
      invariant binsList == ValueBins(ln, rows, cuts, i, totalGoods, totalBads)
      invariant totalIv == SumIv(ln, binsList, totalGoods, totalBads)
    {
      var lo, hi := cuts[i], cuts[i + 1];
      var binCount := CountIn(Values(rows), lo, hi);
      var binGoods := CountIn(GoodValues(rows), lo, hi);
      var bin := MakeBin(ln, FiniteOf(lo), FiniteOf(hi), LabelOf(lo, hi), binCount, binGoods, totalGoods, totalBads);
      SumIvSnoc(ln, binsList, bin, totalGoods, totalBads);
      totalIv := totalIv + IvOf(ln, bin, totalGoods, totalBads);
      binsList := binsList + [bin];
      i := i + 1;
    }
  }

  /** `fit_feature`: value bins over the cut-offs, then the missing bin. */
  method FitFeatureLoop(ln: real -> real, rows: seq<Row>, maxBins: nat, stats: Stats)
    returns (r: Result<FeatureRule, FitError>)
    ensures r == FitFeature(ln, rows, maxBins, stats)
  {
    hide SumIv, IvOf, MakeBin, MissingBin, ValueBins, Cutoffs, CountTarget, AllNumeric, RoundTo, Values, ValueBin;
    var totalGoods, totalBads := CountTarget(rows, 1), CountTarget(rows, 0);
    if totalGoods == 0 || totalBads == 0 {
      return Failure(OneClassTarget);
    }
    if !AllNumeric(rows) {
      return Failure(NotNumeric);
    }
    var cuts := Cutoffs(Values(rows), maxBins, stats);
    var binsList, totalIv := BuildValueBins(ln, rows, cuts, totalGoods, totalBads);
    var missing := MissingBin(ln, rows, totalGoods, totalBads);
    SumIvSnoc(ln, binsList, missing, totalGoods, totalBads);
    totalIv := totalIv + IvOf(ln, missing, totalGoods, totalBads);
    binsList := binsList + [missing];
    r := Success(FeatureRule(RoundTo(totalIv, DECIMALS5), binsList, missing.woe));
  }

  lemma {:induction false} SumIvSnoc(ln: real -> real, bins: seq<WoEBin>, b: WoEBin, totalGoods: nat, totalBads: nat)
    ensures SumIv(ln, bins + [b], totalGoods, totalBads)
         == SumIv(ln, bins, totalGoods, totalBads) + IvOf(ln, b, totalGoods, totalBads)
  {
    assert (bins + [b])[..|bins|] == bins;
  }

  // ---------- lookup ----------

  /** First bin that is not the missing bin and matches, as a weight of evidence. */
  function FirstMatch(bins: seq<WoEBin>, v: real, otherwise: real): real {
    if bins == [] then otherwise
    else if bins[0].tag != MissingLabel && bins[0].Matches(Number(v)) then bins[0].woe
    else FirstMatch(bins[1..], v, otherwise)
  }

  function TransformValue(rule: FeatureRule, c: Cell): real {
    if c.Number? then FirstMatch(rule.bins, c.v, rule.missingWoe) else rule.missingWoe
  }

  /** `transform_value` for a fitted feature. */
  method TransformValueLoop(rule: FeatureRule, c: Cell) returns (woe: real)
    ensures woe == TransformValue(rule, c)
  {
    if !c.Number? {
      return rule.missingWoe;
    }
    var i := 0;
    while i < |rule.bins|
      invariant 0 <= i <= |rule.bins|
      invariant FirstMatch(rule.bins[i..], c.v, rule.missingWoe) == FirstMatch(rule.bins, c.v, rule.missingWoe)
    {
      var b := rule.bins[i];
      assert rule.bins[i..][1..] == rule.bins[i + 1..];
      if b.tag != MissingLabel && b.Matches(c) {
        return b.woe;
      }
      i := i + 1;
    }
    woe := rule.missingWoe;
  }

  /** The array test of the vectorised lookup. */
  predicate InMask(b: WoEBin, v: real) {
    (b.lo.Some? ==> v >= b.lo.value) && (b.hi.Some? ==> v < b.hi.value)
  }

  /** Last bin that is not the missing bin and masks `v`. */
  function LastMatch(bins: seq<WoEBin>, v: real, otherwise: real): real {
    if bins == [] then otherwise
    else
      var last := bins[|bins| - 1];
      if last.tag != MissingLabel && InMask(last, v) then last.woe
      else LastMatch(bins[..|bins| - 1], v, otherwise)
  }

  function ColumnValue(rule: FeatureRule, c: Cell, n: nat): real
    requires n <= |rule.bins|
  {
    if c.Number? then LastMatch(rule.bins[..n], c.v, rule.missingWoe) else rule.missingWoe
  }

  /** Overwrites the entries one bin masks. */
  method WriteBin(out: array<real>, series: seq<Cell>, rule: FeatureRule, k: nat)
    requires out.Length == |series| && k < |rule.bins|
    requires forall j :: 0 <= j < |series| ==> out[j] == ColumnValue(rule, series[j], k)
    modifies out
    ensures forall j :: 0 <= j < |series| ==> out[j] == ColumnValue(rule, series[j], k + 1)
  {
    var b := rule.bins[k];
    assert rule.bins[..k + 1][..k] == rule.bins[..k];
    var j := 0;
    while j < |series|
      invariant 0 <= j <= |series|
      invariant forall m :: 0 <= m < j ==> out[m] == ColumnValue(rule, series[m], k + 1)
      invariant forall m :: j <= m < |series| ==> out[m] == ColumnValue(rule, series[m], k)
    {
      if b.tag != MissingLabel && series[j].Number? && InMask(b, series[j].v) {
        out[j] := b.woe;
      }
      j := j + 1;
    }
  }

  /** `transform` on one fitted column: fill with the missing weight, then let each bin overwrite its entries.
      A cell `float()` refuses makes the conversion of the whole column fail. */
  method TransformColumn(rule: FeatureRule, series: seq<Cell>) returns (ok: bool, out: array<real>)
    ensures ok <==> forall j :: 0 <= j < |series| ==> !series[j].Text?
    ensures fresh(out)
    ensures ok ==> out.Length == |series|
    ensures ok ==> forall j :: 0 <= j < |series| ==> out[j] == ColumnValue(rule, series[j], |rule.bins|)
  {
    out := new real[|series|](_ => rule.missingWoe);
    ok := forall j :: 0 <= j < |series| ==> !series[j].Text?;
    if !ok {
      return;
    }
    var k := 0;
    while k < |rule.bins|
      invariant 0 <= k <= |rule.bins|
      invariant fresh(out) && out.Length == |series|
      invariant forall j :: 0 <= j < |series| ==> out[j] == ColumnValue(rule, series[j], k)
    {
      WriteBin(out, series, rule, k);
      k := k + 1;
    }
  }
}
