/** Population and characteristic stability indices. */
module Drift {
  import opened Wrappers
  import opened Rounding
  import opened Sequences
  import opened Logarithm
  import opened Binning
  import opened Woe

  datatype Status = Stable | ModerateDrift | SevereDrift
  datatype Alert = Green | Amber | Red

  /** `get_drift_status`, the action text apart. */
  function DriftStatus(psi: real): (Status, Alert) {
    if psi < 0.10 then (Stable, Green)
    else if psi < 0.25 then (ModerateDrift, Amber)
    else (SevereDrift, Red)
  }

  datatype PsiBin = PsiBin(
    index: nat, lower: real, upper: real, expectedCount: nat, actualCount: nat,
    expectedPct: real, actualPct: real, contribution: real)

  datatype PsiResult = PsiResult(
    psi: real, status: Status, alert: Alert, numExpected: nat, numActual: nat, bins: seq<PsiBin>)

  /** The numbers of an array with NaNs left out. */
  function Present(s: seq<Option<real>>): seq<real> {
    if s == [] then [] else (if s[0].Some? then [s[0].value] else []) + Present(s[1..])
  }

  /** A bin's share of its sample, floored at `minProb`. */
  function Pct(count: nat, total: nat, minProb: real): real
    requires total > 0
  {
    var p := count as real / total as real;
    if p > minProb then p else minProb
  }

  /** The share is positive exactly when the floor is or the bin holds something, and zero otherwise. */
  lemma {:induction false} PctPositive(count: nat, total: nat, minProb: real)
    requires total > 0
    ensures Pct(count, total, minProb) >= 0.0
    ensures Pct(count, total, minProb) > 0.0 <==> minProb > 0.0 || count > 0
  {
    var p := count as real / total as real;
    assert p * total as real == count as real;
    if count > 0 && p <= 0.0 {
      MulMonotone(p, 0.0, total as real);
    }
  }

  /** One bin's index: difference of shares times the logarithm of their ratio. */
  function Term(ln: real -> real, expected: real, actual: real): real
    requires expected != 0.0
  {
    (actual - expected) * ln(actual / expected)
  }

  /** A share of zero is divided by, or its logarithm is taken. */
  datatype PsiError = ZeroDivision | LogOfZero

  /** What every bin needs: both samples, their cut-offs, the floor and the logarithm. */
  datatype Setup = Setup(ln: real -> real, exp: seq<real>, act: seq<real>, cuts: seq<Cut>, minProb: real) {
    predicate Ok() {
      exp != [] && act != []
    }

    function ExpectedPct(i: nat): (p: real)
      requires Ok() && i + 1 < |cuts|
      ensures p >= 0.0 && (minProb > 0.0 ==> p > 0.0)
    {
      PctPositive(CountIn(exp, cuts[i], cuts[i + 1]), |exp|, minProb);
      Pct(CountIn(exp, cuts[i], cuts[i + 1]), |exp|, minProb)
    }

    function ActualPct(i: nat): (p: real)
      requires Ok() && i + 1 < |cuts|
      ensures p >= 0.0 && (minProb > 0.0 ==> p > 0.0)
    {
      PctPositive(CountIn(act, cuts[i], cuts[i + 1]), |act|, minProb);
      Pct(CountIn(act, cuts[i], cuts[i + 1]), |act|, minProb)
    }

    predicate Positive(i: nat)
      requires Ok() && i + 1 < |cuts|
    {
      ExpectedPct(i) > 0.0 && ActualPct(i) > 0.0
    }

    function ErrorAt(i: nat): (e: Option<PsiError>)
      requires Ok() && i + 1 < |cuts|
      ensures e.None? <==> Positive(i)
    {
      if ExpectedPct(i) == 0.0 then Some(ZeroDivision) else if ActualPct(i) == 0.0 then Some(LogOfZero) else None
    }

    /** What the first bin that cannot be computed raises. */
    function FirstError(n: nat): (e: Option<PsiError>)
      requires Ok() && (n > 0 ==> n < |cuts|)
      ensures e.None? <==> forall i: nat :: i < n ==> Positive(i)
    {
      if n == 0 then None
      else
        var earlier := FirstError(n - 1);
        if earlier.Some? then earlier else ErrorAt(n - 1)
    }

    function TermAt(i: nat): real
      requires Ok() && i + 1 < |cuts| && Positive(i)
    {
      Term(ln, ExpectedPct(i), ActualPct(i))
    }

    function BinAt(i: nat): PsiBin
      requires Ok() && i + 1 < |cuts| && Positive(i)
    {
      var lo, hi := cuts[i], cuts[i + 1];
      PsiBin(i, if lo.At? then lo.v else MinOf(exp), if hi.At? then hi.v else MaxOf(exp),
             CountIn(exp, lo, hi), CountIn(act, lo, hi),
             RoundTo(ExpectedPct(i), DECIMALS5), RoundTo(ActualPct(i), DECIMALS5), RoundTo(TermAt(i), DECIMALS5))
    }

    function Bins(n: nat): (bins: seq<PsiBin>)
      requires Ok() && (n > 0 ==> n < |cuts|) && FirstError(n).None?
      ensures |bins| == n
    {
      if n == 0 then [] else Bins(n - 1) + [BinAt(n - 1)]
    }

    function TotalPsi(n: nat): real
      requires Ok() && (n > 0 ==> n < |cuts|) && FirstError(n).None?
    {
      if n == 0 then 0.0 else TotalPsi(n - 1) + TermAt(n - 1)
    }
  }

  function SetupOf(ln: real -> real, exp: seq<real>, act: seq<real>, numBins: nat, minProb: real, stats: Stats)
    : (s: Setup)
    ensures |s.cuts| > 0
  {
    Setup(ln, exp, act, QuantileCuts(stats.percentiles(exp, numBins), stats.median(exp)), minProb)
  }

  /** The index, or what computing it raises. */
  function Psi(ln: real -> real, exp: seq<real>, act: seq<real>, numBins: nat, minProb: real, stats: Stats)
    : (r: Result<PsiResult, PsiError>)
    ensures minProb > 0.0 ==> r.Success?
  {
    if exp == [] || act == [] then Success(PsiResult(0.0, Stable, Green, |exp|, |act|, []))
    else
      var s := SetupOf(ln, exp, act, numBins, minProb, stats);
      var n := |s.cuts| - 1;
      var error := s.FirstError(n);
      if error.Some? then Failure(error.value)
      else
        var (status, alert) := DriftStatus(s.TotalPsi(n));
        Success(PsiResult(RoundTo(s.TotalPsi(n), DECIMALS5), status, alert, |exp|, |act|, s.Bins(n)))
  }

  /** `calculate_psi`. */
  method CalculatePsi(ln: real -> real, expected: seq<Option<real>>, actual: seq<Option<real>>, numBins: nat,
                      minProb: real, stats: Stats)
    returns (r: Result<PsiResult, PsiError>)
    ensures r == Psi(ln, Present(expected), Present(actual), numBins, minProb, stats)
  {
    hide Present, RoundTo, DriftStatus, QuantileCuts;
    var exp, act := Present(expected), Present(actual);
    if |exp| == 0 || |act| == 0 {
      return Success(PsiResult(0.0, Stable, Green, |exp|, |act|, []));
    }
    var s := SetupOf(ln, exp, act, numBins, minProb, stats);
    var bins, totalPsi, error := AccumulateBins(s);
    if error.Some? {
      return Failure(error.value);
    }
    var (status, alert) := DriftStatus(totalPsi);
    r := Success(PsiResult(RoundTo(totalPsi, DECIMALS5), status, alert, |exp|, |act|, bins));
  }

  /** The loop over the bins, which stops at the first one that raises. */
  method AccumulateBins(s: Setup) returns (bins: seq<PsiBin>, totalPsi: real, error: Option<PsiError>)
    requires s.Ok() && |s.cuts| > 0
    ensures error == s.FirstError(|s.cuts| - 1)
    ensures error.None? ==> bins == s.Bins(|s.cuts| - 1) && totalPsi == s.TotalPsi(|s.cuts| - 1)
  {
    hide Setup.BinAt, Setup.TermAt, Setup.ExpectedPct, Setup.ActualPct;
    bins := [];
    totalPsi := 0.0;
    error := None;
    var i := 0;
    while i < |s.cuts| - 1
      invariant 0 <= i <= |s.cuts| - 1
      invariant error.None? && s.FirstError(i).None?
      invariant bins == s.Bins(i) && totalPsi == s.TotalPsi(i)
    {
      error := s.ErrorAt(i);
      if error.Some? {
        ErrorStays(s, i + 1, |s.cuts| - 1);
        return;
      }
      totalPsi := totalPsi + s.TermAt(i);
      bins := bins + [s.BinAt(i)];
      i := i + 1;
    }
  }

  lemma {:induction false} ErrorStays(s: Setup, i: nat, n: nat)
    requires s.Ok() && i <= n < |s.cuts| && s.FirstError(i).Some?
    ensures s.FirstError(n) == s.FirstError(i)
    decreases n
  {
    hide Setup.ErrorAt;
    if i < n {
      ErrorStays(s, i, n - 1);
    }
  }

  /** Computing the index fails exactly when the floor is not positive and some bin holds nothing of one of the two
      samples. */
  lemma {:induction false} PsiFailsIff(ln: real -> real, exp: seq<real>, act: seq<real>, numBins: nat, minProb: real,
                                       stats: Stats)
    ensures var cuts := SetupOf(ln, exp, act, numBins, minProb, stats).cuts;
      Psi(ln, exp, act, numBins, minProb, stats).Failure?
      <==> minProb <= 0.0 && exp != [] && act != [] && SomeBinEmpty(exp, act, cuts)
  {
    if exp != [] && act != [] {
      hide QuantileCuts, CountIn, Pct, RoundTo, DriftStatus;
      var s := SetupOf(ln, exp, act, numBins, minProb, stats);
      forall i: nat | i < |s.cuts| - 1
        ensures s.Positive(i) <==> minProb > 0.0 || !EmptyAt(exp, act, s.cuts, i)
      {
        PctPositive(CountIn(exp, s.cuts[i], s.cuts[i + 1]), |exp|, minProb);
        PctPositive(CountIn(act, s.cuts[i], s.cuts[i + 1]), |act|, minProb);
      }
    }
  }

  /** Bin `i` holds no value of one of the samples. */
  predicate EmptyAt(exp: seq<real>, act: seq<real>, cuts: seq<Cut>, i: nat)
    requires i + 1 < |cuts|
  {
    CountIn(exp, cuts[i], cuts[i + 1]) == 0 || CountIn(act, cuts[i], cuts[i + 1]) == 0
  }

  ghost predicate SomeBinEmpty(exp: seq<real>, act: seq<real>, cuts: seq<Cut>) {
    exists i: nat :: i < |cuts| - 1 && EmptyAt(exp, act, cuts, i)
  }

  // ---------- conservation ----------

  function SumExpected(bins: seq<PsiBin>): int {
    if bins == [] then 0 else SumExpected(bins[..|bins| - 1]) + bins[|bins| - 1].expectedCount
  }

  function SumActual(bins: seq<PsiBin>): int {
    if bins == [] then 0 else SumActual(bins[..|bins| - 1]) + bins[|bins| - 1].actualCount
  }

  lemma {:induction false} BinCounts(s: Setup, i: nat)
    requires s.Ok() && i + 1 < |s.cuts| && s.Positive(i)
    ensures s.BinAt(i).expectedCount == CountIn(s.exp, s.cuts[i], s.cuts[i + 1])
    ensures s.BinAt(i).actualCount == CountIn(s.act, s.cuts[i], s.cuts[i + 1])
  {
  }

  lemma {:induction false} SumsAreCounts(s: Setup, n: nat)
    requires s.Ok() && n < |s.cuts| && s.FirstError(n).None?
    ensures SumExpected(s.Bins(n)) == SumCounts(s.exp, s.cuts, n)
    ensures SumActual(s.Bins(n)) == SumCounts(s.act, s.cuts, n)
  {
    hide CountIn, Setup.BinAt;
    if n > 0 {
      SumsAreCounts(s, n - 1);
      BinCounts(s, n - 1);
      assert s.Bins(n)[..n - 1] == s.Bins(n - 1);
    }
  }

  /** Every expected and every actual value is counted in exactly one bin. */
  lemma {:induction false} PsiConserves(ln: real -> real, exp: seq<real>, act: seq<real>, numBins: nat,
                                        minProb: real, stats: Stats)
    requires exp != [] && act != [] && Psi(ln, exp, act, numBins, minProb, stats).Success?
    ensures var r := Psi(ln, exp, act, numBins, minProb, stats).value;
      && SumExpected(r.bins) == |exp| == r.numExpected
      && SumActual(r.bins) == |act| == r.numActual
  {
    hide Setup.Bins, Setup.TotalPsi, SumCounts, SumExpected, SumActual, RoundTo, DriftStatus, QuantileCuts;
    var s := SetupOf(ln, exp, act, numBins, minProb, stats);
    QuantileCutsValid(stats.percentiles(exp, numBins), stats.median(exp));
    SumsAreCounts(s, |s.cuts| - 1);
    CountsConserved(exp, s.cuts);
    CountsConserved(act, s.cuts);
  }

  // ---------- non-negativity ----------

  lemma {:induction false} TermNonNegative(ln: real -> real, e: real, a: real)
    requires IsLn(ln) && e > 0.0 && a > 0.0
    ensures Term(ln, e, a) >= 0.0
    ensures Term(ln, e, a) == 0.0 <==> a == e
  {
    DivergenceTerm(ln, a, e);
  }

  lemma {:induction false} TotalNonNegative(s: Setup, n: nat)
    requires IsLn(s.ln) && s.Ok() && (n > 0 ==> n < |s.cuts|) && s.FirstError(n).None?
    ensures s.TotalPsi(n) >= 0.0
    ensures s.TotalPsi(n) == 0.0 <==> forall i :: 0 <= i < n ==> s.ActualPct(i) == s.ExpectedPct(i)
  {
    hide IsLn, Setup.ActualPct, Setup.ExpectedPct, Term;
    if n > 0 {
      TotalNonNegative(s, n - 1);
      TermNonNegative(s.ln, s.ExpectedPct(n - 1), s.ActualPct(n - 1));
    }
  }

  lemma {:induction false} RoundNonNegative(x: real)
    requires x >= 0.0
    ensures RoundTo(x, DECIMALS5) >= 0.0
    ensures x == 0.0 ==> RoundTo(x, DECIMALS5) == 0.0
  {
    RoundToMonotone(0.0, x, DECIMALS5);
    RoundOfInt(0);
  }

  /** The index is never negative, and comparing a sample with itself gives zero and no alert. */
  lemma {:induction false} PsiNonNegative(ln: real -> real, exp: seq<real>, act: seq<real>, numBins: nat,
                                          minProb: real, stats: Stats)
    requires IsLn(ln) && Psi(ln, exp, act, numBins, minProb, stats).Success?
    ensures Psi(ln, exp, act, numBins, minProb, stats).value.psi >= 0.0
    ensures act == exp ==>
      var r := Psi(ln, exp, act, numBins, minProb, stats).value;
      r.psi == 0.0 && r.status == Stable && r.alert == Green
  {
    if exp != [] && act != [] {
      hide Setup.TotalPsi, Setup.Bins, RoundTo, QuantileCuts, IsLn;
      var s := SetupOf(ln, exp, act, numBins, minProb, stats);
      QuantileCutsValid(stats.percentiles(exp, numBins), stats.median(exp));
      TotalNonNegative(s, |s.cuts| - 1);
      RoundNonNegative(s.TotalPsi(|s.cuts| - 1));
    }
  }

  lemma {:induction false} ContributionsNonNegative(s: Setup, n: nat, i: nat)
    requires IsLn(s.ln) && s.Ok() && i < n < |s.cuts| && s.FirstError(n).None?
    ensures s.Bins(n)[i].contribution >= 0.0 && s.Bins(n)[i].index == i
  {
    hide RoundTo, IsLn, CountIn, Setup.ActualPct, Setup.ExpectedPct, Term;
    if i == n - 1 {
      TermNonNegative(s.ln, s.ExpectedPct(i), s.ActualPct(i));
      RoundNonNegative(s.TermAt(i));
    } else {
      ContributionsNonNegative(s, n - 1, i);
    }
  }

  // ---------- characteristic stability ----------

  const MIN_SAMPLES: nat := 10

  /** The floor `calculate_psi` is called with. */
  const MIN_PROB: real := 0.0001

  /** The two frames, each column coerced to numbers with the missing ones dropped, and the settings of the index. */
  datatype Frames = Frames(
    expected: map<string, seq<real>>, actual: map<string, seq<real>>,
    ln: real -> real, numBins: nat, stats: Stats)
  {
    predicate Evaluated(name: string) {
      && name in expected && name in actual
      && |expected[name]| >= MIN_SAMPLES && |actual[name]| >= MIN_SAMPLES
    }

    function PsiOf(name: string): PsiResult
      requires Evaluated(name)
    {
      Psi(ln, expected[name], actual[name], numBins, MIN_PROB, stats).value
    }
  }

  /** What the loop over the columns carries. */
  datatype Csi = Csi(features: map<string, PsiResult>, maxPsi: real, highest: Option<string>)

  function CsiStep(fr: Frames, acc: Csi, name: string): Csi {
    if !fr.Evaluated(name) then acc
    else
      var res := fr.PsiOf(name);
      if res.psi > acc.maxPsi then Csi(acc.features[name := res], res.psi, Some(name))
      else acc.(features := acc.features[name := res])
  }

  function CsiOver(fr: Frames, names: seq<string>): Csi {
    if names == [] then Csi(map[], 0.0, None)
    else CsiStep(fr, CsiOver(fr, names[..|names| - 1]), names[|names| - 1])
  }

  datatype CsiResult = CsiResult(
    overall: real, status: Status, alert: Alert, highest: Option<string>, features: map<string, PsiResult>)

  /** `calculate_csi` over the columns `names`; what the result means is `CsiMeaning`. */
  method CalculateCsi(fr: Frames, names: seq<string>) returns (r: CsiResult)
    ensures Csi(r.features, r.overall, r.highest) == CsiOver(fr, names)
    ensures (r.status, r.alert) == DriftStatus(r.overall)
  {
    hide Psi, RoundTo, DriftStatus;
    var results: map<string, PsiResult> := map[];
    var maxPsi := 0.0;
    var highest: Option<string> := None;
    var j := 0;
    while j < |names|
      invariant 0 <= j <= |names|
      invariant Csi(results, maxPsi, highest) == CsiOver(fr, names[..j])
    {
      assert names[..j + 1][..j] == names[..j];
      var name := names[j];
      if fr.Evaluated(name) {
        var res := fr.PsiOf(name);
        results := results[name := res];
        if res.psi > maxPsi {
          maxPsi := res.psi;
          highest := Some(name);
        }
      }
      j := j + 1;
    }
    assert names[..j] == names;
    var (status, alert) := DriftStatus(maxPsi);
    MaxAlreadyRounded(fr, names);
    r := CsiResult(RoundTo(maxPsi, DECIMALS5), status, alert, highest, results);
  }

  /** Exactly the evaluated columns are reported, each with its own index; the overall index is the largest of
      theirs and zero when none is positive; the named column is the first in the list to reach it. */
  lemma {:induction false} CsiMeaning(fr: Frames, names: seq<string>)
    ensures var c := CsiOver(fr, names);
      && c.features.Keys == (set n | n in names && fr.Evaluated(n))
      && (forall n :: n in c.features ==> c.features[n] == fr.PsiOf(n))
      && (forall n :: n in c.features ==> c.features[n].psi <= c.maxPsi)
      && (c.highest.None? ==> c.maxPsi == 0.0)
      && (c.highest.Some? ==> c.maxPsi > 0.0 && FirstWith(fr, names, c.highest.value, c.maxPsi))
  {
    hide Psi;
    if names != [] {
      var k := |names| - 1;
      var before := CsiOver(fr, names[..k]);
      CsiMeaning(fr, names[..k]);
      assert names == names[..k] + [names[k]];
      assert forall n :: n in names <==> n in names[..k] || n == names[k];
      if before.highest.Some? {
        ghost var i: nat :| i < k && Leads(fr, names[..k], i, before.highest.value, before.maxPsi);
        assert Leads(fr, names, i, before.highest.value, before.maxPsi);
      }
      if fr.Evaluated(names[k]) && fr.PsiOf(names[k]).psi > before.maxPsi {
        forall i | 0 <= i < k && fr.Evaluated(names[i])
          ensures fr.PsiOf(names[i]).psi < fr.PsiOf(names[k]).psi
        {
          assert names[..k][i] in before.features;
        }
        assert Leads(fr, names, k, names[k], fr.PsiOf(names[k]).psi);
      }
    }
  }

  /** Position `i` holds `name`, whose index is `psi`, and every evaluated column before it has a smaller one. */
  ghost predicate Leads(fr: Frames, names: seq<string>, i: nat, name: string, psi: real) {
    && i < |names| && names[i] == name && fr.Evaluated(name) && fr.PsiOf(name).psi == psi
    && forall j :: 0 <= j < i && fr.Evaluated(names[j]) ==> fr.PsiOf(names[j]).psi < psi
  }

  ghost predicate FirstWith(fr: Frames, names: seq<string>, name: string, psi: real) {
    exists i: nat :: i < |names| && Leads(fr, names, i, name, psi)
  }

  /** Rounding the maximum again changes nothing: it is zero or an index already rounded. */
  lemma {:induction false} MaxAlreadyRounded(fr: Frames, names: seq<string>)
    ensures RoundTo(CsiOver(fr, names).maxPsi, DECIMALS5) == CsiOver(fr, names).maxPsi
  {
    hide Psi, RoundTo;
    if names == [] {
      RoundZero();
    } else {
      var k := |names| - 1;
      MaxAlreadyRounded(fr, names[..k]);
      if fr.Evaluated(names[k]) {
        PsiAlreadyRounded(fr, names[k]);
      }
    }
  }

  lemma {:induction false} PsiAlreadyRounded(fr: Frames, name: string)
    requires fr.Evaluated(name)
    ensures RoundTo(fr.PsiOf(name).psi, DECIMALS5) == fr.PsiOf(name).psi
  {
    hide Setup.TotalPsi, Setup.Bins, QuantileCuts, DriftStatus, RoundTo;
    var s := SetupOf(fr.ln, fr.expected[name], fr.actual[name], fr.numBins, MIN_PROB, fr.stats);
    QuantileCutsValid(fr.stats.percentiles(fr.expected[name], fr.numBins), fr.stats.median(fr.expected[name]));
    RoundTwice(s.TotalPsi(|s.cuts| - 1));
  }

  lemma {:induction false} RoundZero()
    ensures RoundTo(0.0, DECIMALS5) == 0.0
  {
    RoundOfInt(0);
  }

  lemma {:induction false} RoundTwice(x: real)
    ensures RoundTo(RoundTo(x, DECIMALS5), DECIMALS5) == RoundTo(x, DECIMALS5)
  {
    var n := Round(x * DECIMALS5);
    assert n as real / DECIMALS5 * DECIMALS5 == n as real;
    RoundOfInt(n);
  }

  /** The overall status is read off a rounded index, each feature's off the unrounded one: they disagree on a
      feature exactly when its index lies within half a rounding step below a threshold. */
  lemma {:induction false} RoundedStatusIff(x: real)
    ensures DriftStatus(RoundTo(x, DECIMALS5)) == DriftStatus(x)
       <==> !(0.099995 <= x < 0.10) && !(0.249995 <= x < 0.25)
  {
    RoundedReaches(x, 10_000);
    RoundedReaches(x, 25_000);
  }

  lemma {:induction false} RoundedReaches(x: real, n: int)
    requires n % 2 == 0
    ensures RoundTo(x, DECIMALS5) >= n as real / DECIMALS5 <==> x >= (n as real - 0.5) / DECIMALS5
  {
    assert Round(x * DECIMALS5) >= n <==> x * DECIMALS5 >= n as real - 0.5;
  }

  // ---------- the overall status against the named column's own ----------

  /** A column's index before rounding. */
  function RawPsi(fr: Frames, name: string): real
    requires fr.Evaluated(name)
  {
    var s := SetupOf(fr.ln, fr.expected[name], fr.actual[name], fr.numBins, MIN_PROB, fr.stats);
    s.TotalPsi(|s.cuts| - 1)
  }

  lemma {:induction false} PsiOfRaw(fr: Frames, name: string)
    requires fr.Evaluated(name)
    ensures var r, x := fr.PsiOf(name), RawPsi(fr, name);
      r.psi == RoundTo(x, DECIMALS5) && (r.status, r.alert) == DriftStatus(x)
  {
    hide Setup.TotalPsi, Setup.Bins, QuantileCuts, DriftStatus, RoundTo;
  }

  /** The overall status is that of the column named as drifting most, unless that column's index lies within half a
      rounding step below a threshold: then the report calls the whole more drifted than any of its columns. */
  lemma {:induction false} OverallStatusIff(fr: Frames, names: seq<string>)
    requires CsiOver(fr, names).highest.Some?
    ensures var c := CsiOver(fr, names);
      var name := c.highest.value;
      && name in c.features && fr.Evaluated(name)
      && var x := RawPsi(fr, name);
        ((c.features[name].status, c.features[name].alert) == DriftStatus(c.maxPsi)
         <==> !(0.099995 <= x < 0.10) && !(0.249995 <= x < 0.25))
  {
    hide Psi, RawPsi, DriftStatus, RoundTo, CsiOver;
    CsiMeaning(fr, names);
    var c := CsiOver(fr, names);
    var i: nat :| i < |names| && Leads(fr, names, i, c.highest.value, c.maxPsi);
    assert names[i] in names;
    PsiOfRaw(fr, c.highest.value);
    RoundedStatusIff(RawPsi(fr, c.highest.value));
  }
}
