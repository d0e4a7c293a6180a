/** What a stability report says: its tiers, its bins, and how the index comes from them. */
module DriftMeaning {
  import opened Wrappers
  import opened Rounding
  import opened Sequences
  import opened Logarithm
  import opened Binning
  import opened Woe
  import opened Drift

  // ---------- the tiers ----------

  function Severity(s: Status): nat {
    match s
    case Stable => 0
    case ModerateDrift => 1
    case SevereDrift => 2
  }

  /** A larger index is never called less drifted; drift starts at 0.10 and is severe from 0.25 on, and the colour goes
      with it. */
  lemma {:induction false} TiersRise(x: real, y: real)
    requires x <= y
    ensures Severity(DriftStatus(x).0) <= Severity(DriftStatus(y).0)
    ensures Severity(DriftStatus(x).0) == (if x >= 0.25 then 2 else if x >= 0.1 then 1 else 0)
    ensures DriftStatus(x).1 == [Green, Amber, Red][Severity(DriftStatus(x).0)]
  {
  }

  // ---------- the bins ----------

  /** A share, but never less than the floor. */
  predicate Floored(p: real, count: nat, total: nat, minProb: real)
    requires total > 0
  {
    && p >= count as real / total as real && p >= minProb
    && (p == count as real / total as real || p == minProb)
  }

  /** The stored bin counts both samples between its cuts and stores the rounded floored shares and their term. */
  ghost predicate TrueBin(ln: real -> real, exp: seq<real>, act: seq<real>, minProb: real, lo: Cut, hi: Cut, b: PsiBin)
    requires exp != [] && act != []
  {
    && b.expectedCount == CountIn(exp, lo, hi) && b.actualCount == CountIn(act, lo, hi)
    && b.lower == (if lo.At? then lo.v else MinOf(exp)) && b.upper == (if hi.At? then hi.v else MaxOf(exp))
    && exists e, a :: SharesOf(ln, exp, act, minProb, b, e, a)
  }

  /** `e` and `a` are the shares the bin was computed from. */
  predicate SharesOf(ln: real -> real, exp: seq<real>, act: seq<real>, minProb: real, b: PsiBin, e: real, a: real)
    requires exp != [] && act != []
  {
    && e > 0.0 && a > 0.0
    && Floored(e, b.expectedCount, |exp|, minProb) && Floored(a, b.actualCount, |act|, minProb)
    && b.expectedPct == RoundTo(e, 100_000.0) && b.actualPct == RoundTo(a, 100_000.0)
    && b.contribution == RoundTo((a - e) * ln(a / e), 100_000.0)
  }

  lemma {:induction false} PctFloored(count: nat, total: nat, minProb: real)
    requires total > 0
    ensures Floored(Pct(count, total, minProb), count, total, minProb)
  {
  }

  lemma {:induction false} SharesOfBin(s: Setup, i: nat)
    requires s.Ok() && i + 1 < |s.cuts| && s.Positive(i)
    ensures SharesOf(s.ln, s.exp, s.act, s.minProb, s.BinAt(i), s.ExpectedPct(i), s.ActualPct(i))
  {
    PctFloored(CountIn(s.exp, s.cuts[i], s.cuts[i + 1]), |s.exp|, s.minProb);
    PctFloored(CountIn(s.act, s.cuts[i], s.cuts[i + 1]), |s.act|, s.minProb);
    hide Pct, Floored, CountIn, RoundTo;
  }

  lemma {:induction false} BinIsTrue(s: Setup, i: nat)
    requires s.Ok() && i + 1 < |s.cuts| && s.Positive(i)
    ensures TrueBin(s.ln, s.exp, s.act, s.minProb, s.cuts[i], s.cuts[i + 1], s.BinAt(i))
    ensures s.BinAt(i).index == i
  {
    SharesOfBin(s, i);
    hide SharesOf, Setup.ExpectedPct, Setup.ActualPct, Setup.TermAt, CountIn, RoundTo;
  }

  lemma {:induction false} BinsAt(s: Setup, n: nat, i: nat)
    requires s.Ok() && n < |s.cuts| && s.FirstError(n).None? && i < n
    ensures s.Bins(n)[i] == s.BinAt(i)
  {
    hide Setup.BinAt, Setup.ErrorAt;
    if i < n - 1 {
      BinsAt(s, n - 1, i);
    }
  }

  function TotalStored(bins: seq<PsiBin>): real {
    if bins == [] then 0.0 else TotalStored(bins[..|bins| - 1]) + bins[|bins| - 1].contribution
  }

  lemma {:induction false} Round5Near(x: real)
    ensures -0.000005 <= RoundTo(x, DECIMALS5) - x <= 0.000005
  {
    RoundNear(x * DECIMALS5);
  }

  lemma {:induction false} TotalNear(s: Setup, n: nat)
    requires s.Ok() && n < |s.cuts| && s.FirstError(n).None?
    ensures -0.000005 * n as real <= TotalStored(s.Bins(n)) - s.TotalPsi(n) <= 0.000005 * n as real
  {
    if n > 0 {
      TotalNear(s, n - 1);
      assert s.BinAt(n - 1).contribution == RoundTo(s.TermAt(n - 1), DECIMALS5);
      hide Setup.BinAt, Setup.TermAt, Setup.ErrorAt, RoundTo;
      Round5Near(s.TermAt(n - 1));
      assert s.Bins(n)[..n - 1] == s.Bins(n - 1);
    }
  }

  /** A report on two samples has one bin between each two neighbouring cut-offs, in order, each true of the samples;
      its index is the sum of their contributions, up to half a unit of the fifth decimal for each bin and for the
      total. */
  lemma {:induction false} ReportMeaning(ln: real -> real, exp: seq<real>, act: seq<real>, numBins: nat, minProb: real,
                                         stats: Stats)
    requires exp != [] && act != [] && Psi(ln, exp, act, numBins, minProb, stats).Success?
    ensures var r := Psi(ln, exp, act, numBins, minProb, stats).value;
      var cuts := QuantileCuts(stats.percentiles(exp, numBins), stats.median(exp));
      && |r.bins| == |cuts| - 1
      && (forall i :: 0 <= i < |r.bins| ==>
            r.bins[i].index == i && TrueBin(ln, exp, act, minProb, cuts[i], cuts[i + 1], r.bins[i]))
      && var slack := 0.000005 * (|r.bins| + 1) as real;
        TotalStored(r.bins) - slack <= r.psi <= TotalStored(r.bins) + slack
  {
    var s := SetupOf(ln, exp, act, numBins, minProb, stats);
    var n := |s.cuts| - 1;
    var r := Psi(ln, exp, act, numBins, minProb, stats).value;
    assert s.FirstError(n).None?;
    assert r.bins == s.Bins(n) && r.psi == RoundTo(s.TotalPsi(n), DECIMALS5);
    hide Psi, QuantileCuts, TrueBin, RoundTo, Setup.Bins, Setup.TotalPsi, Setup.BinAt, TotalStored;
    forall i | 0 <= i < n
      ensures r.bins[i].index == i && TrueBin(ln, exp, act, minProb, s.cuts[i], s.cuts[i + 1], r.bins[i])
    {
      BinsAt(s, n, i);
      BinIsTrue(s, i);
    }
    TotalNear(s, n);
    Round5Near(s.TotalPsi(n));
  }
}
