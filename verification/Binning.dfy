/** Cut-offs over the real line and counting by bin, shared by the WoE engine and the drift monitor. */
module Binning {

  datatype Cut = NegInf | At(v: real) | PosInf

  /** The array test of both programs: at or above the lower cut and below the upper one. */
  predicate InBin(v: real, lo: Cut, hi: Cut) {
    && (lo.NegInf? || (lo.At? && v >= lo.v))
    && (hi.PosInf? || (hi.At? && v < hi.v))
  }

  /** From minus to plus infinity with strictly increasing finite cuts in between. */
  predicate ValidCuts(cuts: seq<Cut>) {
    && |cuts| >= 2
    && cuts[0].NegInf? && cuts[|cuts| - 1].PosInf?
    && (forall i :: 0 < i < |cuts| - 1 ==> cuts[i].At?)
    && (forall i, j :: 0 < i < j < |cuts| - 1 ==> cuts[i].v < cuts[j].v)
  }

  // ---------- sorted distinct values ----------

  predicate Increasing(s: seq<real>) {
    forall i, j :: 0 <= i < j < |s| ==> s[i] < s[j]
  }

  function InsertUnique(x: real, s: seq<real>): seq<real> {
    if s == [] || x < s[0] then [x] + s
    else if x == s[0] then s
    else [s[0]] + InsertUnique(x, s[1..])
  }

  /** `np.unique`. */
  function Unique(s: seq<real>): seq<real> {
    if s == [] then [] else InsertUnique(s[0], Unique(s[1..]))
  }

  lemma {:induction false} InsertUniqueMeaning(x: real, s: seq<real>)
    requires Increasing(s)
    ensures Increasing(InsertUnique(x, s))
    ensures forall y :: y in InsertUnique(x, s) <==> y == x || y in s
  {
    if s != [] && x > s[0] {
      InsertUniqueMeaning(x, s[1..]);
      assert s == [s[0]] + s[1..];
      var tail := InsertUnique(x, s[1..]);
      forall k | 0 <= k < |tail|
        ensures s[0] < tail[k]
      {
        assert tail[k] in tail;
      }
    }
  }

  lemma {:induction false} UniqueMeaning(s: seq<real>)
    ensures Increasing(Unique(s))
    ensures forall y :: y in Unique(s) <==> y in s
  {
    if s != [] {
      UniqueMeaning(s[1..]);
      InsertUniqueMeaning(s[0], Unique(s[1..]));
      assert s == [s[0]] + s[1..];
    }
  }

  // ---------- building cut-offs ----------

  function Finite(s: seq<real>): (cuts: seq<Cut>)
    ensures |cuts| == |s| && forall i :: 0 <= i < |s| ==> cuts[i] == At(s[i])
  {
    seq(|s|, i requires 0 <= i < |s| => At(s[i]))
  }

  function Between(inner: seq<real>): seq<Cut> {
    [NegInf] + Finite(inner) + [PosInf]
  }

  /** Quantile edges with the outermost two opened to infinity, or the median alone when they collapse. */
  function QuantileCuts(edges: seq<real>, median: real): seq<Cut> {
    var u := Unique(edges);
    if |u| < 3 then Between([median]) else Between(u[1..|u| - 1])
  }

  /** Midpoints between neighbouring distinct values. */
  function Midpoints(u: seq<real>): seq<real>
    requires u != []
  {
    seq(|u| - 1, i requires 0 <= i < |u| - 1 => u[i] + (u[i + 1] - u[i]) / 2.0)
  }

  lemma {:induction false} BetweenValid(inner: seq<real>)
    requires Increasing(inner)
    ensures ValidCuts(Between(inner))
  {
  }

  lemma {:induction false} QuantileCutsValid(edges: seq<real>, median: real)
    ensures ValidCuts(QuantileCuts(edges, median))
  {
    UniqueMeaning(edges);
    var u := Unique(edges);
    BetweenValid(if |u| < 3 then [median] else u[1..|u| - 1]);
  }

  lemma {:induction false} MidpointsIncreasing(u: seq<real>)
    requires u != [] && Increasing(u)
    ensures Increasing(Midpoints(u))
    ensures forall i :: 0 <= i < |u| - 1 ==> u[i] < Midpoints(u)[i] < u[i + 1]
  {
    forall i, j | 0 <= i < j < |u| - 1
      ensures Midpoints(u)[i] < Midpoints(u)[j]
    {
      assert u[i] < u[i + 1] && u[j] < u[j + 1];
      assert i + 1 == j || u[i + 1] < u[j];
    }
  }

  // ---------- every value falls in exactly one bin ----------

  /** The bin of `v`: the last cut at or below it. */
  function BinOf(cuts: seq<Cut>, v: real, n: nat): (i: nat)
    requires 1 <= n < |cuts|
    ensures i < n
  {
    if n == 1 || InBin(v, cuts[n - 1], PosInf) then n - 1 else BinOf(cuts, v, n - 1)
  }

  lemma {:induction false} BinOfBounds(cuts: seq<Cut>, v: real, n: nat)
    requires ValidCuts(cuts) && 1 <= n < |cuts|
    requires n < |cuts| - 1 ==> v < cuts[n].v
    ensures InBin(v, cuts[BinOf(cuts, v, n)], cuts[BinOf(cuts, v, n) + 1])
  {
    if n > 1 && !InBin(v, cuts[n - 1], PosInf) {
      BinOfBounds(cuts, v, n - 1);
    }
  }

  /** Each real value satisfies the test of exactly one bin. */
  lemma {:induction false} ExactlyOneBin(cuts: seq<Cut>, v: real, i: nat)
    requires ValidCuts(cuts) && i < |cuts| - 1
    ensures InBin(v, cuts[i], cuts[i + 1]) <==> i == BinOf(cuts, v, |cuts| - 1)
  {
    BinOfBounds(cuts, v, |cuts| - 1);
  }

  // ---------- counting ----------

  function CountIn(vals: seq<real>, lo: Cut, hi: Cut): nat {
    if vals == [] then 0 else (if InBin(vals[0], lo, hi) then 1 else 0) + CountIn(vals[1..], lo, hi)
  }

  /** Total count over bins `0 .. n`. */
  function SumCounts(vals: seq<real>, cuts: seq<Cut>, n: nat): nat
    requires n < |cuts|
  {
    if n == 0 then 0 else SumCounts(vals, cuts, n - 1) + CountIn(vals, cuts[n - 1], cuts[n])
  }

  lemma {:induction false} SumCountsCons(vals: seq<real>, cuts: seq<Cut>, n: nat)
    requires ValidCuts(cuts) && n < |cuts| && vals != []
    ensures SumCounts(vals, cuts, n)
         == SumCounts(vals[1..], cuts, n) + if BinOf(cuts, vals[0], |cuts| - 1) < n then 1 else 0
  {
    if n > 0 {
      SumCountsCons(vals, cuts, n - 1);
      ExactlyOneBin(cuts, vals[0], n - 1);
    }
  }

  /** Counting by bin loses and duplicates nothing. */
  lemma {:induction false} CountsConserved(vals: seq<real>, cuts: seq<Cut>)
    requires ValidCuts(cuts)
    ensures SumCounts(vals, cuts, |cuts| - 1) == |vals|
  {
    if vals == [] {
      EmptyCounts(cuts, |cuts| - 1);
    } else {
      SumCountsCons(vals, cuts, |cuts| - 1);
      CountsConserved(vals[1..], cuts);
    }
  }

  lemma {:induction false} EmptyCounts(cuts: seq<Cut>, n: nat)
    requires n < |cuts|
    ensures SumCounts([], cuts, n) == 0
  {
    if n > 0 {
      EmptyCounts(cuts, n - 1);
    }
  }
}
