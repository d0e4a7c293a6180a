/** The two Kolmogorov-Smirnov statistics: the largest distance between the cumulative shares of the two classes,
    reading the labels from the highest score down. */
module KolmogorovSmirnov {
  import opened Wrappers
  import opened Rounding

  /** An answer `order` that `argsort(-scores)` may give; ties may come in any order. */
  ghost predicate Argsort(scores: seq<real>, order: seq<nat>) {
    && |order| == |scores|
    && (forall k :: 0 <= k < |order| ==> order[k] < |scores|)
    && (forall i: nat :: i < |scores| ==> i in order)
    && (forall j, k :: 0 <= j < k < |order| ==> order[j] != order[k])
    && (forall j, k :: 0 <= j < k < |order| ==> scores[order[j]] >= scores[order[k]])
  }

  /** `y[order]`. */
  function Take(y: seq<int>, order: seq<nat>): (ys: seq<int>)
    requires forall k :: 0 <= k < |order| ==> order[k] < |y|
    ensures |ys| == |order| && forall k :: 0 <= k < |ys| ==> ys[k] == y[order[k]]
  {
    seq(|order|, k requires 0 <= k < |order| => y[order[k]])
  }

  function Count(ys: seq<int>, c: int): nat {
    if ys == [] then 0
    else Count(ys[..|ys| - 1], c) + (if ys[|ys| - 1] == c then 1 else 0)
  }

  function Sum(ys: seq<int>): int {
    if ys == [] then 0 else Sum(ys[..|ys| - 1]) + ys[|ys| - 1]
  }

  function Flip(ys: seq<int>): (r: seq<int>)
    ensures |r| == |ys| && forall k :: 0 <= k < |ys| ==> r[k] == 1 - ys[k]
  {
    seq(|ys|, k requires 0 <= k < |ys| => 1 - ys[k])
  }

  /** Distance between two shares. */
  function Distance(goods: int, allGoods: int, bads: int, allBads: int): real
    requires allGoods != 0 && allBads != 0
  {
    Abs(goods as real / allGoods as real - bads as real / allBads as real)
  }

  function Larger(x: real, y: real): real {
    if x >= y then x else y
  }

  // ---------- ml/training/validation.py ----------

  function GapAt(ys: seq<int>, k: nat): real
    requires Count(ys, 1) != 0 && Count(ys, 0) != 0 && k <= |ys|
  {
    Distance(Count(ys[..k], 1), Count(ys, 1), Count(ys[..k], 0), Count(ys, 0))
  }

  function MaxGap(ys: seq<int>, k: nat): real
    requires Count(ys, 1) != 0 && Count(ys, 0) != 0 && 1 <= k <= |ys|
  {
    if k == 1 then GapAt(ys, 1) else Larger(MaxGap(ys, k - 1), GapAt(ys, k))
  }

  /** `compute_ks_statistic` on the labels in score order. */
  function ComputeKs(ys: seq<int>): real {
    if Count(ys, 1) == 0 || Count(ys, 0) == 0 then 0.0 else MaxGap(ys, |ys|)
  }

  // ---------- ml/training/scorecard.py ----------

  function AtLeastOne(n: int): (r: int)
    ensures r > 0
  {
    if n > 1 then n else 1
  }

  function SumGapAt(ys: seq<int>, k: nat): real
    requires k <= |ys|
  {
    Distance(Sum(ys[..k]), AtLeastOne(Sum(ys)), Sum(Flip(ys)[..k]), AtLeastOne(Sum(Flip(ys))))
  }

  function MaxSumGap(ys: seq<int>, k: nat): real
    requires 1 <= k <= |ys|
  {
    if k == 1 then SumGapAt(ys, 1) else Larger(MaxSumGap(ys, k - 1), SumGapAt(ys, k))
  }

  /** `_ks_statistic` on the labels in score order; `None` is NaN. */
  function KsStatistic(ys: seq<int>): Option<real> {
    if Sum(ys) == 0 || Sum(ys) == |ys| then None else Some(MaxSumGap(ys, |ys|))
  }

  /** The gap after `k` labels, without dividing: times both class sizes it is how far the one share of the class is
      from the other, counted across. */
  lemma {:induction false} GapMeaning(ys: seq<int>, k: nat)
    requires Count(ys, 1) != 0 && Count(ys, 0) != 0 && k <= |ys|
    ensures var (goods, bads) := (Count(ys, 1), Count(ys, 0));
      GapAt(ys, k) * (goods * bads) as real
      == Abs((Count(ys[..k], 1) * bads - Count(ys[..k], 0) * goods) as real)
  {
    hide Count;
    CrossDistance(Count(ys[..k], 1), Count(ys, 1), Count(ys[..k], 0), Count(ys, 0));
  }

  lemma {:induction false} CrossDistance(a: int, b: int, c: int, d: int)
    requires b > 0 && d > 0
    ensures Distance(a, b, c, d) * (b * d) as real == Abs((a * d - c * b) as real)
  {
    var p, q, x, y := a as real / b as real, c as real / d as real, b as real, d as real;
    assert p * x == a as real && q * y == c as real;
    assert (b * d) as real == x * y;
    assert (a * d) as real == a as real * y && (c * b) as real == c as real * x;
    TimesBoth(p, q, x, y);
  }

  lemma {:induction false} TimesBoth(p: real, q: real, x: real, y: real)
    requires x > 0.0 && y > 0.0
    ensures Abs(p - q) * (x * y) == Abs(p * x * y - q * y * x)
  {
    var z := x * y;
    MulMonotone(0.0, x, y);
    MulMonotone(p, q, z);
    assert (p - q) * z == p * z - q * z && (q - p) * z == q * z - p * z;
    assert p * z == p * x * y && q * z == q * y * x;
  }

  // ---------- the two agree ----------

  predicate Binary(ys: seq<int>) {
    forall k :: 0 <= k < |ys| ==> ys[k] == 0 || ys[k] == 1
  }

  predicate BothClasses(ys: seq<int>) {
    1 in ys && 0 in ys
  }

  lemma {:induction false} BinarySums(ys: seq<int>)
    requires Binary(ys)
    ensures Sum(ys) == Count(ys, 1)
    ensures Sum(Flip(ys)) == Count(ys, 0)
    ensures Count(ys, 1) + Count(ys, 0) == |ys|
  {
    if ys != [] {
      var k := |ys| - 1;
      BinarySums(ys[..k]);
      assert Flip(ys)[..k] == Flip(ys[..k]);
    }
  }

  lemma {:induction false} CountZero(ys: seq<int>, c: int)
    ensures Count(ys, c) == 0 <==> c !in ys
  {
    if ys != [] {
      CountZero(ys[..|ys| - 1], c);
      assert ys == ys[..|ys| - 1] + [ys[|ys| - 1]];
    }
  }

  lemma {:induction false} SameGap(ys: seq<int>, k: nat)
    requires Binary(ys) && Count(ys, 1) != 0 && Count(ys, 0) != 0 && k <= |ys|
    ensures SumGapAt(ys, k) == GapAt(ys, k)
  {
    hide Distance, Count, Sum, Flip;
    BinarySums(ys);
    BinarySums(ys[..k]);
    assert Flip(ys)[..k] == Flip(ys[..k]);
  }

  lemma {:induction false} SameMax(ys: seq<int>, k: nat)
    requires Binary(ys) && Count(ys, 1) != 0 && Count(ys, 0) != 0 && 1 <= k <= |ys|
    ensures MaxSumGap(ys, k) == MaxGap(ys, k)
  {
    hide GapAt, SumGapAt, Count;
    SameGap(ys, k);
    if k > 1 {
      SameMax(ys, k - 1);
    }
  }

  /** On binary labels the two implementations give the same number when both classes occur; otherwise one says
      zero and the other NaN. */
  lemma {:induction false} KsAgree(ys: seq<int>)
    requires Binary(ys)
    ensures BothClasses(ys) ==> KsStatistic(ys) == Some(ComputeKs(ys))
    ensures !BothClasses(ys) ==> KsStatistic(ys) == None && ComputeKs(ys) == 0.0
  {
    hide MaxGap, MaxSumGap, Sum;
    BinarySums(ys);
    CountZero(ys, 0);
    CountZero(ys, 1);
    if BothClasses(ys) {
      SameMax(ys, |ys|);
    }
  }

  // ---------- range, and when it is one ----------

  lemma {:induction false} CountSplit(ys: seq<int>, k: nat, c: int)
    requires k <= |ys|
    ensures Count(ys, c) == Count(ys[..k], c) + Count(ys[k..], c)
  {
    if k == |ys| {
      assert ys[..k] == ys;
    } else {
      var n := |ys| - 1;
      CountSplit(ys[..n], k, c);
      assert ys[..n][..k] == ys[..k];
      assert ys[k..][..n - k] == ys[..n][k..];
    }
  }

  lemma {:induction false} ShareRange(part: int, whole: int)
    requires 0 <= part <= whole && whole > 0
    ensures 0.0 <= part as real / whole as real <= 1.0
    ensures part as real / whole as real == 0.0 <==> part == 0
    ensures part as real / whole as real == 1.0 <==> part == whole
  {
    var q := part as real / whole as real;
    assert q * whole as real == part as real;
    if part < whole {
      ShareSign(q, whole as real);
    }
  }

  lemma {:induction false} ShareSign(q: real, w: real)
    requires w > 0.0 && 0.0 <= q * w < w
    ensures 0.0 <= q < 1.0
  {
    if q < 0.0 {
      MulMonotone(q, 0.0, w);
    } else if q >= 1.0 {
      MulMonotone(1.0, q, w);
    }
  }

  lemma {:induction false} DistanceRange(g: int, allG: int, b: int, allB: int)
    requires 0 <= g <= allG && 0 <= b <= allB && allG > 0 && allB > 0
    ensures 0.0 <= Distance(g, allG, b, allB) <= 1.0
    ensures Distance(g, allG, b, allB) == 1.0 <==> (g == allG && b == 0) || (g == 0 && b == allB)
  {
    ShareRange(g, allG);
    ShareRange(b, allB);
  }

  /** After `k` labels all of one class has been read and none of the other. */
  predicate SplitAt(ys: seq<int>, k: nat) {
    && k <= |ys|
    && ((0 !in ys[..k] && 1 !in ys[k..]) || (1 !in ys[..k] && 0 !in ys[k..]))
  }

  /** One class comes wholly before the other. */
  ghost predicate Separated(ys: seq<int>) {
    exists k :: 0 <= k <= |ys| && SplitAt(ys, k)
  }

  lemma {:induction false} GapRange(ys: seq<int>, k: nat)
    requires Count(ys, 1) != 0 && Count(ys, 0) != 0 && k <= |ys|
    ensures 0.0 <= GapAt(ys, k) <= 1.0
    ensures GapAt(ys, k) == 1.0 <==> SplitAt(ys, k)
  {
    hide Count, Distance;
    CountSplit(ys, k, 1);
    CountSplit(ys, k, 0);
    CountZero(ys[..k], 0);
    CountZero(ys[..k], 1);
    CountZero(ys[k..], 0);
    CountZero(ys[k..], 1);
    DistanceRange(Count(ys[..k], 1), Count(ys, 1), Count(ys[..k], 0), Count(ys, 0));
  }

  lemma {:induction false} MaxGapRange(ys: seq<int>, k: nat)
    requires Count(ys, 1) != 0 && Count(ys, 0) != 0 && 1 <= k <= |ys|
    ensures 0.0 <= MaxGap(ys, k) <= 1.0
    ensures MaxGap(ys, k) == 1.0 <==> exists j :: 1 <= j <= k && SplitAt(ys, j)
  {
    hide Count, GapAt, SplitAt;
    GapRange(ys, k);
    if k > 1 {
      MaxGapRange(ys, k - 1);
    }
  }

  /** With both classes present the statistic lies in [0, 1], and is one exactly when the ranking puts one class
      wholly before the other. */
  lemma {:induction false} KsRange(ys: seq<int>)
    requires BothClasses(ys)
    ensures 0.0 <= ComputeKs(ys) <= 1.0
    ensures ComputeKs(ys) == 1.0 <==> Separated(ys)
  {
    hide Count, MaxGap;
    CountZero(ys, 0);
    CountZero(ys, 1);
    MaxGapRange(ys, |ys|);
    assert !SplitAt(ys, 0) by {
      assert ys[0..] == ys;
    }
  }

  /** The statistic is the largest of the distances read after each label, and one of them. */
  lemma {:induction false} LargestGap(ys: seq<int>, k: nat)
    requires Count(ys, 1) != 0 && Count(ys, 0) != 0 && 1 <= k <= |ys|
    ensures forall j :: 1 <= j <= k ==> GapAt(ys, j) <= MaxGap(ys, k)
    ensures exists j :: 1 <= j <= k && GapAt(ys, j) == MaxGap(ys, k)
  {
    hide GapAt, Count;
    if k > 1 {
      LargestGap(ys, k - 1);
      var j :| 1 <= j <= k - 1 && GapAt(ys, j) == MaxGap(ys, k - 1);
      assert MaxGap(ys, k) == GapAt(ys, if MaxGap(ys, k - 1) >= GapAt(ys, k) then j else k);
    } else {
      assert GapAt(ys, 1) == MaxGap(ys, k);
    }
  }

  // ---------- rescaling and ties ----------

  /** `t` is a strictly increasing rescaling of `s`. */
  ghost predicate SameOrder(s: seq<real>, t: seq<real>) {
    |s| == |t| && forall i, j :: 0 <= i < |s| && 0 <= j < |s| ==> (s[i] < s[j] <==> t[i] < t[j])
  }

  /** Equal scores carry equal labels; distinct scores are the special case. */
  ghost predicate TiesAgree(y: seq<int>, s: seq<real>)
    requires |y| == |s|
  {
    forall i, j :: 0 <= i < |s| && 0 <= j < |s| && s[i] == s[j] ==> y[i] == y[j]
  }

  function Elements(o: seq<nat>): set<nat> {
    set x | x in o
  }

  lemma {:induction false} DistinctSize(o: seq<nat>)
    ensures |Elements(o)| <= |o|
    ensures (forall j, k :: 0 <= j < k < |o| ==> o[j] != o[k]) ==> |Elements(o)| == |o|
  {
    if o != [] {
      var n := |o| - 1;
      DistinctSize(o[..n]);
      assert o == o[..n] + [o[n]];
      assert Elements(o) == Elements(o[..n]) + {o[n]};
    }
  }

  /** Two ways of sorting the same scores read the same score at every position. */
  lemma {:induction false} NotSmaller(s: seq<real>, o: seq<nat>, p: seq<nat>, k: nat)
    requires Argsort(s, o) && Argsort(s, p) && k < |s|
    ensures s[o[k]] >= s[p[k]]
  {
    if s[o[k]] < s[p[k]] {
      forall x | x in p[..k + 1]
        ensures x in o[..k]
      {
        var j :| 0 <= j <= k && p[j] == x;
        assert s[p[j]] >= s[p[k]];
        assert x in o;
        var i :| 0 <= i < |o| && o[i] == x;
        assert i < k;
      }
      DistinctSize(p[..k + 1]);
      DistinctSize(o[..k]);
      CardinalityOfSubset(Elements(p[..k + 1]), Elements(o[..k]));
      assert false;
    }
  }

  lemma {:induction false} CardinalityOfSubset(a: set<nat>, b: set<nat>)
    requires a <= b
    ensures |a| <= |b|
  {
    assert b == a + (b - a);
  }

  lemma {:induction false} TiesAgreeUnique(y: seq<int>, s: seq<real>, o: seq<nat>, p: seq<nat>)
    requires |y| == |s| && Argsort(s, o) && Argsort(s, p) && TiesAgree(y, s)
    ensures Take(y, o) == Take(y, p)
  {
    forall k: nat | k < |s|
      ensures Take(y, o)[k] == Take(y, p)[k]
    {
      NotSmaller(s, o, p, k);
      NotSmaller(s, p, o, k);
    }
  }

  /** Rescaling the scores by any strictly increasing function leaves both statistics alone, whatever order
      `argsort` gives to ties, as long as tied scores carry equal labels. */
  lemma {:induction false} KsOfRescaled(y: seq<int>, s: seq<real>, t: seq<real>, o: seq<nat>, p: seq<nat>)
    requires |y| == |s| && SameOrder(s, t) && Argsort(s, o) && Argsort(t, p)
    requires TiesAgree(y, s)
    ensures ComputeKs(Take(y, o)) == ComputeKs(Take(y, p))
    ensures KsStatistic(Take(y, o)) == KsStatistic(Take(y, p))
  {
    hide ComputeKs, KsStatistic;
    assert Argsort(s, p);
    TiesAgreeUnique(y, s, o, p);
  }

  lemma {:induction false} DistinctScoresAgree(y: seq<int>, s: seq<real>)
    requires |y| == |s| && forall i, j :: 0 <= i < j < |s| ==> s[i] != s[j]
    ensures TiesAgree(y, s)
  {
    forall i, j | 0 <= i < |s| && 0 <= j < |s| && s[i] == s[j]
      ensures y[i] == y[j]
    {
      assert i == j;
    }
  }

  lemma {:induction false} SwapTie(s: seq<real>, o: seq<nat>, a: nat, b: nat)
    requires Argsort(s, o) && a < |o| && b < |o| && a != b && s[o[a]] == s[o[b]]
    ensures Argsort(s, o[a := o[b]][b := o[a]])
  {
    var p := o[a := o[b]][b := o[a]];
    forall i: nat | i < |s|
      ensures i in p
    {
      assert i in o;
      var k :| 0 <= k < |o| && o[k] == i;
      assert p[if k == a then b else if k == b then a else k] == i;
    }
  }

  /** The labels in score order are independent of how ties fall exactly when tied scores carry equal labels. */
  lemma {:induction false} TiesDecide(y: seq<int>, s: seq<real>, o: seq<nat>)
    requires |y| == |s| && Argsort(s, o)
    ensures TiesAgree(y, s) <==> forall p | Argsort(s, p) :: Take(y, p) == Take(y, o)
  {
    if TiesAgree(y, s) {
      forall p | Argsort(s, p)
        ensures Take(y, p) == Take(y, o)
      {
        TiesAgreeUnique(y, s, p, o);
      }
    } else {
      var i: nat, j: nat :| i < |s| && j < |s| && s[i] == s[j] && y[i] != y[j];
      assert i in o && j in o;
      var a: nat :| a < |o| && o[a] == i;
      var b: nat :| b < |o| && o[b] == j;
      SwapTie(s, o, a, b);
      assert Take(y, o[a := o[b]][b := o[a]])[a] != Take(y, o)[a];
    }
  }

  lemma {:induction false} OrdersOfThree(s: seq<real>)
    requires |s| == 3 && s[0] == s[1] == s[2]
    ensures Argsort(s, [0, 1, 2]) && Argsort(s, [0, 2, 1])
  {
    var o, p: seq<nat> := [0, 1, 2], [0, 2, 1];
    assert o[0] == p[0] == 0 && o[1] == p[2] == 1 && o[2] == p[1] == 2;
  }

  lemma {:induction false} MixedNotSplit(k: nat)
    requires k <= 3
    ensures !SplitAt([1, 0, 1], k)
  {
    var a := [1, 0, 1];
    if k <= 1 {
      assert a[k..][1 - k] == 0 && a[k..][2 - k] == 1;
    } else {
      assert a[..k][0] == 1 && a[..k][1] == 0;
    }
  }

  lemma {:induction false} GroupedSplit()
    ensures SplitAt([1, 1, 0], 2)
  {
    assert [1, 1, 0][..2] == [1, 1] && [1, 1, 0][2..] == [0];
  }

  /** With three equal scores the statistic itself depends on the sort. */
  lemma {:induction false} TiesChangeKs()
    ensures var y, s := [1, 0, 1], [0.5, 0.5, 0.5];
      && Argsort(s, [0, 1, 2]) && Argsort(s, [0, 2, 1])
      && ComputeKs(Take(y, [0, 1, 2])) < 1.0 == ComputeKs(Take(y, [0, 2, 1]))
  {
    OrdersOfThree([0.5, 0.5, 0.5]);
    hide ComputeKs, Argsort, SplitAt;
    var a, b := Take([1, 0, 1], [0, 1, 2]), Take([1, 0, 1], [0, 2, 1]);
    assert a == [1, 0, 1] && b == [1, 1, 0];
    KsRange(a);
    KsRange(b);
    GroupedSplit();
    forall k: nat | k <= 3
      ensures !SplitAt(a, k)
    {
      MixedNotSplit(k);
    }
  }
}
