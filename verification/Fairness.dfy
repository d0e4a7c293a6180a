/** The fairness gate over the audit rows of one period, and the rows the auditor writes. */
module Fairness {
  import opened Wrappers
  import opened Sequences

  datatype Status = Ok | InsufficientSample | PendingGovernance

  datatype Row = Row(
    period: string, dimension: string, group: string,
    approvalRate: Option<real>, overrideRate: Option<real>, sampleSize: nat, status: Status, computedAt: int)

  datatype Rule = Rule(minApproval: Option<real>, maxOverride: Option<real>, maxGap: Option<real>)

  type Thresholds = map<string, Rule>

  datatype Kind = MinApprovalRate | MaxOverrideRate | MaxApprovalGap

  datatype Breach = Breach(dimension: string, group: string, value: real, threshold: real, rule: Kind)

  datatype GateResult = GateResult(
    passed: bool, period: Option<string>, breaches: seq<Breach>, skipped: nat, evaluated: nat)

  const ACROSS_GROUPS := "<across-groups>"

  function RuleFor(th: Thresholds, dim: string): Rule {
    if dim in th then th[dim] else Rule(None, None, None)
  }

  /** The row takes part in the gate. */
  predicate Counted(r: Row) {
    r.status != InsufficientSample
  }

  function OfPeriod(store: seq<Row>, period: string): seq<Row> {
    if store == [] then []
    else
      OfPeriod(store[..|store| - 1], period)
      + (if store[|store| - 1].period == period then [store[|store| - 1]] else [])
  }

  /** The row computed last, the later one in the table among equals. */
  function Newest(store: seq<Row>): Row
    requires store != []
  {
    var last := store[|store| - 1];
    if |store| == 1 then last
    else
      var before := Newest(store[..|store| - 1]);
      if last.computedAt >= before.computedAt then last else before
  }

  /** `period or await self._latest_period()`. */
  function PeriodFor(store: seq<Row>, requested: Option<string>): Option<string> {
    if requested.Some? && requested.value != "" then requested
    else if store == [] then None
    else Some(Newest(store).period)
  }

  /** Without a request the gate looks at the period of a row none is newer than. */
  lemma {:induction false} NewestPeriod(store: seq<Row>)
    ensures PeriodFor(store, None) == PeriodFor(store, Some(""))
    ensures store == [] <==> PeriodFor(store, None) == None
    ensures store != [] ==>
      exists r :: r in store && PeriodFor(store, None) == Some(r.period) && NoneNewer(store, r)
  {
    if store != [] {
      NewestMeaning(store);
    }
  }

  ghost predicate NoneNewer(store: seq<Row>, r: Row) {
    forall s :: s in store ==> s.computedAt <= r.computedAt
  }

  lemma {:induction false} NewestMeaning(store: seq<Row>)
    requires store != []
    ensures Newest(store) in store && NoneNewer(store, Newest(store))
  {
    if |store| > 1 {
      var before, last := store[..|store| - 1], store[|store| - 1];
      NewestMeaning(before);
      assert forall r :: r in store <==> r in before || r == last;
    }
  }

  // ---------- grouping ----------

  function CountedRows(rows: seq<Row>): nat {
    if rows == [] then 0
    else CountedRows(rows[..|rows| - 1]) + (if Counted(rows[|rows| - 1]) then 1 else 0)
  }

  /** The counted rows of a dimension. */
  function Group(rows: seq<Row>, dim: string): seq<Row> {
    if rows == [] then []
    else
      var r := rows[|rows| - 1];
      Group(rows[..|rows| - 1], dim) + (if Counted(r) && r.dimension == dim then [r] else [])
  }

  /** The dimensions of the counted rows, in order of first appearance. */
  function Dims(rows: seq<Row>): seq<string> {
    if rows == [] then []
    else
      var r := rows[|rows| - 1];
      var before := Dims(rows[..|rows| - 1]);
      if Counted(r) && r.dimension !in before then before + [r.dimension] else before
  }

  // ---------- the three checks ----------

  function LowApprovals(dim: string, min: Option<real>, group: seq<Row>): seq<Breach> {
    if min.None? || group == [] then []
    else
      var r := group[|group| - 1];
      LowApprovals(dim, min, group[..|group| - 1])
      + (if r.approvalRate.Some? && r.approvalRate.value < min.value
         then [Breach(dim, r.group, r.approvalRate.value, min.value, MinApprovalRate)] else [])
  }

  function HighOverrides(dim: string, max: Option<real>, group: seq<Row>): seq<Breach> {
    if max.None? || group == [] then []
    else
      var r := group[|group| - 1];
      HighOverrides(dim, max, group[..|group| - 1])
      + (if r.overrideRate.Some? && r.overrideRate.value > max.value
         then [Breach(dim, r.group, r.overrideRate.value, max.value, MaxOverrideRate)] else [])
  }

  function Rates(group: seq<Row>): seq<real> {
    if group == [] then []
    else
      var r := group[|group| - 1];
      Rates(group[..|group| - 1]) + (if r.approvalRate.Some? then [r.approvalRate.value] else [])
  }

  function GapBreaches(dim: string, maxGap: Option<real>, rates: seq<real>): seq<Breach> {
    if maxGap.Some? && |rates| > 1 && MaxOf(rates) - MinOf(rates) > maxGap.value
    then [Breach(dim, ACROSS_GROUPS, MaxOf(rates) - MinOf(rates), maxGap.value, MaxApprovalGap)]
    else []
  }

  function BreachesOf(dim: string, rule: Rule, group: seq<Row>): seq<Breach> {
    LowApprovals(dim, rule.minApproval, group) + HighOverrides(dim, rule.maxOverride, group)
    + GapBreaches(dim, rule.maxGap, Rates(group))
  }

  function BreachesIn(rows: seq<Row>, th: Thresholds, dims: seq<string>): seq<Breach> {
    if dims == [] then []
    else
      var d := dims[|dims| - 1];
      BreachesIn(rows, th, dims[..|dims| - 1]) + BreachesOf(d, RuleFor(th, d), Group(rows, d))
  }

  function Breaches(rows: seq<Row>, th: Thresholds): seq<Breach> {
    BreachesIn(rows, th, Dims(rows))
  }

  // ---------- the gate ----------

  /** `FairnessGate.evaluate`. */
  method Evaluate(store: seq<Row>, requested: Option<string>, th: Thresholds) returns (r: GateResult)
    ensures r.period == PeriodFor(store, requested)
    ensures r.period.None? ==> r == GateResult(false, None, [], 0, 0)
    ensures r.period.Some? ==>
      var rows := OfPeriod(store, r.period.value);
      && r.breaches == Breaches(rows, th)
      && (r.passed <==> Fair(rows, th))
      && r.evaluated == CountedRows(rows) && r.skipped + r.evaluated == |rows|
  {
    hide Fair, BreachesOf, OfPeriod;
    var period := PeriodFor(store, requested);
    if period.None? {
      return GateResult(false, None, [], 0, 0);
    }
    var rows := OfPeriod(store, period.value);
    var dims, byDim, skipped, evaluated := GroupByDimension(rows);
    var breaches: seq<Breach> := [];
    var j := 0;
    while j < |dims|
      invariant 0 <= j <= |dims|
      invariant breaches == BreachesIn(rows, th, dims[..j])
    {
      assert dims[..j + 1][..j] == dims[..j];
      var dim := dims[j];
      var found := CheckDimension(dim, RuleFor(th, dim), byDim[dim]);
      breaches := breaches + found;
      j := j + 1;
    }
    assert dims[..j] == dims;
    FairIffNoBreach(rows, th);
    r := GateResult(|breaches| == 0, period, breaches, skipped, evaluated);
  }

  /** The grouping loop: a dictionary in insertion order, and the two counters. */
  method GroupByDimension(rows: seq<Row>)
    returns (dims: seq<string>, byDim: map<string, seq<Row>>, skipped: nat, evaluated: nat)
    ensures dims == Dims(rows)
    ensures forall d :: d in dims ==> d in byDim && byDim[d] == Group(rows, d)
    ensures evaluated == CountedRows(rows) && skipped + evaluated == |rows|
  {
    dims, byDim, skipped, evaluated := [], map[], 0, 0;
    var i := 0;
    while i < |rows|
      invariant 0 <= i <= |rows|
      invariant dims == Dims(rows[..i])
      invariant forall d :: d in dims <==> d in byDim
      invariant forall d :: d in dims ==> byDim[d] == Group(rows[..i], d)
      invariant evaluated == CountedRows(rows[..i]) && skipped + evaluated == i
    {
      assert rows[..i + 1][..i] == rows[..i];
      var r := rows[i];
      if r.status == InsufficientSample {
        skipped := skipped + 1;
      } else {
        evaluated := evaluated + 1;
        if r.dimension !in byDim {
          NoGroupYet(rows[..i], r.dimension);
          dims := dims + [r.dimension];
          byDim := byDim[r.dimension := [r]];
        } else {
          byDim := byDim[r.dimension := byDim[r.dimension] + [r]];
        }
      }
      i := i + 1;
    }
    assert rows[..i] == rows;
  }

  lemma {:induction false} NoGroupYet(rows: seq<Row>, dim: string)
    ensures dim !in Dims(rows) <==> Group(rows, dim) == []
  {
    if rows != [] {
      NoGroupYet(rows[..|rows| - 1], dim);
    }
  }

  /** The three checks on one dimension. */
  method CheckDimension(dim: string, rule: Rule, group: seq<Row>) returns (breaches: seq<Breach>)
    ensures breaches == BreachesOf(dim, rule, group)
  {
    breaches := [];
    if rule.minApproval.Some? {
      breaches := CheckApproval(dim, rule.minApproval.value, group);
    }
    if rule.maxOverride.Some? {
      var high := CheckOverride(dim, rule.maxOverride.value, group);
      breaches := breaches + high;
    }
    if rule.maxGap.Some? && |group| > 1 {
      breaches := breaches + GapBreaches(dim, rule.maxGap, Rates(group));
    } else {
      RatesFewer(group);
    }
  }

  lemma {:induction false} RatesFewer(group: seq<Row>)
    ensures |Rates(group)| <= |group|
  {
    if group != [] {
      RatesFewer(group[..|group| - 1]);
    }
  }

  method CheckApproval(dim: string, min: real, group: seq<Row>) returns (breaches: seq<Breach>)
    ensures breaches == LowApprovals(dim, Some(min), group)
  {
    breaches := [];
    var i := 0;
    while i < |group|
      invariant 0 <= i <= |group|
      invariant breaches == LowApprovals(dim, Some(min), group[..i])
    {
      assert group[..i + 1][..i] == group[..i];
      var r := group[i];
      if r.approvalRate.Some? && r.approvalRate.value < min {
        breaches := breaches + [Breach(dim, r.group, r.approvalRate.value, min, MinApprovalRate)];
      }
      i := i + 1;
    }
    assert group[..i] == group;
  }

  method CheckOverride(dim: string, max: real, group: seq<Row>) returns (breaches: seq<Breach>)
    ensures breaches == HighOverrides(dim, Some(max), group)
  {
    breaches := [];
    var i := 0;
    while i < |group|
      invariant 0 <= i <= |group|
      invariant breaches == HighOverrides(dim, Some(max), group[..i])
    {
      assert group[..i + 1][..i] == group[..i];
      var r := group[i];
      if r.overrideRate.Some? && r.overrideRate.value > max {
        breaches := breaches + [Breach(dim, r.group, r.overrideRate.value, max, MaxOverrideRate)];
      }
      i := i + 1;
    }
    assert group[..i] == group;
  }

  // ---------- what passing means ----------

  /** The row keeps its dimension's approval floor and override ceiling. */
  predicate MeetsLimits(r: Row, rule: Rule) {
    && (rule.minApproval.Some? && r.approvalRate.Some? ==> r.approvalRate.value >= rule.minApproval.value)
    && (rule.maxOverride.Some? && r.overrideRate.Some? ==> r.overrideRate.value <= rule.maxOverride.value)
  }

  predicate Rated(r: Row, dim: string) {
    Counted(r) && r.dimension == dim && r.approvalRate.Some?
  }

  /** The two approval rates differ by no more than the limit, in either direction. */
  predicate Within(x: real, y: real, gap: real) {
    x - y <= gap && y - x <= gap
  }

  predicate PairWithin(r: Row, q: Row, dim: string, gap: real) {
    Rated(r, dim) && Rated(q, dim) ==> Within(r.approvalRate.value, q.approvalRate.value, gap)
  }

  /** Any two rated rows of the dimension are within the gap. */
  ghost predicate PairsWithin(rows: seq<Row>, dim: string, gap: real) {
    forall i, j :: 0 <= i < j < |rows| ==> PairWithin(rows[i], rows[j], dim, gap)
  }

  /** One dimension: every counted row keeps the limits, and any two rated ones are within the gap. */
  ghost predicate DimensionFair(rows: seq<Row>, dim: string, rule: Rule) {
    && (forall r :: r in rows && Counted(r) && r.dimension == dim ==> MeetsLimits(r, rule))
    && (rule.maxGap.Some? ==> PairsWithin(rows, dim, rule.maxGap.value))
  }

  /** The gate's declarative meaning. */
  ghost predicate Fair(rows: seq<Row>, th: Thresholds) {
    forall dim :: DimensionFair(rows, dim, RuleFor(th, dim))
  }

  lemma {:induction false} InGroup(rows: seq<Row>, dim: string, r: Row)
    ensures r in Group(rows, dim) <==> r in rows && Counted(r) && r.dimension == dim
  {
    if rows != [] {
      InGroup(rows[..|rows| - 1], dim, r);
      assert rows == rows[..|rows| - 1] + [rows[|rows| - 1]];
    }
  }

  lemma {:induction false} InDims(rows: seq<Row>, dim: string)
    ensures dim in Dims(rows) <==> exists r :: r in rows && Counted(r) && r.dimension == dim
  {
    if rows != [] {
      InDims(rows[..|rows| - 1], dim);
      assert rows == rows[..|rows| - 1] + [rows[|rows| - 1]];
    }
  }

  /** The breach reports a row below its floor. */
  ghost predicate LowRow(b: Breach, dim: string, min: Option<real>, r: Row) {
    min.Some? && r.approvalRate.Some? && r.approvalRate.value < min.value
    && b == Breach(dim, r.group, r.approvalRate.value, min.value, MinApprovalRate)
  }

  ghost predicate HighRow(b: Breach, dim: string, max: Option<real>, r: Row) {
    max.Some? && r.overrideRate.Some? && r.overrideRate.value > max.value
    && b == Breach(dim, r.group, r.overrideRate.value, max.value, MaxOverrideRate)
  }

  lemma {:induction false} LowApprovalsIff(dim: string, min: Option<real>, group: seq<Row>, b: Breach)
    ensures b in LowApprovals(dim, min, group) <==> exists r :: r in group && LowRow(b, dim, min, r)
  {
    if min.Some? && group != [] {
      var before, last := group[..|group| - 1], group[|group| - 1];
      LowApprovalsIff(dim, min, before, b);
      assert group == before + [last];
      if b in LowApprovals(dim, min, before) {
        var r :| r in before && LowRow(b, dim, min, r);
        assert r in group;
      } else if b in LowApprovals(dim, min, group) {
        assert LowRow(b, dim, min, last);
      } else {
        forall r | r in group
          ensures !LowRow(b, dim, min, r)
        {
          assert r == last || r in before;
        }
      }
    }
  }

  lemma {:induction false} HighOverridesIff(dim: string, max: Option<real>, group: seq<Row>, b: Breach)
    ensures b in HighOverrides(dim, max, group) <==> exists r :: r in group && HighRow(b, dim, max, r)
  {
    if max.Some? && group != [] {
      var before, last := group[..|group| - 1], group[|group| - 1];
      HighOverridesIff(dim, max, before, b);
      assert group == before + [last];
      if b in HighOverrides(dim, max, before) {
        var r :| r in before && HighRow(b, dim, max, r);
        assert r in group;
      } else if b in HighOverrides(dim, max, group) {
        assert HighRow(b, dim, max, last);
      } else {
        forall r | r in group
          ensures !HighRow(b, dim, max, r)
        {
          assert r == last || r in before;
        }
      }
    }
  }

  // ---------- the gap between groups ----------

  ghost predicate Pairwise(s: seq<real>, gap: real) {
    forall i, j :: 0 <= i < j < |s| ==> Within(s[i], s[j], gap)
  }

  /** The distance from the largest to the smallest exceeds the gap exactly when some two rates do. */
  lemma {:induction false} SpreadIffPairs(s: seq<real>, gap: real)
    requires |s| > 1
    ensures MaxOf(s) - MinOf(s) <= gap <==> Pairwise(s, gap)
  {
    hide MaxOf, MinOf;
    Extremes(s);
    if Pairwise(s, gap) {
      var a: nat :| a < |s| && s[a] == MaxOf(s);
      var b: nat :| b < |s| && s[b] == MinOf(s);
      if a == b {
        assert Within(s[0], s[1], gap);
      } else {
        assert Within(s[if a < b then a else b], s[if a < b then b else a], gap);
      }
    }
  }

  lemma {:induction false} GapBreachesIff(dim: string, maxGap: Option<real>, s: seq<real>)
    ensures GapBreaches(dim, maxGap, s) == [] <==> (maxGap.Some? ==> Pairwise(s, maxGap.value))
  {
    hide MaxOf, MinOf;
    if maxGap.Some? && |s| > 1 {
      SpreadIffPairs(s, maxGap.value);
    }
  }

  /** Row `i` contributes this rate. */
  predicate HasRate(rows: seq<Row>, dim: string, x: real, i: nat)
    requires i < |rows|
  {
    Rated(rows[i], dim) && rows[i].approvalRate.value == x
  }

  lemma {:induction false} RateListed(rows: seq<Row>, dim: string, i: nat)
    requires i < |rows| && Rated(rows[i], dim)
    ensures rows[i].approvalRate.value in Rates(Group(rows, dim))
  {
    hide Group, Rates;
    RatesStep(rows, dim);
    if i < |rows| - 1 {
      RateListed(rows[..|rows| - 1], dim, i);
    }
  }

  lemma {:induction false} RowOfRate(rows: seq<Row>, dim: string, x: real) returns (i: nat)
    requires x in Rates(Group(rows, dim))
    ensures i < |rows| && HasRate(rows, dim, x, i)
  {
    if rows == [] {
      assert false;
    } else {
      hide Group, Rates;
      i := |rows| - 1;
      RatesStep(rows, dim);
      if x in Rates(Group(rows[..i], dim)) {
        i := RowOfRate(rows[..i], dim, x);
      }
    }
  }

  function RateOf(r: Row): seq<real> {
    if r.approvalRate.Some? then [r.approvalRate.value] else []
  }

  lemma {:induction false} RatesSnoc(group: seq<Row>, r: Row)
    ensures Rates(group + [r]) == Rates(group) + RateOf(r)
  {
    assert (group + [r])[..|group|] == group;
  }

  lemma {:induction false} RatesStep(rows: seq<Row>, dim: string)
    requires rows != []
    ensures var r := rows[|rows| - 1];
      Rates(Group(rows, dim))
        == Rates(Group(rows[..|rows| - 1], dim)) + (if Rated(r, dim) then [r.approvalRate.value] else [])
  {
    hide Rates;
    var before := Group(rows[..|rows| - 1], dim);
    RatesSnoc(before, rows[|rows| - 1]);
    assert before + [] == before;
    assert Rates(before) + [] == Rates(before);
  }

  lemma {:induction false} PairsIff(rows: seq<Row>, dim: string, gap: real)
    ensures Pairwise(Rates(Group(rows, dim)), gap) <==> PairsWithin(rows, dim, gap)
  {
    if rows != [] {
      hide Group, Rates, PairsWithin, Pairwise, Within;
      var n := |rows| - 1;
      PairsIff(rows[..n], dim, gap);
      RatesStep(rows, dim);
      LastRow(rows, dim, gap);
      if Rated(rows[n], dim) {
        LastPair(Rates(Group(rows[..n], dim)), rows[n].approvalRate.value, gap);
        NewRow(rows, dim, gap);
      } else {
        assert Rates(Group(rows[..n], dim)) + [] == Rates(Group(rows[..n], dim));
      }
    }
  }

  /** The last row against the rows before it, and its rate against their rates. */
  lemma {:induction false} NewRow(rows: seq<Row>, dim: string, gap: real)
    requires rows != [] && Rated(rows[|rows| - 1], dim)
    ensures var n := |rows| - 1;
      (forall y :: y in Rates(Group(rows[..n], dim)) ==> Within(y, rows[n].approvalRate.value, gap))
      <==> forall i :: 0 <= i < n ==> PairWithin(rows[i], rows[n], dim, gap)
  {
    hide Group, Rates, Within;
    var n := |rows| - 1;
    var rates := Rates(Group(rows[..n], dim));
    forall i | 0 <= i < n && Rated(rows[i], dim)
      ensures rows[i].approvalRate.value in rates
    {
      RateListed(rows[..n], dim, i);
    }
    if forall i :: 0 <= i < n ==> PairWithin(rows[i], rows[n], dim, gap) {
      forall y | y in rates
        ensures Within(y, rows[n].approvalRate.value, gap)
      {
        var i := RowOfRate(rows[..n], dim, y);
        assert PairWithin(rows[i], rows[n], dim, gap);
      }
    }
  }

  lemma {:induction false} LastRow(rows: seq<Row>, dim: string, gap: real)
    requires rows != []
    ensures var n := |rows| - 1;
      PairsWithin(rows, dim, gap) <==>
        PairsWithin(rows[..n], dim, gap) && forall i :: 0 <= i < n ==> PairWithin(rows[i], rows[n], dim, gap)
  {
    hide PairWithin;
    var n := |rows| - 1;
    var before := rows[..n];
    assert forall i :: 0 <= i < n ==> before[i] == rows[i];
    if PairsWithin(rows, dim, gap) {
      forall i, j | 0 <= i < j < n
        ensures PairWithin(before[i], before[j], dim, gap)
      {
        assert PairWithin(rows[i], rows[j], dim, gap);
      }
    }
  }

  lemma {:induction false} LastPair(s: seq<real>, x: real, gap: real)
    ensures Pairwise(s + [x], gap) <==> Pairwise(s, gap) && forall y :: y in s ==> Within(y, x, gap)
  {
    var t := s + [x];
    if Pairwise(t, gap) {
      forall i, j | 0 <= i < j < |s|
        ensures Within(s[i], s[j], gap)
      {
        assert Within(t[i], t[j], gap);
      }
      forall y | y in s
        ensures Within(y, x, gap)
      {
        var i :| 0 <= i < |s| && s[i] == y;
        assert Within(t[i], t[|s|], gap);
      }
    }
  }

  // ---------- the gate passes exactly when the rows are fair ----------

  lemma {:induction false} NoLowApproval(dim: string, min: Option<real>, group: seq<Row>)
    ensures LowApprovals(dim, min, group) == []
       <==> forall r :: r in group && min.Some? && r.approvalRate.Some? ==> r.approvalRate.value >= min.value
  {
    if min.Some? && group != [] {
      NoLowApproval(dim, min, group[..|group| - 1]);
      assert group == group[..|group| - 1] + [group[|group| - 1]];
    }
  }

  lemma {:induction false} NoHighOverride(dim: string, max: Option<real>, group: seq<Row>)
    ensures HighOverrides(dim, max, group) == []
       <==> forall r :: r in group && max.Some? && r.overrideRate.Some? ==> r.overrideRate.value <= max.value
  {
    if max.Some? && group != [] {
      NoHighOverride(dim, max, group[..|group| - 1]);
      assert group == group[..|group| - 1] + [group[|group| - 1]];
    }
  }

  lemma {:induction false} DimensionFairIff(rows: seq<Row>, dim: string, rule: Rule)
    ensures BreachesOf(dim, rule, Group(rows, dim)) == [] <==> DimensionFair(rows, dim, rule)
  {
    hide LowApprovals, HighOverrides, GapBreaches, Rates, Group, PairsWithin, Pairwise;
    var group := Group(rows, dim);
    forall r
      ensures r in group <==> r in rows && Counted(r) && r.dimension == dim
    {
      InGroup(rows, dim, r);
    }
    NoLowApproval(dim, rule.minApproval, group);
    NoHighOverride(dim, rule.maxOverride, group);
    GapBreachesIff(dim, rule.maxGap, Rates(group));
    if rule.maxGap.Some? {
      PairsIff(rows, dim, rule.maxGap.value);
    }
  }

  lemma {:induction false} NoBreachIn(rows: seq<Row>, th: Thresholds, dims: seq<string>)
    ensures BreachesIn(rows, th, dims) == [] <==> forall d :: d in dims ==> DimensionFair(rows, d, RuleFor(th, d))
  {
    hide BreachesOf, DimensionFair, RuleFor, Group;
    if dims != [] {
      var d := dims[|dims| - 1];
      NoBreachIn(rows, th, dims[..|dims| - 1]);
      DimensionFairIff(rows, d, RuleFor(th, d));
      assert dims == dims[..|dims| - 1] + [d];
    }
  }

  lemma {:induction false} UnseenDimension(rows: seq<Row>, dim: string, rule: Rule)
    requires dim !in Dims(rows)
    ensures DimensionFair(rows, dim, rule)
  {
    InDims(rows, dim);
  }

  lemma {:induction false} FairIffNoBreach(rows: seq<Row>, th: Thresholds)
    ensures Breaches(rows, th) == [] <==> Fair(rows, th)
  {
    hide DimensionFair, RuleFor, Dims, BreachesIn;
    NoBreachIn(rows, th, Dims(rows));
    forall dim | dim !in Dims(rows)
      ensures DimensionFair(rows, dim, RuleFor(th, dim))
    {
      UnseenDimension(rows, dim, RuleFor(th, dim));
    }
  }

  // ---------- more rows, tighter thresholds ----------

  /** `f` places every row of `rows` at a position of its own in `more`. */
  ghost predicate Embeds(rows: seq<Row>, more: seq<Row>, f: seq<nat>) {
    && |f| == |rows|
    && (forall i :: 0 <= i < |f| ==> f[i] < |more| && more[f[i]] == rows[i])
    && (forall i, j :: 0 <= i < j < |f| ==> f[i] != f[j])
  }

  /** Adding rows, in any place, never turns a fail into a pass; nor does the order of the rows matter. */
  lemma {:induction false} MoreRowsStricter(rows: seq<Row>, more: seq<Row>, f: seq<nat>, th: Thresholds)
    requires Embeds(rows, more, f) && Fair(more, th)
    ensures Fair(rows, th)
  {
    hide RuleFor, MeetsLimits;
    forall dim
      ensures DimensionFair(rows, dim, RuleFor(th, dim))
    {
      assert DimensionFair(more, dim, RuleFor(th, dim));
      forall r | r in rows && Counted(r) && r.dimension == dim
        ensures MeetsLimits(r, RuleFor(th, dim))
      {
        var i :| 0 <= i < |rows| && rows[i] == r;
        assert more[f[i]] == r;
      }
      if RuleFor(th, dim).maxGap.Some? {
        PairsEmbed(rows, more, f, dim, RuleFor(th, dim).maxGap.value);
      }
    }
  }

  lemma {:induction false} PairsEmbed(rows: seq<Row>, more: seq<Row>, f: seq<nat>, dim: string, gap: real)
    requires Embeds(rows, more, f) && PairsWithin(more, dim, gap)
    ensures PairsWithin(rows, dim, gap)
  {
    forall i, j | 0 <= i < j < |rows|
      ensures PairWithin(rows[i], rows[j], dim, gap)
    {
      var a, b := f[i], f[j];
      assert PairWithin(more[if a < b then a else b], more[if a < b then b else a], dim, gap);
    }
  }

  /** Every limit of `loose` is also set in `tight`, and there at least as strict. */
  predicate TighterRule(loose: Rule, tight: Rule) {
    && (loose.minApproval.Some? ==> tight.minApproval.Some? && tight.minApproval.value >= loose.minApproval.value)
    && (loose.maxOverride.Some? ==> tight.maxOverride.Some? && tight.maxOverride.value <= loose.maxOverride.value)
    && (loose.maxGap.Some? ==> tight.maxGap.Some? && tight.maxGap.value <= loose.maxGap.value)
  }

  /** Tightening thresholds never turns a fail into a pass. */
  lemma {:induction false} TighterStricter(rows: seq<Row>, loose: Thresholds, tight: Thresholds)
    requires forall dim :: TighterRule(RuleFor(loose, dim), RuleFor(tight, dim))
    requires Fair(rows, tight)
    ensures Fair(rows, loose)
  {
    hide RuleFor;
    forall dim
      ensures DimensionFair(rows, dim, RuleFor(loose, dim))
    {
      var l, t := RuleFor(loose, dim), RuleFor(tight, dim);
      assert TighterRule(l, t) && DimensionFair(rows, dim, t);
      forall r | r in rows && Counted(r) && r.dimension == dim
        ensures MeetsLimits(r, l)
      {
        assert MeetsLimits(r, t);
      }
      if l.maxGap.Some? {
        WiderGap(rows, dim, t.maxGap.value, l.maxGap.value);
      }
    }
  }

  lemma {:induction false} WiderGap(rows: seq<Row>, dim: string, gap: real, wider: real)
    requires gap <= wider && PairsWithin(rows, dim, gap)
    ensures PairsWithin(rows, dim, wider)
  {
    forall i, j | 0 <= i < j < |rows|
      ensures PairWithin(rows[i], rows[j], dim, wider)
    {
      assert PairWithin(rows[i], rows[j], dim, gap);
    }
  }

  // ---------- what a breach reports ----------

  /** Two rated rows of the dimension whose rates are further apart than the limit, by the reported value. */
  ghost predicate GapWitness(rows: seq<Row>, b: Breach, high: Row, low: Row) {
    && high in rows && low in rows && Rated(high, b.dimension) && Rated(low, b.dimension)
    && b.value == high.approvalRate.value - low.approvalRate.value > b.threshold
  }

  /** The breach is a fact about the rows. */
  ghost predicate Justified(rows: seq<Row>, th: Thresholds, b: Breach) {
    var rule := RuleFor(th, b.dimension);
    match b.rule
    case MinApprovalRate =>
      exists r :: r in rows && Counted(r) && r.dimension == b.dimension && LowRow(b, b.dimension, rule.minApproval, r)
    case MaxOverrideRate =>
      exists r :: r in rows && Counted(r) && r.dimension == b.dimension && HighRow(b, b.dimension, rule.maxOverride, r)
    case MaxApprovalGap =>
      rule.maxGap == Some(b.threshold) && exists high, low :: GapWitness(rows, b, high, low)
  }

  lemma {:induction false} GapJustified(rows: seq<Row>, dim: string, maxGap: Option<real>, b: Breach)
    requires b in GapBreaches(dim, maxGap, Rates(Group(rows, dim)))
    ensures b.rule == MaxApprovalGap && b.dimension == dim && maxGap == Some(b.threshold)
    ensures exists high, low :: GapWitness(rows, b, high, low)
  {
    hide MaxOf, MinOf, Group, Rates;
    var rates := Rates(Group(rows, dim));
    Extremes(rates);
    var h: nat :| h < |rates| && rates[h] == MaxOf(rates);
    var l: nat :| l < |rates| && rates[l] == MinOf(rates);
    var i := RowOfRate(rows, dim, rates[h]);
    var j := RowOfRate(rows, dim, rates[l]);
    assert GapWitness(rows, b, rows[i], rows[j]);
  }

  lemma {:induction false} DimensionJustified(rows: seq<Row>, th: Thresholds, dim: string, b: Breach)
    requires b in BreachesOf(dim, RuleFor(th, dim), Group(rows, dim))
    ensures Justified(rows, th, b)
  {
    hide LowApprovals, HighOverrides, GapBreaches, Rates, Group, RuleFor, GapWitness;
    var rule, group := RuleFor(th, dim), Group(rows, dim);
    LowApprovalsIff(dim, rule.minApproval, group, b);
    HighOverridesIff(dim, rule.maxOverride, group, b);
    if b in LowApprovals(dim, rule.minApproval, group) {
      var r :| r in group && LowRow(b, dim, rule.minApproval, r);
      InGroup(rows, dim, r);
    } else if b in HighOverrides(dim, rule.maxOverride, group) {
      var r :| r in group && HighRow(b, dim, rule.maxOverride, r);
      InGroup(rows, dim, r);
    } else {
      GapJustified(rows, dim, rule.maxGap, b);
    }
  }

  lemma {:induction false} JustifiedIn(rows: seq<Row>, th: Thresholds, dims: seq<string>, b: Breach)
    requires b in BreachesIn(rows, th, dims)
    ensures Justified(rows, th, b)
  {
    hide BreachesOf, Justified, RuleFor, Group;
    var d := dims[|dims| - 1];
    if b in BreachesOf(d, RuleFor(th, d), Group(rows, d)) {
      DimensionJustified(rows, th, d, b);
    } else {
      JustifiedIn(rows, th, dims[..|dims| - 1], b);
    }
  }

  // ---------- the auditor's rows ----------

  /** `FairnessAuditor._build_log`. */
  function BuildLog(minSample: int, period: string, dim: string, group: string,
                    total: nat, approved: nat, overrides: nat, now: int): Row
  {
    var insufficient := total < minSample;
    Row(period, dim, if group != "" then group else "UNKNOWN",
        if insufficient then None else Some(if total != 0 then approved as real / total as real else 0.0),
        if insufficient then None else Some(if total != 0 then overrides as real / total as real else 0.0),
        total, if insufficient then InsufficientSample else Ok, now)
  }

  /** The row says what was counted: its rates times its sample size are the numbers approved and overridden, unless
      the sample is too small, when it gives no rates. */
  lemma {:induction false} BuildLogMeaning(minSample: int, period: string, dim: string, group: string,
                                           total: nat, approved: nat, overrides: nat, now: int)
    ensures var r := BuildLog(minSample, period, dim, group, total, approved, overrides, now);
      && r.period == period && r.dimension == dim && r.sampleSize == total && r.computedAt == now
      && r.group != "" && (group != "" ==> r.group == group)
      && (r.status == InsufficientSample <==> total < minSample)
      && (total < minSample ==> r.approvalRate == None && r.overrideRate == None)
      && (total >= minSample ==> r.approvalRate.Some? && r.overrideRate.Some?)
      && (total >= minSample && total > 0 ==>
            && r.approvalRate.value * total as real == approved as real
            && r.overrideRate.value * total as real == overrides as real)
      && (total >= minSample && total == 0 ==> r.approvalRate == Some(0.0) && r.overrideRate == Some(0.0))
  {
    if total > 0 {
      QuotientTimes(approved as real, total as real);
      QuotientTimes(overrides as real, total as real);
    }
  }

  lemma {:induction false} QuotientTimes(x: real, y: real)
    requires y != 0.0
    ensures x / y * y == x
  {
  }

  /** The row was written by an auditor with this minimum sample size. */
  ghost predicate Audited(r: Row, minSample: int) {
    exists approved: nat, overrides: nat ::
      r == BuildLog(minSample, r.period, r.dimension, r.group, r.sampleSize, approved, overrides, r.computedAt)
  }

  /** A row takes part in the gate exactly when its sample is large enough, and then it has both rates. */
  lemma {:induction false} AuditedCounts(r: Row, minSample: int)
    requires Audited(r, minSample)
    ensures Counted(r) <==> r.sampleSize >= minSample
    ensures Counted(r) <==> r.approvalRate.Some?
    ensures Counted(r) <==> r.overrideRate.Some?
  {
    var approved: nat, overrides: nat :|
      r == BuildLog(minSample, r.period, r.dimension, r.group, r.sampleSize, approved, overrides, r.computedAt);
  }

  /** Every breach the gate reports is true of the rows, and over an auditor's rows the groups it rests on all have
      the minimum sample. */
  lemma {:induction false} BreachesRestOnLargeSamples(rows: seq<Row>, th: Thresholds, minSample: int, b: Breach)
    requires forall r :: r in rows ==> Audited(r, minSample)
    requires b in Breaches(rows, th)
    ensures Justified(rows, th, b)
    ensures b.rule != MaxApprovalGap ==>
      exists r :: r in rows && r.dimension == b.dimension && r.group == b.group && r.sampleSize >= minSample
    ensures b.rule == MaxApprovalGap ==>
      exists high, low :: GapWitness(rows, b, high, low) && high.sampleSize >= minSample && low.sampleSize >= minSample
  {
    hide BreachesIn, Dims, RuleFor, Audited;
    JustifiedIn(rows, th, Dims(rows), b);
    forall r | r in rows
      ensures Counted(r) ==> r.sampleSize >= minSample
    {
      AuditedCounts(r, minSample);
    }
  }

  // ---------- a gate that passes on nothing ----------

  lemma {:induction false} NoneCounted(rows: seq<Row>)
    ensures CountedRows(rows) == 0 <==> forall r :: r in rows ==> !Counted(r)
  {
    if rows != [] {
      NoneCounted(rows[..|rows| - 1]);
      assert rows == rows[..|rows| - 1] + [rows[|rows| - 1]];
    }
  }

  lemma {:induction false} InPeriod(store: seq<Row>, period: string, r: Row)
    ensures r in OfPeriod(store, period) <==> r in store && r.period == period
  {
    if store != [] {
      InPeriod(store[..|store| - 1], period, r);
      assert store == store[..|store| - 1] + [store[|store| - 1]];
    }
  }

  /** Nothing is evaluated for a requested period exactly when no counted row belongs to it, whether the period was
      never audited or is misspelt, and then the gate passes whatever the thresholds. */
  lemma {:induction false} PassesOnNothing(store: seq<Row>, period: string, th: Thresholds)
    requires period != ""
    ensures PeriodFor(store, Some(period)) == Some(period)
    ensures CountedRows(OfPeriod(store, period)) == 0
       <==> forall r :: r in store && r.period == period ==> !Counted(r)
    ensures CountedRows(OfPeriod(store, period)) == 0 ==>
      Fair(OfPeriod(store, period), th) && Breaches(OfPeriod(store, period), th) == []
  {
    hide OfPeriod, CountedRows, MeetsLimits, Breaches;
    var rows := OfPeriod(store, period);
    NoneCounted(rows);
    forall r
      ensures r in rows <==> r in store && r.period == period
    {
      InPeriod(store, period, r);
    }
    FairIffNoBreach(rows, th);
  }
}
