/** Counterfactual recourse: candidate improvements, their gains, and the greedy walk to the target score. */
module Recourse {
  import opened Wrappers
  import opened Rounding

  /** A feature dictionary; `None` is Python's None, a flag is zero or one. */
  type Features = map<string, Option<real>>

  const ATTENDANCE := "shg_meeting_attendance_pct"
  const SAVINGS := "shg_savings_consistency"
  const INSURANCE := "crop_insurance_enrolled"
  const UTILITY := "utility_payment_ontime_pct"
  const REPAYMENT := "shg_repayment_rate"
  const UPI := "upi_transaction_regularity"
  const PM_KISAN := "pm_kisan_regularity"

  const NON_ACTIONABLE: set<string> := {
    "land_holding_acres", "land_quality_ndvi_avg", "ndvi_trend_2season", "rainfall_deviation_pct",
    "irrigation_access", "shg_membership_years", "estimated_crop_income_kharif", "estimated_crop_income_rabi",
    "asset_score", "income_stability_cv", "village_id", "gender", "landholding_band", "agro_climatic_zone"
  }

  datatype Candidate = Candidate(feature: string, current: real, target: real)

  datatype Action = Action(feature: string, current: real, target: real, impact: int)

  datatype Plan = Plan(
    eligible: bool, currentScore: int, targetScore: int, projectedScore: int, pathways: seq<Action>)

  // ---------- candidates ----------

  /** `float(features.get(name, 0.0) or 0.0)`. */
  function Number(f: Features, name: string): real {
    if name in f && f[name].Some? then f[name].value else 0.0
  }

  /** One improvement, offered while the value is below `below`. */
  function Offer(f: Features, name: string, below: real, target: real): seq<Candidate> {
    if Number(f, name) < below then [Candidate(name, Number(f, name), target)] else []
  }

  function AttendanceOffer(f: Features): seq<Candidate> {
    Offer(f, ATTENDANCE, 95.0, MinReal(100.0, MaxReal(85.0, Number(f, ATTENDANCE) + 25.0)))
  }

  function SavingsOffer(f: Features): seq<Candidate> {
    Offer(f, SAVINGS, 0.90, MinReal(1.0, MaxReal(0.75, Number(f, SAVINGS) + 0.35)))
  }

  /** Enrolment is a flag: offered while it is false. */
  function InsuranceOffer(f: Features): seq<Candidate> {
    if Number(f, INSURANCE) == 0.0 then [Candidate(INSURANCE, 0.0, 1.0)] else []
  }

  function UtilityOffer(f: Features): seq<Candidate> {
    Offer(f, UTILITY, 95.0, MinReal(100.0, MaxReal(90.0, Number(f, UTILITY) + 25.0)))
  }

  function RepaymentOffer(f: Features): seq<Candidate> {
    Offer(f, REPAYMENT, 0.95, MinReal(1.0, MaxReal(0.90, Number(f, REPAYMENT) + 0.20)))
  }

  function UpiOffer(f: Features): seq<Candidate> {
    Offer(f, UPI, 0.70, MinReal(1.0, Number(f, UPI) + 0.35))
  }

  function PmKisanOffer(f: Features): seq<Candidate> {
    Offer(f, PM_KISAN, 0.90, 1.0)
  }

  function Candidates(f: Features): seq<Candidate> {
    AttendanceOffer(f) + SavingsOffer(f) + InsuranceOffer(f) + UtilityOffer(f) + RepaymentOffer(f) + UpiOffer(f)
    + PmKisanOffer(f)
  }

  // ---------- gains ----------

  /** The gain of one candidate alone, at its unrounded target. */
  function Gain(score: Features -> int, f: Features, c: Candidate): int {
    score(f[c.feature := Some(c.target)]) - score(f)
  }

  /** The action shown for a candidate: its values rounded to two decimals. */
  function ActionFor(c: Candidate, impact: int): Action {
    Action(c.feature, RoundTo(c.current, 100.0), RoundTo(c.target, 100.0), impact)
  }

  function Evaluated(score: Features -> int, f: Features, cs: seq<Candidate>): seq<Action> {
    if cs == [] then []
    else
      var c := cs[|cs| - 1];
      var gain := Gain(score, f, c);
      Evaluated(score, f, cs[..|cs| - 1]) + (if gain > 0 then [ActionFor(c, gain)] else [])
  }

  // ---------- the stable sort ----------

  function Insert(a: Action, s: seq<Action>): seq<Action> {
    if s == [] || a.impact >= s[0].impact then [a] + s else [s[0]] + Insert(a, s[1..])
  }

  /** `sort(key=lambda x: -x[0])`. */
  function SortByGain(s: seq<Action>): seq<Action> {
    if s == [] then [] else Insert(s[0], SortByGain(s[1..]))
  }

  // ---------- the greedy walk ----------

  function Apply(f: Features, a: Action): Features {
    f[a.feature := Some(a.target)]
  }

  datatype Walk = Walk(chosen: seq<Action>, features: Features, running: int, stopped: bool)

  datatype Goal = Goal(score: Features -> int, target: int, limit: int) {
    /** One round of the loop; once stopped, the rest of the list is not looked at. */
    function Visit(w: Walk, a: Action): Walk {
      if w.stopped || |w.chosen| >= limit then w.(stopped := true)
      else
        var trial := Apply(w.features, a);
        var s := score(trial);
        if s > w.running then Walk(w.chosen + [a.(impact := s - w.running)], trial, s, s >= target)
        else w.(stopped := w.running >= target)
    }

    function WalkOver(f: Features, actions: seq<Action>): Walk {
      if actions == [] then Walk([], f, score(f), false)
      else Visit(WalkOver(f, actions[..|actions| - 1]), actions[|actions| - 1])
    }

    function PlanFor(f: Features): Plan {
      if score(f) >= target then Plan(false, score(f), target, score(f), [])
      else
        var w := WalkOver(f, SortByGain(Evaluated(score, f, Candidates(f))));
        Plan(true, score(f), target, w.running, w.chosen)
    }
  }

  class CounterfactualRecourseEngine {
    const score: Features -> int

    constructor (score: Features -> int)
      ensures this.score == score
    {
      this.score := score;
    }

    /** Appends one improvement while the value is below `below`. */
    method Consider(cs: seq<Candidate>, f: Features, name: string, below: real, target: real)
      returns (more: seq<Candidate>)
      ensures more == cs + Offer(f, name, below, target)
    {
      more := cs;
      var current := Number(f, name);
      if current < below {
        more := more + [Candidate(name, current, target)];
      }
    }

    /** The candidate list, in the order the features are looked at. */
    method CandidateImprovements(f: Features) returns (cs: seq<Candidate>)
      ensures cs == Candidates(f)
    {
      hide Number, MinReal, MaxReal;
      cs := Consider([], f, ATTENDANCE, 95.0, MinReal(100.0, MaxReal(85.0, Number(f, ATTENDANCE) + 25.0)));
      assert cs == AttendanceOffer(f);
      cs := Consider(cs, f, SAVINGS, 0.90, MinReal(1.0, MaxReal(0.75, Number(f, SAVINGS) + 0.35)));
      hide Offer;
      if Number(f, INSURANCE) == 0.0 {
        cs := cs + [Candidate(INSURANCE, 0.0, 1.0)];
      } else {
        assert cs + [] == cs;
      }
      assert cs == AttendanceOffer(f) + SavingsOffer(f) + InsuranceOffer(f);
      hide InsuranceOffer;
      cs := Consider(cs, f, UTILITY, 95.0, MinReal(100.0, MaxReal(90.0, Number(f, UTILITY) + 25.0)));
      cs := Consider(cs, f, REPAYMENT, 0.95, MinReal(1.0, MaxReal(0.90, Number(f, REPAYMENT) + 0.20)));
      cs := Consider(cs, f, UPI, 0.70, MinReal(1.0, Number(f, UPI) + 0.35));
      cs := Consider(cs, f, PM_KISAN, 0.90, 1.0);
    }

    /** The loop that tries every candidate alone. */
    method EvaluateGains(f: Features, currentScore: int, cs: seq<Candidate>) returns (actions: seq<Action>)
      requires currentScore == score(f)
      ensures actions == Evaluated(score, f, cs)
    {
      actions := [];
      var i := 0;
      while i < |cs|
        invariant 0 <= i <= |cs|
        invariant actions == Evaluated(score, f, cs[..i])
      {
        assert cs[..i + 1][..i] == cs[..i];
        var c := cs[i];
        var newScore := score(f[c.feature := Some(c.target)]);
        var gain := newScore - currentScore;
        if gain > 0 {
          actions := actions + [ActionFor(c, gain)];
        }
        i := i + 1;
      }
      assert cs[..i] == cs;
    }

    /** The accumulating loop with its two exits. */
    method Accumulate(f: Features, currentScore: int, targetScore: int, maxPathways: int, actions: seq<Action>)
      returns (chosen: seq<Action>, running: int)
      requires currentScore == score(f) < targetScore
      ensures var w := Goal(score, targetScore, maxPathways).WalkOver(f, actions);
        chosen == w.chosen && running == w.running
    {
      ghost var g := Goal(score, targetScore, maxPathways);
      chosen, running := [], currentScore;
      var accumulated := f;
      var i := 0;
      while i < |actions|
        invariant 0 <= i <= |actions|
        invariant g.WalkOver(f, actions[..i]) == Walk(chosen, accumulated, running, false)
        invariant running < targetScore
      {
        if |chosen| >= maxPathways {
          NothingMore(g, f, actions, i);
          return;
        }
        assert actions[..i + 1][..i] == actions[..i];
        var action := actions[i];
        var trial := Apply(accumulated, action);
        var newRunning := score(trial);
        if newRunning > running {
          chosen := chosen + [action.(impact := newRunning - running)];
          accumulated := trial;
          running := newRunning;
        }
        i := i + 1;
        if running >= targetScore {
          NothingMore(g, f, actions, i);
          return;
        }
      }
      assert actions[..i] == actions;
    }

    /** `generate_recourse`; what the plan promises is `PlanReplays`, `PlanActionable` and `SomePathIff`. */
    method GenerateRecourse(f: Features, targetScore: int, maxPathways: int) returns (plan: Plan)
      ensures plan == Goal(score, targetScore, maxPathways).PlanFor(f)
    {
      hide SortByGain, Evaluated, Candidates;
      var currentScore := score(f);
      if currentScore >= targetScore {
        return Plan(false, currentScore, targetScore, currentScore, []);
      }
      var candidates := CandidateImprovements(f);
      var evaluated := EvaluateGains(f, currentScore, candidates);
      var chosen, running := Accumulate(f, currentScore, targetScore, maxPathways, SortByGain(evaluated));
      plan := Plan(true, currentScore, targetScore, running, chosen);
    }
  }

  /** After either exit the rest of the list changes neither the pathways nor the score. */
  lemma {:induction false} NothingMore(g: Goal, f: Features, actions: seq<Action>, i: nat)
    requires i <= |actions|
    requires var w := g.WalkOver(f, actions[..i]); w.stopped || |w.chosen| >= g.limit
    ensures var w, end := g.WalkOver(f, actions[..i]), g.WalkOver(f, actions);
      && end.chosen == w.chosen && end.running == w.running && end.features == w.features
      && (end.stopped || i == |actions|)
  {
    if i == |actions| {
      assert actions[..i] == actions;
    } else {
      var n := |actions| - 1;
      assert actions[..n][..i] == actions[..i];
      NothingMore(g, f, actions[..n], i);
    }
  }

  // ---------- the walk can be replayed ----------

  function ApplyAll(f: Features, path: seq<Action>): Features {
    if path == [] then f else Apply(ApplyAll(f, path[..|path| - 1]), path[|path| - 1])
  }

  function Impacts(path: seq<Action>): int {
    if path == [] then 0 else Impacts(path[..|path| - 1]) + path[|path| - 1].impact
  }

  /** Following the path changes the score by the stated, positive impact at step `k`, which had not reached the
      target before it. */
  predicate StepReplays(g: Goal, f: Features, path: seq<Action>, k: nat)
    requires k < |path|
  {
    var before, after := g.score(ApplyAll(f, path[..k])), g.score(ApplyAll(f, path[..k + 1]));
    after - before == path[k].impact > 0 && before < g.target
  }

  ghost predicate Replays(g: Goal, f: Features, path: seq<Action>) {
    forall k: nat :: k < |path| ==> StepReplays(g, f, path, k)
  }

  lemma {:induction false} OlderStep(g: Goal, f: Features, path: seq<Action>, a: Action, k: nat)
    requires k < |path| && StepReplays(g, f, path, k)
    ensures StepReplays(g, f, path + [a], k)
  {
    hide ApplyAll;
    assert (path + [a])[..k] == path[..k] && (path + [a])[..k + 1] == path[..k + 1];
  }

  lemma {:induction false} ApplySnoc(f: Features, path: seq<Action>, a: Action)
    ensures ApplyAll(f, path + [a]) == Apply(ApplyAll(f, path), a)
    ensures Impacts(path + [a]) == Impacts(path) + a.impact
  {
    hide Apply;
    assert (path + [a])[..|path|] == path;
  }

  lemma {:induction false} NewStep(g: Goal, f: Features, path: seq<Action>, a: Action)
    requires g.score(ApplyAll(f, path)) < g.target
    requires g.score(Apply(ApplyAll(f, path), a)) - g.score(ApplyAll(f, path)) == a.impact > 0
    ensures StepReplays(g, f, path + [a], |path|)
  {
    hide ApplyAll, Apply;
    var more, n := path + [a], |path|;
    ApplySnoc(f, path, a);
    assert more[..n] == path;
    assert more[..n + 1] == more;
  }

  lemma {:induction false} ReplaysSnoc(g: Goal, f: Features, path: seq<Action>, a: Action)
    requires Replays(g, f, path)
    requires g.score(ApplyAll(f, path)) < g.target
    requires g.score(Apply(ApplyAll(f, path), a)) - g.score(ApplyAll(f, path)) == a.impact > 0
    ensures Replays(g, f, path + [a])
  {
    hide ApplyAll, Apply, StepReplays;
    forall k: nat | k <= |path|
      ensures StepReplays(g, f, path + [a], k)
    {
      if k < |path| {
        OlderStep(g, f, path, a, k);
      } else {
        NewStep(g, f, path, a);
      }
    }
  }

  /** What the walk keeps. */
  ghost predicate WalkOk(g: Goal, f: Features, w: Walk) {
    && Replays(g, f, w.chosen)
    && w.features == ApplyAll(f, w.chosen)
    && w.running == g.score(w.features) == g.score(f) + Impacts(w.chosen)
    && (!w.stopped ==> w.running < g.target)
    && |w.chosen| <= (if g.limit > 0 then g.limit else 0)
    && (w.stopped ==> w.running >= g.target || |w.chosen| >= g.limit)
  }

  lemma {:induction false} VisitReplays(g: Goal, f: Features, w: Walk, a: Action)
    requires WalkOk(g, f, w)
    ensures WalkOk(g, f, g.Visit(w, a))
  {
    hide Replays, ApplyAll, Impacts;
    if !w.stopped && |w.chosen| < g.limit {
      var s := g.score(Apply(w.features, a));
      if s > w.running {
        ReplaysSnoc(g, f, w.chosen, a.(impact := s - w.running));
        ApplySnoc(f, w.chosen, a.(impact := s - w.running));
      }
    }
  }

  lemma {:induction false} WalkReplays(g: Goal, f: Features, actions: seq<Action>)
    requires g.score(f) < g.target
    ensures WalkOk(g, f, g.WalkOver(f, actions))
  {
    if actions == [] {
      assert Replays(g, f, []);
    } else {
      hide WalkOk, Goal.Visit;
      WalkReplays(g, f, actions[..|actions| - 1]);
      VisitReplays(g, f, g.WalkOver(f, actions[..|actions| - 1]), actions[|actions| - 1]);
    }
  }

  /** The plan can be replayed: following its pathways in order gives the projected score, which is the current score
      plus the impacts; each step helps by what it says, none is superfluous, and there are at most `limit`. */
  lemma {:induction false} PlanReplays(g: Goal, f: Features)
    ensures var plan := g.PlanFor(f);
      && plan.currentScore == g.score(f) && plan.targetScore == g.target
      && (plan.eligible <==> plan.currentScore < g.target)
      && Replays(g, f, plan.pathways)
      && plan.projectedScore == g.score(ApplyAll(f, plan.pathways)) == plan.currentScore + Impacts(plan.pathways)
      && |plan.pathways| <= (if g.limit > 0 then g.limit else 0)
  {
    hide SortByGain, Evaluated, Candidates, Goal.WalkOver;
    if g.score(f) < g.target {
      WalkReplays(g, f, SortByGain(Evaluated(g.score, f, Candidates(f))));
    } else {
      assert Replays(g, f, []);
    }
  }

  // ---------- when there is anything to suggest ----------

  /** The action alone, at the target it shows, raises the score. */
  predicate Helps(g: Goal, f: Features, a: Action) {
    g.score(Apply(f, a)) > g.score(f)
  }

  /** With no pathway yet the walk is still where it began. */
  lemma {:induction false} VisitChosen(g: Goal, f: Features, w: Walk, a: Action)
    requires WalkOk(g, f, w) && g.score(f) < g.target && g.limit > 0
    ensures g.Visit(w, a).chosen != [] <==> w.chosen != [] || Helps(g, f, a)
  {
    hide Replays;
    if w.chosen == [] {
      assert w.features == f && w.running == g.score(f);
    }
  }

  lemma {:induction false} ChosenIff(g: Goal, f: Features, actions: seq<Action>)
    requires g.score(f) < g.target && g.limit > 0
    ensures g.WalkOver(f, actions).chosen != [] <==> exists a :: a in actions && Helps(g, f, a)
  {
    if actions != [] {
      var before, last := actions[..|actions| - 1], actions[|actions| - 1];
      hide WalkOk, Goal.Visit, Helps;
      ChosenIff(g, f, before);
      WalkReplays(g, f, before);
      VisitChosen(g, f, g.WalkOver(f, before), last);
      assert forall a :: a in actions <==> a in before || a == last;
    }
  }

  // ---------- sorting ----------

  predicate Descending(s: seq<Action>) {
    forall i, j :: 0 <= i < j < |s| ==> s[i].impact >= s[j].impact
  }

  /** The actions of one gain, in order. */
  function OfGain(s: seq<Action>, gain: int): seq<Action> {
    if s == [] then [] else (if s[0].impact == gain then [s[0]] else []) + OfGain(s[1..], gain)
  }

  lemma {:induction false} InsertMembers(a: Action, s: seq<Action>, x: Action)
    ensures x in Insert(a, s) <==> x == a || x in s
  {
    if s != [] && a.impact < s[0].impact {
      InsertMembers(a, s[1..], x);
      assert s == [s[0]] + s[1..];
    }
  }

  lemma {:induction false} InsertContents(a: Action, s: seq<Action>)
    ensures multiset(Insert(a, s)) == multiset{a} + multiset(s)
  {
    if s != [] && a.impact < s[0].impact {
      InsertContents(a, s[1..]);
      assert s == [s[0]] + s[1..];
    }
  }

  lemma {:induction false} InsertDescending(a: Action, s: seq<Action>)
    requires Descending(s)
    ensures Descending(Insert(a, s))
  {
    if s != [] && a.impact < s[0].impact {
      var rest := Insert(a, s[1..]);
      InsertDescending(a, s[1..]);
      forall i | 0 <= i < |rest|
        ensures s[0].impact >= rest[i].impact
      {
        InsertMembers(a, s[1..], rest[i]);
      }
    }
  }

  lemma {:induction false} InsertStable(a: Action, s: seq<Action>, gain: int)
    requires Descending(s)
    ensures OfGain(Insert(a, s), gain) == (if a.impact == gain then [a] else []) + OfGain(s, gain)
  {
    if s == [] || a.impact >= s[0].impact {
      assert ([a] + s)[1..] == s;
    } else {
      InsertStable(a, s[1..], gain);
      assert Insert(a, s)[1..] == Insert(a, s[1..]);
      if a.impact == gain {
        assert s[0].impact != gain;
      }
    }
  }

  /** The sort orders by gain, only rearranges, and keeps actions of equal gain in their order. */
  lemma {:induction false} SortMeaning(s: seq<Action>)
    ensures Descending(SortByGain(s)) && multiset(SortByGain(s)) == multiset(s)
    ensures forall gain :: OfGain(SortByGain(s), gain) == OfGain(s, gain)
  {
    if s != [] {
      SortMeaning(s[1..]);
      InsertDescending(s[0], SortByGain(s[1..]));
      InsertContents(s[0], SortByGain(s[1..]));
      assert s == [s[0]] + s[1..];
      forall gain
        ensures OfGain(SortByGain(s), gain) == OfGain(s, gain)
      {
        InsertStable(s[0], SortByGain(s[1..]), gain);
      }
    }
  }

  lemma {:induction false} SortMembers(s: seq<Action>, a: Action)
    ensures a in SortByGain(s) <==> a in s
  {
    SortMeaning(s);
    assert a in multiset(SortByGain(s)) <==> a in multiset(s);
  }

  lemma {:induction false} EvaluatedMembers(score: Features -> int, f: Features, cs: seq<Candidate>, a: Action)
    ensures a in Evaluated(score, f, cs)
       <==> exists c :: c in cs && Gain(score, f, c) > 0 && a == ActionFor(c, Gain(score, f, c))
  {
    if cs != [] {
      var before, last := cs[..|cs| - 1], cs[|cs| - 1];
      hide ActionFor, Gain;
      EvaluatedMembers(score, f, before, a);
      assert forall c :: c in cs <==> c in before || c == last;
    }
  }

  /** An eligible borrower is offered something exactly when some candidate helps twice: at its full target, where
      its gain is measured, and at the rounded target that is shown and applied. */
  lemma {:induction false} SomePathIff(g: Goal, f: Features)
    requires g.score(f) < g.target && g.limit > 0
    ensures g.PlanFor(f).pathways != [] <==>
      exists c :: c in Candidates(f) && Gain(g.score, f, c) > 0 && Helps(g, f, ActionFor(c, Gain(g.score, f, c)))
  {
    hide Candidates, Gain, ActionFor, Helps, SortByGain, Evaluated, Goal.WalkOver;
    var actions := Evaluated(g.score, f, Candidates(f));
    ChosenIff(g, f, SortByGain(actions));
    forall a
      ensures a in SortByGain(actions) <==>
        exists c :: c in Candidates(f) && Gain(g.score, f, c) > 0 && a == ActionFor(c, Gain(g.score, f, c))
    {
      SortMembers(actions, a);
      EvaluatedMembers(g.score, f, Candidates(f), a);
    }
  }

  // ---------- what may be suggested ----------

  /** Position of an actionable feature in the candidate list; 7 for every other name. */
  function Rank(name: string): nat {
    if name == ATTENDANCE then 0
    else if name == SAVINGS then 1
    else if name == INSURANCE then 2
    else if name == UTILITY then 3
    else if name == REPAYMENT then 4
    else if name == UPI then 5
    else if name == PM_KISAN then 6
    else 7
  }

  /** The seven names are different. */
  lemma {:induction false} Ranks()
    ensures Rank(ATTENDANCE) == 0 && Rank(SAVINGS) == 1 && Rank(INSURANCE) == 2 && Rank(UTILITY) == 3
    ensures Rank(REPAYMENT) == 4 && Rank(UPI) == 5 && Rank(PM_KISAN) == 6
  {
    assert |ATTENDANCE| == |UTILITY| == |UPI| == 26 && |SAVINGS| == |INSURANCE| == 23;
    assert |REPAYMENT| == 18 && |PM_KISAN| == 19;
    assert SAVINGS[0] != INSURANCE[0] && ATTENDANCE[0] != UTILITY[0] && UTILITY[1] != UPI[1];
  }

  /** None of the seven is a protected attribute. */
  lemma {:induction false} ActionableOnly(name: string)
    requires name in NON_ACTIONABLE
    ensures Rank(name) == 7
  {
    assert |ATTENDANCE| == |UTILITY| == |UPI| == 26 && |SAVINGS| == |INSURANCE| == 23;
    assert |REPAYMENT| == 18 && |PM_KISAN| == 19;
    assert ATTENDANCE[0] == SAVINGS[0] == REPAYMENT[0] == 's' && UTILITY[0] == UPI[0] == 'u';
    assert PM_KISAN[0] == 'p' && INSURANCE[0] == 'c';
  }

  /** The ceiling of a feature's scale. */
  function Cap(name: string): real {
    if name == ATTENDANCE || name == UTILITY then 100.0 else 1.0
  }

  /** An improvement of the value the borrower has, within the scale. */
  predicate CandidateOk(f: Features, c: Candidate) {
    && Rank(c.feature) < 7 && c.current == Number(f, c.feature)
    && c.current + 0.04 < c.target <= Cap(c.feature)
  }

  /** Candidates in rank order, all below rank `r`. */
  ghost predicate Ranked(f: Features, cs: seq<Candidate>, r: nat) {
    && (forall i :: 0 <= i < |cs| ==> CandidateOk(f, cs[i]) && Rank(cs[i].feature) < r)
    && forall i, j :: 0 <= i < j < |cs| ==> Rank(cs[i].feature) < Rank(cs[j].feature)
  }

  /** The offer of rank `r`, if made, is an improvement by a margin no rounding eats up. */
  predicate OfferOk(f: Features, offer: seq<Candidate>, r: nat) {
    |offer| <= 1 && forall i :: 0 <= i < |offer| ==> CandidateOk(f, offer[i]) && Rank(offer[i].feature) == r
  }

  lemma {:induction false} RankedOffer(f: Features, cs: seq<Candidate>, r: nat, offer: seq<Candidate>)
    requires Ranked(f, cs, r) && OfferOk(f, offer, r)
    ensures Ranked(f, cs + offer, r + 1)
  {
    hide Rank, CandidateOk;
  }

  lemma {:induction false} PercentOffersOk(f: Features)
    ensures OfferOk(f, AttendanceOffer(f), 0) && OfferOk(f, UtilityOffer(f), 3)
  {
    Ranks();
    Caps();
    hide Rank, Cap, Number;
  }

  lemma {:induction false} ShareOffersOk(f: Features)
    ensures OfferOk(f, SavingsOffer(f), 1) && OfferOk(f, RepaymentOffer(f), 4)
  {
    Ranks();
    Caps();
    hide Rank, Cap, Number;
  }

  lemma {:induction false} OtherOffersOk(f: Features)
    ensures OfferOk(f, InsuranceOffer(f), 2) && OfferOk(f, UpiOffer(f), 5) && OfferOk(f, PmKisanOffer(f), 6)
  {
    Ranks();
    Caps();
    hide Rank, Cap, Number;
  }

  lemma {:induction false} CandidatesRanked(f: Features)
    ensures Ranked(f, Candidates(f), 7)
  {
    PercentOffersOk(f);
    ShareOffersOk(f);
    OtherOffersOk(f);
    hide AttendanceOffer, SavingsOffer, InsuranceOffer, UtilityOffer, RepaymentOffer, UpiOffer, PmKisanOffer;
    hide Rank, CandidateOk;
    var a := AttendanceOffer(f);
    assert Ranked(f, a, 1);
    hide Ranked;
    var b := a + SavingsOffer(f);
    RankedOffer(f, a, 1, SavingsOffer(f));
    var c := b + InsuranceOffer(f);
    RankedOffer(f, b, 2, InsuranceOffer(f));
    var d := c + UtilityOffer(f);
    RankedOffer(f, c, 3, UtilityOffer(f));
    var e := d + RepaymentOffer(f);
    RankedOffer(f, d, 4, RepaymentOffer(f));
    RankedOffer(f, e, 5, UpiOffer(f));
    RankedOffer(f, e + UpiOffer(f), 6, PmKisanOffer(f));
  }

  lemma {:induction false} Caps()
    ensures Cap(ATTENDANCE) == Cap(UTILITY) == 100.0
    ensures Cap(SAVINGS) == Cap(REPAYMENT) == Cap(UPI) == Cap(PM_KISAN) == Cap(INSURANCE) == 1.0
  {
    Ranks();
  }

  /** An action is a candidate as shown. */
  predicate ActionOk(f: Features, a: Action) {
    && Rank(a.feature) < 7
    && Number(f, a.feature) < a.target <= Cap(a.feature)
    && a.current < a.target
  }

  lemma {:induction false} ActionForOk(f: Features, c: Candidate, impact: int)
    requires CandidateOk(f, c)
    ensures ActionOk(f, ActionFor(c, impact))
  {
    hide RoundTo, Rank, Number;
    RoundTo2Near(c.current);
    RoundTo2Near(c.target);
    RoundToMonotone(c.target, Cap(c.feature), 100.0);
    CapRounds(c.feature);
  }

  lemma {:induction false} CapRounds(name: string)
    ensures RoundTo(Cap(name), 100.0) == Cap(name)
  {
    RoundOfInt(10_000);
    RoundOfInt(100);
  }

  ghost predicate DistinctFeatures(s: seq<Action>) {
    forall i, j :: 0 <= i < j < |s| ==> s[i].feature != s[j].feature
  }

  ghost predicate AllOk(f: Features, s: seq<Action>) {
    forall a :: a in s ==> ActionOk(f, a)
  }

  lemma {:induction false} EvaluatedOk(score: Features -> int, f: Features, cs: seq<Candidate>, r: nat)
    requires Ranked(f, cs, r)
    ensures AllOk(f, Evaluated(score, f, cs)) && DistinctFeatures(Evaluated(score, f, cs))
    ensures forall a :: a in Evaluated(score, f, cs) ==> exists i :: 0 <= i < |cs| && cs[i].feature == a.feature
  {
    hide Gain, CandidateOk, ActionOk, Rank;
    if cs != [] {
      var n := |cs| - 1;
      EvaluatedOk(score, f, cs[..n], r);
      ActionForOk(f, cs[n], Gain(score, f, cs[n]));
      forall a | a in Evaluated(score, f, cs[..n])
        ensures a.feature != cs[n].feature
        ensures exists i :: 0 <= i < |cs| && cs[i].feature == a.feature
      {
        var i :| 0 <= i < n && cs[..n][i].feature == a.feature;
        assert cs[i].feature == a.feature;
      }
    }
  }

  lemma {:induction false} InsertDistinct(a: Action, s: seq<Action>)
    requires DistinctFeatures(s) && forall x :: x in s ==> x.feature != a.feature
    ensures DistinctFeatures(Insert(a, s))
  {
    if s != [] && a.impact < s[0].impact {
      var rest := Insert(a, s[1..]);
      InsertDistinct(a, s[1..]);
      forall i | 0 <= i < |rest|
        ensures rest[i].feature != s[0].feature
      {
        InsertMembers(a, s[1..], rest[i]);
      }
    }
  }

  lemma {:induction false} SortDistinct(s: seq<Action>)
    requires DistinctFeatures(s)
    ensures DistinctFeatures(SortByGain(s))
  {
    if s != [] {
      SortDistinct(s[1..]);
      forall x | x in SortByGain(s[1..])
        ensures x.feature != s[0].feature
      {
        SortMembers(s[1..], x);
      }
      hide DistinctFeatures;
      InsertDistinct(s[0], SortByGain(s[1..]));
    }
  }

  /** `x` is one of the actions, its impact apart. */
  ghost predicate Among(x: Action, actions: seq<Action>) {
    exists i :: 0 <= i < |actions| && x == actions[i].(impact := x.impact)
  }

  ghost predicate AllAmong(chosen: seq<Action>, actions: seq<Action>) {
    forall k :: 0 <= k < |chosen| ==> Among(chosen[k], actions)
  }

  lemma {:induction false} AmongGrows(x: Action, actions: seq<Action>)
    requires actions != [] && DistinctFeatures(actions) && Among(x, actions[..|actions| - 1])
    ensures Among(x, actions) && x.feature != actions[|actions| - 1].feature
  {
    var n := |actions| - 1;
    var i :| 0 <= i < n && x == actions[..n][i].(impact := x.impact);
    assert actions[i] == actions[..n][i];
  }

  lemma {:induction false} VisitOfActions(g: Goal, w: Walk, actions: seq<Action>)
    requires actions != [] && DistinctFeatures(actions)
    requires AllAmong(w.chosen, actions[..|actions| - 1]) && DistinctFeatures(w.chosen)
    ensures var v := g.Visit(w, actions[|actions| - 1]);
      AllAmong(v.chosen, actions) && DistinctFeatures(v.chosen)
  {
    hide Apply, Among;
    var a := actions[|actions| - 1];
    forall k | 0 <= k < |w.chosen|
      ensures Among(w.chosen[k], actions) && w.chosen[k].feature != a.feature
    {
      AmongGrows(w.chosen[k], actions);
    }
    LastAmong(actions, g.score(Apply(w.features, a)) - w.running);
  }

  lemma {:induction false} LastAmong(actions: seq<Action>, impact: int)
    requires actions != []
    ensures Among(actions[|actions| - 1].(impact := impact), actions)
  {
    assert actions[|actions| - 1].(impact := impact) == actions[|actions| - 1].(impact := impact);
  }

  /** The pathways of a walk are actions of its list, none twice. */
  lemma {:induction false} WalkOfActions(g: Goal, f: Features, actions: seq<Action>)
    requires DistinctFeatures(actions)
    ensures AllAmong(g.WalkOver(f, actions).chosen, actions) && DistinctFeatures(g.WalkOver(f, actions).chosen)
  {
    if actions != [] {
      hide Apply, Among, Goal.Visit;
      WalkOfActions(g, f, actions[..|actions| - 1]);
      VisitOfActions(g, g.WalkOver(f, actions[..|actions| - 1]), actions);
    }
  }

  /** Every plan stays within what a borrower can change: distinct features, none protected, each target strictly
      above the present value, as stored and as shown, and within the scale. */
  lemma {:induction false} PlanActionable(g: Goal, f: Features)
    ensures DistinctFeatures(g.PlanFor(f).pathways)
    ensures forall k :: 0 <= k < |g.PlanFor(f).pathways| ==>
      var a := g.PlanFor(f).pathways[k];
      a.feature !in NON_ACTIONABLE && Number(f, a.feature) < a.target <= Cap(a.feature) && a.current < a.target
  {
    if g.score(f) < g.target {
      hide Candidates, Evaluated, SortByGain, Goal.WalkOver, Rank, Cap, Number;
      var evaluated := Evaluated(g.score, f, Candidates(f));
      CandidatesRanked(f);
      EvaluatedOk(g.score, f, Candidates(f), 7);
      SortDistinct(evaluated);
      var actions := SortByGain(evaluated);
      WalkOfActions(g, f, actions);
      var chosen := g.WalkOver(f, actions).chosen;
      forall k | 0 <= k < |chosen|
        ensures ActionOk(f, chosen[k]) && chosen[k].feature !in NON_ACTIONABLE
      {
        assert Among(chosen[k], actions);
        var i :| 0 <= i < |actions| && chosen[k] == actions[i].(impact := chosen[k].impact);
        SortMembers(evaluated, actions[i]);
        assert ActionOk(f, actions[i]);
        if chosen[k].feature in NON_ACTIONABLE {
          ActionableOnly(chosen[k].feature);
        }
      }
    }
  }

  // ---------- a gain that leads nowhere ----------

  /** A score that only looks whether payments are regular enough, at a threshold between 0.35 and 0.354. */
  function UpiScore(f: Features): int {
    if Number(f, UPI) > 0.352 then 600 else 500
  }

  const RARE_UPI: Features := map[UPI := Some(0.004)]

  const UPI_OFFER: Candidate := Candidate(UPI, 0.004, 0.354)

  lemma {:induction false} OfferedOnce(f: Features, c: Candidate, d: Candidate)
    requires c in Candidates(f) && d in Candidates(f) && c.feature == d.feature
    ensures c == d
  {
    hide Candidates, Rank, CandidateOk;
    CandidatesRanked(f);
    var i :| 0 <= i < |Candidates(f)| && Candidates(f)[i] == c;
    var j :| 0 <= j < |Candidates(f)| && Candidates(f)[j] == d;
    if i < j {
      assert Rank(Candidates(f)[i].feature) < Rank(Candidates(f)[j].feature);
    } else if j < i {
      assert Rank(Candidates(f)[j].feature) < Rank(Candidates(f)[i].feature);
    }
  }

  lemma {:induction false} UpiOffered()
    ensures UPI_OFFER in Candidates(RARE_UPI)
  {
    hide AttendanceOffer, SavingsOffer, InsuranceOffer, UtilityOffer, RepaymentOffer, PmKisanOffer;
    assert Number(RARE_UPI, UPI) == 0.004;
    assert UpiOffer(RARE_UPI) == [UPI_OFFER];
    assert UPI_OFFER in UpiOffer(RARE_UPI);
  }

  lemma {:induction false} RoundedAway()
    ensures RoundTo(0.354, 100.0) == 0.35
  {
  }

  lemma {:induction false} NothingHelps(g: Goal, c: Candidate, impact: int)
    requires g.score == UpiScore && c in Candidates(RARE_UPI)
    ensures !Helps(g, RARE_UPI, ActionFor(c, impact))
  {
    hide Candidates, RoundTo;
    RoundedAway();
    if c.feature == UPI {
      UpiOffered();
      OfferedOnce(RARE_UPI, c, UPI_OFFER);
    }
  }

  /** A borrower just under the threshold gains 100 points at the full target of 0.354, the shown target of 0.35 gains
      nothing, and so an eligible borrower with a gain is offered no pathway. */
  lemma {:induction false} GainWithoutPath()
    ensures var g := Goal(UpiScore, 600, 4);
      && UPI_OFFER in Candidates(RARE_UPI) && Gain(UpiScore, RARE_UPI, UPI_OFFER) == 100
      && g.PlanFor(RARE_UPI).eligible && g.PlanFor(RARE_UPI).pathways == []
  {
    var g := Goal(UpiScore, 600, 4);
    assert UpiScore(RARE_UPI) == 500;
    assert Gain(UpiScore, RARE_UPI, UPI_OFFER) == 100;
    hide Candidates, Helps, ActionFor, SortByGain, Evaluated, Goal.WalkOver;
    UpiOffered();
    forall c | c in Candidates(RARE_UPI)
      ensures !Helps(g, RARE_UPI, ActionFor(c, Gain(UpiScore, RARE_UPI, c)))
    {
      NothingHelps(g, c, Gain(UpiScore, RARE_UPI, c));
    }
    SomePathIff(g, RARE_UPI);
  }
}
