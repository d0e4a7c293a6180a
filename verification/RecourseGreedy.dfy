/** The order of a recourse plan: it takes the candidates by their own gains, and leaves one out only after it failed
    to raise the score. */
module RecourseGreedy {
  import opened Wrappers
  import opened Rounding
  import opened Recourse

  // ---------- what the walk does with an action ----------

  /** The action would not have raised the score after the first `j` pathways. */
  predicate Refused(g: Goal, f: Features, path: seq<Action>, a: Action, j: nat)
    requires j <= |path|
  {
    !Helps(g, ApplyAll(f, path[..j]), a)
  }

  predicate IsAt(path: seq<Action>, a: Action, j: nat)
    requires j < |path|
  {
    path[j] == a.(impact := path[j].impact)
  }

  /** The action is among the first `k` pathways, or was of no use after some of them. */
  ghost predicate Handled(g: Goal, f: Features, path: seq<Action>, a: Action, k: nat)
    requires k <= |path|
  {
    || (exists j: nat :: j < k && IsAt(path, a, j))
    || exists j: nat :: j <= k && Refused(g, f, path, a, j)
  }

  ghost predicate AllHandled(g: Goal, f: Features, path: seq<Action>, actions: seq<Action>, k: nat)
    requires k <= |path|
  {
    forall i :: 0 <= i < |actions| ==> Handled(g, f, path, actions[i], k)
  }

  lemma {:induction false} HandledGrows(g: Goal, f: Features, path: seq<Action>, more: seq<Action>, a: Action,
                                        k: nat, m: nat)
    requires k <= |path| && path <= more && k <= m <= |more| && Handled(g, f, path, a, k)
    ensures Handled(g, f, more, a, m)
  {
    if j: nat :| j < k && IsAt(path, a, j) {
      assert IsAt(more, a, j);
    } else {
      var j: nat :| j <= k && Refused(g, f, path, a, j);
      assert more[..j] == path[..j];
      assert Refused(g, f, more, a, j);
    }
  }

  lemma {:induction false} VisitHandles(g: Goal, f: Features, w: Walk, a: Action)
    requires WalkOk(g, f, w) && !w.stopped && |w.chosen| < g.limit
    ensures var v := g.Visit(w, a); w.chosen <= v.chosen && Handled(g, f, v.chosen, a, |v.chosen|)
  {
    var v, n := g.Visit(w, a), |w.chosen|;
    if g.score(Apply(w.features, a)) > w.running {
      assert IsAt(v.chosen, a, n);
    } else {
      assert v.chosen == w.chosen;
      assert v.chosen[..n] == w.chosen;
      assert Refused(g, f, v.chosen, a, n);
    }
  }

  /** A walk that neither stopped nor is full has handled every action. */
  lemma {:induction false} WalkHandles(g: Goal, f: Features, actions: seq<Action>)
    requires g.score(f) < g.target
    ensures var w := g.WalkOver(f, actions);
      !w.stopped && |w.chosen| < g.limit ==> AllHandled(g, f, w.chosen, actions, |w.chosen|)
  {
    if actions != [] {
      var before, last := actions[..|actions| - 1], actions[|actions| - 1];
      var w := g.WalkOver(f, before);
      var v := g.Visit(w, last);
      assert v == g.WalkOver(f, actions);
      if !v.stopped && |v.chosen| < g.limit {
        assert !w.stopped && |w.chosen| < g.limit;
        WalkHandles(g, f, before);
        WalkReplays(g, f, before);
        VisitHandles(g, f, w, last);
        hide Handled, WalkOk, Goal.Visit;
        forall i | 0 <= i < |actions|
          ensures Handled(g, f, v.chosen, actions[i], |v.chosen|)
        {
          if i < |before| {
            assert before[i] == actions[i];
            HandledGrows(g, f, w.chosen, v.chosen, before[i], |w.chosen|, |v.chosen|);
          }
        }
      }
    }
  }

  /** Pathway `k` is action `i`, and every action before it had been handled when it was chosen. */
  ghost predicate ChosenAt(g: Goal, f: Features, path: seq<Action>, actions: seq<Action>, k: nat, i: nat)
    requires k < |path|
  {
    i < |actions| && IsAt(path, actions[i], k) && AllHandled(g, f, path, actions[..i], k)
  }

  lemma {:induction false} ChosenAtGrows(g: Goal, f: Features, path: seq<Action>, more: seq<Action>,
                                         actions: seq<Action>, k: nat, i: nat)
    requires k < |path| && path <= more && actions != []
    requires ChosenAt(g, f, path, actions[..|actions| - 1], k, i)
    ensures ChosenAt(g, f, more, actions, k, i)
  {
    hide Handled;
    var before := actions[..|actions| - 1];
    assert before[..i] == actions[..i];
    forall h | 0 <= h < i
      ensures Handled(g, f, more, actions[..i][h], k)
    {
      HandledGrows(g, f, path, more, before[..i][h], k, k);
    }
  }

  lemma {:induction false} ChosenLast(g: Goal, f: Features, w: Walk, a: Action, before: seq<Action>)
    requires AllHandled(g, f, w.chosen, before, |w.chosen|)
    requires !w.stopped && |w.chosen| < g.limit && |g.Visit(w, a).chosen| > |w.chosen|
    ensures ChosenAt(g, f, g.Visit(w, a).chosen, before + [a], |w.chosen|, |before|)
  {
    hide Handled, Apply;
    var v := g.Visit(w, a);
    assert (before + [a])[..|before|] == before;
    forall h | 0 <= h < |before|
      ensures Handled(g, f, v.chosen, before[h], |w.chosen|)
    {
      HandledGrows(g, f, w.chosen, v.chosen, before[h], |w.chosen|, |w.chosen|);
    }
  }

  /** What a visit leaves of the pathways chosen so far. */
  lemma {:induction false} VisitExtends(g: Goal, w: Walk, a: Action)
    ensures var v := g.Visit(w, a);
      && w.chosen <= v.chosen && |v.chosen| <= |w.chosen| + 1
      && (|v.chosen| > |w.chosen| ==> !w.stopped && |w.chosen| < g.limit)
  {
    hide Apply;
  }

  lemma {:induction false} WalkChooses(g: Goal, f: Features, actions: seq<Action>, k: nat)
    requires g.score(f) < g.target && k < |g.WalkOver(f, actions).chosen|
    ensures exists i :: ChosenAt(g, f, g.WalkOver(f, actions).chosen, actions, k, i)
  {
    var before, last := actions[..|actions| - 1], actions[|actions| - 1];
    var w := g.WalkOver(f, before);
    var v := g.Visit(w, last);
    assert v == g.WalkOver(f, actions);
    assert before + [last] == actions;
    VisitExtends(g, w, last);
    if k < |w.chosen| {
      WalkChooses(g, f, before, k);
      hide ChosenAt, Goal.WalkOver, Goal.Visit;
      var i :| ChosenAt(g, f, w.chosen, before, k, i);
      ChosenAtGrows(g, f, w.chosen, v.chosen, actions, k, i);
    } else {
      WalkHandles(g, f, before);
      hide ChosenAt, Goal.WalkOver, Goal.Visit, AllHandled;
      ChosenLast(g, f, w, last, before);
    }
  }

  // ---------- the order of the list ----------

  /** The larger gain first, and the feature looked at first among equals. */
  predicate Precedes(a: Action, b: Action) {
    a.impact > b.impact || (a.impact == b.impact && Rank(a.feature) < Rank(b.feature))
  }

  ghost predicate InOrder(s: seq<Action>) {
    forall i, j :: 0 <= i < j < |s| ==> Precedes(s[i], s[j])
  }

  ghost predicate RanksRise(s: seq<Action>) {
    forall i, j :: 0 <= i < j < |s| ==> Rank(s[i].feature) < Rank(s[j].feature)
  }

  lemma {:induction false} EvaluatedRanks(score: Features -> int, f: Features, cs: seq<Candidate>, r: nat)
    requires Ranked(f, cs, r)
    ensures RanksRise(Evaluated(score, f, cs))
    ensures cs != [] ==>
              forall a :: a in Evaluated(score, f, cs) ==> Rank(a.feature) <= Rank(cs[|cs| - 1].feature)
  {
    hide Rank, Gain, CandidateOk;
    if cs != [] {
      var n := |cs| - 1;
      EvaluatedRanks(score, f, cs[..n], r);
      var s := Evaluated(score, f, cs[..n]);
      forall a | a in s
        ensures Rank(a.feature) < Rank(cs[n].feature)
      {
        assert n > 0 && Rank(a.feature) <= Rank(cs[n - 1].feature);
      }
      var gain := Gain(score, f, cs[n]);
      assert ActionFor(cs[n], gain).feature == cs[n].feature;
      hide ActionFor;
      assert Evaluated(score, f, cs) == if gain > 0 then s + [ActionFor(cs[n], gain)] else s;
    }
  }

  lemma {:induction false} InsertOrdered(a: Action, s: seq<Action>)
    requires InOrder(s) && forall x :: x in s ==> Rank(a.feature) < Rank(x.feature)
    ensures InOrder(Insert(a, s))
  {
    hide Rank;
    if s != [] && a.impact < s[0].impact {
      var rest := Insert(a, s[1..]);
      InsertOrdered(a, s[1..]);
      forall i | 0 <= i < |rest|
        ensures Precedes(s[0], rest[i])
      {
        InsertMembers(a, s[1..], rest[i]);
      }
    } else if s != [] {
      forall i | 0 <= i < |s|
        ensures Precedes(a, s[i])
      {
        assert s[i] in s;
        assert i == 0 || Precedes(s[0], s[i]);
      }
    }
  }

  lemma {:induction false} SortOrders(s: seq<Action>)
    requires RanksRise(s)
    ensures InOrder(SortByGain(s))
  {
    hide Rank, InOrder;
    if s == [] {
      assert InOrder([]) by {
        NothingInOrder();
      }
    } else {
      SortOrders(s[1..]);
      forall x | x in SortByGain(s[1..])
        ensures Rank(s[0].feature) < Rank(x.feature)
      {
        SortMembers(s[1..], x);
      }
      InsertOrdered(s[0], SortByGain(s[1..]));
    }
  }

  lemma {:induction false} NothingInOrder()
    ensures InOrder([])
  {
  }

  // ---------- what is offered ----------

  /** The value up to which there is something to improve; enrolment is there or not. */
  function Enough(name: string): real {
    if name == ATTENDANCE || name == UTILITY then 95.0
    else if name == REPAYMENT then 0.95
    else if name == UPI then 0.7
    else 0.9
  }

  predicate Lacking(f: Features, name: string) {
    if name == INSURANCE then Number(f, name) == 0.0 else Number(f, name) < Enough(name)
  }

  /** What a borrower at `x` is asked to reach, before the cap of the scale. */
  function Asked(name: string, x: real): real {
    if name == ATTENDANCE then MaxReal(85.0, x + 25.0)
    else if name == SAVINGS then MaxReal(0.75, x + 0.35)
    else if name == UTILITY then MaxReal(90.0, x + 25.0)
    else if name == REPAYMENT then MaxReal(0.9, x + 0.2)
    else if name == UPI then x + 0.35
    else 1.0
  }

  /** The improvement the rules name for a feature. */
  function Ideal(f: Features, name: string): Candidate {
    Candidate(name, Number(f, name), MinReal(Cap(name), Asked(name, Number(f, name))))
  }

  /** At most the ideal improvement of one feature is offered, when there is something to improve. */
  predicate OffersIdeal(f: Features, offer: seq<Candidate>, name: string) {
    offer == if Lacking(f, name) then [Ideal(f, name)] else []
  }

  lemma {:induction false} OffersIdealSmall(f: Features)
    ensures OffersIdeal(f, SavingsOffer(f), SAVINGS) && OffersIdeal(f, InsuranceOffer(f), INSURANCE)
    ensures OffersIdeal(f, RepaymentOffer(f), REPAYMENT) && OffersIdeal(f, UpiOffer(f), UPI)
    ensures OffersIdeal(f, PmKisanOffer(f), PM_KISAN)
  {
    Ranks();
    Caps();
    hide Number, Rank, Cap;
  }

  lemma {:induction false} OffersIdealPercent(f: Features)
    ensures OffersIdeal(f, AttendanceOffer(f), ATTENDANCE) && OffersIdeal(f, UtilityOffer(f), UTILITY)
  {
    Ranks();
    Caps();
    hide Number, Rank, Cap;
  }

  const NAMES: seq<string> := [ATTENDANCE, SAVINGS, INSURANCE, UTILITY, REPAYMENT, UPI, PM_KISAN]

  /** The names are those that have a rank. */
  lemma {:induction false} Named(name: string)
    ensures Rank(name) < 7 <==> name in NAMES
  {
    Ranks();
    if Rank(name) < 7 {
      assert name == NAMES[Rank(name)];
    }
  }

  lemma {:induction false} FromOffers(f: Features, c: Candidate)
    ensures c in Candidates(f) <==>
      exists i :: 0 <= i < 7 && OffersIdeal(f, Offers(f)[i], NAMES[i]) && c in Offers(f)[i]
  {
    OffersIdealSmall(f);
    OffersIdealPercent(f);
    hide AttendanceOffer, SavingsOffer, InsuranceOffer, UtilityOffer, RepaymentOffer, UpiOffer, PmKisanOffer;
    hide OffersIdeal;
    var o := Offers(f);
    assert Candidates(f) == o[0] + o[1] + o[2] + o[3] + o[4] + o[5] + o[6];
    hide Candidates, Offers;
  }

  function Offers(f: Features): (o: seq<seq<Candidate>>)
    ensures |o| == 7
  {
    [AttendanceOffer(f), SavingsOffer(f), InsuranceOffer(f), UtilityOffer(f), RepaymentOffer(f), UpiOffer(f),
     PmKisanOffer(f)]
  }

  /** The candidates are exactly the ideal improvements of those of the seven features that lack something. */
  lemma {:induction false} CandidateIff(f: Features, c: Candidate)
    ensures c in Candidates(f) <==> Rank(c.feature) < 7 && Lacking(f, c.feature) && c == Ideal(f, c.feature)
  {
    Named(c.feature);
    OffersIdealSmall(f);
    OffersIdealPercent(f);
    FromOffers(f, c);
    hide AttendanceOffer, SavingsOffer, InsuranceOffer, UtilityOffer, RepaymentOffer, UpiOffer, PmKisanOffer;
    hide Candidates, Lacking, Rank;
    assert forall i :: 0 <= i < 7 ==> OffersIdeal(f, Offers(f)[i], NAMES[i]);
    hide Offers;
    assert Ideal(f, c.feature).feature == c.feature;
    if c == Ideal(f, c.feature) && Lacking(f, c.feature) && c.feature in NAMES {
      var i :| 0 <= i < 7 && NAMES[i] == c.feature;
      assert OffersIdeal(f, Offers(f)[i], NAMES[i]);
    }
  }

  // ---------- the plan ----------

  /** The list the walk of a plan goes through. */
  function Sorted(g: Goal, f: Features): seq<Action> {
    SortByGain(Evaluated(g.score, f, Candidates(f)))
  }

  /** Candidate `c` comes before `d`: alone it gains more, or as much and its feature is looked at first. */
  predicate Preferred(g: Goal, f: Features, c: Candidate, d: Candidate) {
    || Gain(g.score, f, c) > Gain(g.score, f, d)
    || (Gain(g.score, f, c) == Gain(g.score, f, d) && Rank(c.feature) < Rank(d.feature))
  }

  /** Setting the candidate's feature to its target, as shown, raises the score of these features. */
  predicate Raises(g: Goal, f: Features, c: Candidate) {
    g.score(f[c.feature := Some(RoundTo(c.target, 100.0))]) > g.score(f)
  }

  /** The candidate is one of the first `k` pathways, at its shown target. */
  ghost predicate Taken(path: seq<Action>, c: Candidate, k: nat)
    requires k <= |path|
  {
    exists j: nat :: j < k && path[j].feature == c.feature && path[j].target == RoundTo(c.target, 100.0)
  }

  /** It did not raise the score after some of the first `k` pathways. */
  ghost predicate Useless(g: Goal, f: Features, path: seq<Action>, c: Candidate, k: nat)
    requires k <= |path|
  {
    exists j: nat :: j <= k && !Raises(g, ApplyAll(f, path[..j]), c)
  }

  lemma {:induction false} HandledMeans(g: Goal, f: Features, path: seq<Action>, c: Candidate, impact: int, k: nat)
    requires k <= |path| && Handled(g, f, path, ActionFor(c, impact), k)
    ensures Taken(path, c, k) || Useless(g, f, path, c, k)
  {
    hide RoundTo, ApplyAll;
    var a := ActionFor(c, impact);
    if j: nat :| j < k && IsAt(path, a, j) {
      assert path[j].feature == c.feature && path[j].target == RoundTo(c.target, 100.0);
    } else {
      var j: nat :| j <= k && Refused(g, f, path, a, j);
      assert !Raises(g, ApplyAll(f, path[..j]), c);
    }
  }

  /** The sorted list holds the candidates with a gain, in order. */
  lemma {:induction false} SortedOf(g: Goal, f: Features)
    ensures InOrder(Sorted(g, f))
    ensures forall a :: a in Sorted(g, f) <==>
      exists c :: c in Candidates(f) && Gain(g.score, f, c) > 0 && a == ActionFor(c, Gain(g.score, f, c))
  {
    hide Candidates, Ranked, Evaluated, SortByGain, Gain, ActionFor, InOrder;
    var s := Evaluated(g.score, f, Candidates(f));
    CandidatesRanked(f);
    EvaluatedRanks(g.score, f, Candidates(f), 7);
    SortOrders(s);
    forall a
      ensures a in Sorted(g, f) <==>
        exists c :: c in Candidates(f) && Gain(g.score, f, c) > 0 && a == ActionFor(c, Gain(g.score, f, c))
    {
      SortMembers(s, a);
      EvaluatedMembers(g.score, f, Candidates(f), a);
    }
  }

  lemma {:induction false} PathIsWalk(g: Goal, f: Features)
    requires g.score(f) < g.target
    ensures g.PlanFor(f).pathways == g.WalkOver(f, Sorted(g, f)).chosen
    ensures g.PlanFor(f).projectedScore == g.WalkOver(f, Sorted(g, f)).running
  {
    hide SortByGain, Evaluated, Candidates, Goal.WalkOver;
  }

  /** The position of a candidate with a gain. */
  lemma {:induction false} PlaceOf(g: Goal, f: Features, c: Candidate) returns (i: nat)
    requires c in Candidates(f) && Gain(g.score, f, c) > 0
    ensures i < |Sorted(g, f)| && Sorted(g, f)[i] == ActionFor(c, Gain(g.score, f, c))
  {
    SortedOf(g, f);
    hide Candidates, Gain, ActionFor, Sorted, InOrder;
    var a := ActionFor(c, Gain(g.score, f, c));
    assert a in Sorted(g, f);
    i :| i < |Sorted(g, f)| && Sorted(g, f)[i] == a;
  }

  /** Each pathway is a candidate with a gain, at its shown values. */
  lemma {:induction false} PathwayIs(g: Goal, f: Features, k: nat) returns (d: Candidate, i: nat)
    requires k < |g.PlanFor(f).pathways|
    ensures d in Candidates(f) && Gain(g.score, f, d) > 0
    ensures i < |Sorted(g, f)| && Sorted(g, f)[i] == ActionFor(d, Gain(g.score, f, d))
    ensures ChosenAt(g, f, g.PlanFor(f).pathways, Sorted(g, f), k, i)
    ensures g.PlanFor(f).pathways[k].feature == d.feature
  {
    assert g.score(f) < g.target;
    PathIsWalk(g, f);
    SortedOf(g, f);
    hide Candidates, Gain, Sorted, InOrder, Goal.PlanFor, RoundTo;
    WalkChooses(g, f, Sorted(g, f), k);
    hide Goal.WalkOver, Handled;
    i :| ChosenAt(g, f, g.PlanFor(f).pathways, Sorted(g, f), k, i);
    var a := Sorted(g, f)[i];
    assert a in Sorted(g, f);
    d :| d in Candidates(f) && Gain(g.score, f, d) > 0 && a == ActionFor(d, Gain(g.score, f, d));
  }

  /** Every pathway is a candidate that gains something alone, with both of its values as shown. */
  lemma {:induction false} PathwayOffered(g: Goal, f: Features, k: nat)
    requires k < |g.PlanFor(f).pathways|
    ensures var a := g.PlanFor(f).pathways[k];
      exists d :: d in Candidates(f) && Gain(g.score, f, d) > 0
        && a == Action(d.feature, RoundTo(d.current, 100.0), RoundTo(d.target, 100.0), a.impact)
  {
    hide Goal.PlanFor, Candidates, Gain, Sorted, RoundTo, AllHandled;
    var d, i := PathwayIs(g, f, k);
  }

  lemma {:induction false} OrderPlaces(s: seq<Action>, i: nat, j: nat)
    requires InOrder(s) && i < |s| && j < |s| && Precedes(s[i], s[j])
    ensures i < j
  {
    hide Rank;
  }

  /** The plan is greedy: a candidate preferred to the one of pathway `k` is among the pathways before it, or did not
      raise the score after some of them. */
  lemma {:induction false} GreedyByGain(g: Goal, f: Features, k: nat, c: Candidate, d: Candidate)
    requires k < |g.PlanFor(f).pathways|
    requires c in Candidates(f) && d in Candidates(f) && d.feature == g.PlanFor(f).pathways[k].feature
    requires Preferred(g, f, c, d)
    ensures Taken(g.PlanFor(f).pathways, c, k) || Useless(g, f, g.PlanFor(f).pathways, c, k)
  {
    hide Goal.PlanFor, Candidates, Gain, Rank, Taken, Useless, Handled, Sorted, InOrder, RoundTo;
    var path := g.PlanFor(f).pathways;
    var e, j := PathwayIs(g, f, k);
    OfferedOnce(f, d, e);
    var i := PlaceOf(g, f, c);
    SortedOf(g, f);
    var s := Sorted(g, f);
    OrderPlaces(s, i, j);
    assert s[..j][i] == s[i];
    HandledMeans(g, f, path, c, Gain(g.score, f, c), k);
  }

  /** The first pathway belongs to the candidate with the largest gain of those that raise the score as shown. */
  lemma {:induction false} FirstIsBest(g: Goal, f: Features, c: Candidate)
    requires g.PlanFor(f).pathways != [] && c in Candidates(f) && Raises(g, f, c)
    ensures exists d :: d in Candidates(f) && d.feature == g.PlanFor(f).pathways[0].feature
                        && Gain(g.score, f, c) <= Gain(g.score, f, d)
  {
    hide Goal.PlanFor, Candidates, Gain, Rank, Sorted, Raises;
    var d, i := PathwayIs(g, f, 0);
    hide ChosenAt;
    if Gain(g.score, f, c) > Gain(g.score, f, d) {
      GreedyByGain(g, f, 0, c, d);
    }
  }

  /** A plan that neither reaches the target nor is full leaves out no candidate with a gain that would have raised
      the score all along. */
  lemma {:induction false} NothingMissed(g: Goal, f: Features, c: Candidate)
    requires g.PlanFor(f).projectedScore < g.target && |g.PlanFor(f).pathways| < g.limit
    requires c in Candidates(f) && Gain(g.score, f, c) > 0
    ensures var path := g.PlanFor(f).pathways; Taken(path, c, |path|) || Useless(g, f, path, c, |path|)
  {
    assert g.score(f) < g.target;
    PathIsWalk(g, f);
    hide Goal.PlanFor, Candidates, Gain, Taken, Useless, Sorted, RoundTo;
    var s := Sorted(g, f);
    WalkReplays(g, f, s);
    WalkHandles(g, f, s);
    hide Handled, Goal.WalkOver;
    var i := PlaceOf(g, f, c);
    var path := g.PlanFor(f).pathways;
    assert Handled(g, f, path, s[i], |path|);
    HandledMeans(g, f, path, c, Gain(g.score, f, c), |path|);
  }
}
