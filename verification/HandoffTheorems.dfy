/** What the decision and handoff machine guarantees over whole runs. */
module HandoffTheorems {
  import opened Wrappers
  import opened Rounding
  import opened ScoringUtils
  import opened Decisioning
  import TextLayout

  /** The model's advice, read off the 300-900 scale. */
  function Advice(raw: real): Recommendation {
    var s := Within900(Score900(raw));
    if s >= 696 then Approve else if s >= 606 then Review else Reject
  }

  /** The officer did not do what the model advised; a review leaves the officer free. */
  predicate Disagrees(decision: OfficerDecision, advice: Recommendation) {
    (advice == Approve && decision != Approved) || (advice == Reject && decision != Rejected)
  }

  lemma {:induction false} AdviceIsRecommended(raw: real)
    ensures RecommendationFor(BandOf(raw)) == Advice(raw)
  {
    hide BandOf, Score900;
    BandOnBothScales(raw);
  }

  /** After any interleaving of scorings, decisions, submissions and callbacks from empty tables: one application per
      score and partner, each sent once with an approval the log holds, and a reason in the log exactly where the
      officer disagreed with the model. */
  lemma {:induction false} Reachable(events: seq<Event>)
    ensures var o := Run(EMPTY, events);
      && (forall i, j :: 0 <= i < j < |o.applications| ==>
            || o.applications[i].score != o.applications[j].score
            || o.applications[i].partner != o.applications[j].partner)
      && |o.sent| == |o.applications|
      && (forall i: nat :: i < |o.sent| ==>
            o.sent[i].application == i && o.sent[i].decision == Approved
            && HasApproval(o.log, o.applications[i].score))
      && (forall i :: 0 <= i < |o.log| ==>
            && (o.log[i].reason.Some? <==> Disagrees(o.log[i].decision, Advice(o.log[i].modelScore)))
            && (o.log[i].reason.Some? ==> RealReason(o.log[i].reason.value)))
  {
    hide RealReason, BandOf, Run, HasApproval, RecommendationFor, Advice;
    RunKeeps(EMPTY, events);
    var o := Run(EMPTY, events);
    forall i: nat | i < |o.sent|
      ensures o.sent[i].application == i && o.sent[i].decision == Approved
      ensures HasApproval(o.log, o.applications[i].score)
    {
      assert PackageOk(o, i);
    }
    forall i | 0 <= i < |o.log|
      ensures o.log[i].reason.Some? <==> Disagrees(o.log[i].decision, Advice(o.log[i].modelScore))
      ensures o.log[i].reason.Some? ==> RealReason(o.log[i].reason.value)
    {
      assert RowOk(o, o.log[i]);
      AdviceIsRecommended(o.log[i].modelScore);
    }
    forall i, j | 0 <= i < j < |o.applications|
      ensures !ForPartner(o.applications[i], o.applications[j].score, o.applications[j].partner)
    {
    }
  }

  /** The log is append-only: whatever happens later, the rows written so far stay where they are. */
  lemma {:induction false} LogAppendOnly(events: seq<Event>, later: seq<Event>)
    ensures Run(EMPTY, events).log <= Run(Run(EMPTY, events), later).log
  {
    hide Run;
    RunKeeps(EMPTY, events);
    RunKeeps(Run(EMPTY, events), later);
  }

  /** Submitting again for the same score and partner, however much later and whatever the new amounts, returns the
      first application and changes nothing: no row, no second package. */
  lemma {:induction false} ResubmitReturnsSame(o: Office, req: SubmitRequest, later: seq<Event>, again: SubmitRequest)
    requires Inv(o) && Submit(o, req).1.Success?
    requires again.score == req.score && again.partner == req.partner
    ensures var p := Run(Submit(o, req).0, later);
      Submit(p, again) == (p, Submit(o, req).1)
  {
    var first := Submit(o, req).0;
    var k := Submit(o, req).1.value;
    SubmitKeeps(o, req);
    assert ForPartner(first.applications[k], req.score, req.partner);
    RunKeeps(first, later);
    var p := Run(first, later);
    hide Run, Submit, Inv;
    assert SameApplication(first.applications[k], p.applications[k]);
    FoundIsUnique(p, req.score, req.partner, k);
  }

  lemma {:induction false} FoundIsUnique(p: Office, score: ScoreId, partner: string, k: nat)
    requires Inv(p) && k < |p.applications| && ForPartner(p.applications[k], score, partner)
    ensures ExistingApplication(p.applications, score, partner) == Some(k)
  {
    var found := ExistingApplication(p.applications, score, partner);
    assert found.Some?;
  }

  // ---------- the application row as a mirror of the log ----------

  /** The row shows what `latest` decided. */
  predicate Shows(a: Application, latest: LogRow) {
    a.decision == latest.decision && a.reason == latest.reason && a.decidedAt == latest.createdAt
  }

  /** A score's first application follows the log; the others stay as they were submitted. */
  predicate MirrorOk(o: Office, k: nat)
    requires k < |o.applications|
  {
    var a := o.applications[k];
    var latest := Latest(o.log, a.score);
    && latest.Some?
    && (FirstApplication(o.applications, a.score) == Some(k) ==> Shows(a, latest.value))
    && (FirstApplication(o.applications, a.score) != Some(k) ==> a.decision == Approved)
  }

  ghost predicate Mirrored(o: Office) {
    forall k: nat :: k < |o.applications| ==> MirrorOk(o, k)
  }

  lemma {:induction false} FirstIgnoresDecisions(a: seq<Application>, b: seq<Application>, score: ScoreId)
    requires |a| == |b| && forall i :: 0 <= i < |a| ==> a[i].score == b[i].score
    ensures FirstApplication(a, score) == FirstApplication(b, score)
  {
    if a != [] {
      FirstIgnoresDecisions(a[..|a| - 1], b[..|b| - 1], score);
    }
  }

  lemma {:induction false} RecordMirrors(o: Office, req: DecisionRequest, officer: string, now: Time)
    requires Mirrored(o)
    ensures Mirrored(Record(o, req, officer, now).0)
  {
    hide CleanReason, IsOverride, Recommended;
    var (p, r) := Record(o, req, officer, now);
    if r.Success? {
      var row := r.value;
      assert p.log[..|o.log|] == o.log;
      forall k: nat | k < |p.applications|
        ensures MirrorOk(p, k)
      {
        assert MirrorOk(o, k);
        FirstIgnoresDecisions(o.applications, p.applications, o.applications[k].score);
      }
    }
  }

  lemma {:induction false} SubmitMirrors(o: Office, req: SubmitRequest)
    requires Mirrored(o)
    ensures Mirrored(Submit(o, req).0)
  {
    var p := Submit(o, req).0;
    if p != o {
      var n := |o.applications|;
      assert p.applications[..n] == o.applications;
      LatestInLog(o.log, req.score);
      forall k: nat | k < |p.applications|
        ensures MirrorOk(p, k)
      {
        if k < n {
          assert MirrorOk(o, k);
        }
      }
    }
  }

  /** No partner has called back yet. */
  predicate CallbackFree(events: seq<Event>) {
    forall i :: 0 <= i < |events| ==> !events[i].Callback?
  }

  lemma {:induction false} RunMirrors(events: seq<Event>)
    requires CallbackFree(events)
    ensures Mirrored(Run(EMPTY, events))
  {
    if events != [] {
      var before := Run(EMPTY, events[..|events| - 1]);
      RunMirrors(events[..|events| - 1]);
      hide Record, Submit;
      match events[|events| - 1] {
        case Scored(id, score) =>
          var o := Run(EMPTY, events);
          forall k: nat | k < |o.applications|
            ensures MirrorOk(o, k)
          {
            assert MirrorOk(before, k);
          }
        case Decide(req, officer, now) => RecordMirrors(before, req, officer, now);
        case Handoff(req) => SubmitMirrors(before, req);
        case Callback(p) =>
      }
    }
  }

  /** Until a partner calls back, an application shows the officer's newest decision exactly when it is its score's
      first application or that decision is an approval: a change of mind reaches the first partner's row only. */
  lemma {:induction false} ShowsNewestIff(events: seq<Event>, k: nat)
    requires CallbackFree(events) && k < |Run(EMPTY, events).applications|
    ensures var o := Run(EMPTY, events);
      var a := o.applications[k];
      var latest := Latest(o.log, a.score);
      && latest.Some?
      && (a.decision == latest.value.decision
          <==> FirstApplication(o.applications, a.score) == Some(k) || latest.value.decision == Approved)
  {
    hide Run;
    RunMirrors(events);
    assert MirrorOk(Run(EMPTY, events), k);
  }

  // ---------- a second partner left behind ----------

  const GOOD: Score := Score(0, 70.0, 65.0, 75.0)

  function ToPartner(partner: string): Event {
    Handoff(SubmitRequest(0, partner, 1000.0, 12, "seed"))
  }

  const APPROVAL: seq<Event> := [Scored(0, GOOD)] + [Decide(DecisionRequest(0, Approved, None, None), "officer", 1)]

  /** A good score is approved, handed to two partners, and then rejected after all. */
  const LAGGING: seq<Event> :=
    APPROVAL + [ToPartner("A")] + [ToPartner("B")]
    + [Decide(DecisionRequest(0, Rejected, Some("x"), None), "officer", 2)]

  lemma {:induction false} RunSnoc(events: seq<Event>, e: Event)
    ensures Run(EMPTY, events + [e]) == Step(Run(EMPTY, events), e)
  {
    hide Step;
    assert (events + [e])[..|events|] == events;
  }

  lemma {:induction false} GoodIsApproved()
    ensures Recommended(GOOD) == Approve
    ensures CleanReason(Some("x")) == Some("x")
  {
    assert Score100(70.0) == 70.0 by {
      RoundOfInt(700);
    }
    assert !TextLayout.IsSpace('x');
  }

  function FirstRow(): LogRow {
    LogRow(0, None, "officer", Approved, Approve, false, None, None, 70.0, 1)
  }

  function LastRow(): LogRow {
    LogRow(0, Some(0), "officer", Rejected, Approve, true, Some("x"), None, 70.0, 2)
  }

  lemma {:induction false} Approval()
    ensures Run(EMPTY, APPROVAL) == Office(map[0 := GOOD], [FirstRow()], [], [])
  {
    GoodIsApproved();
    NoReason();
    hide Recommended, CleanReason;
    assert [Scored(0, GOOD)][..0] == [];
    assert Run(EMPTY, [Scored(0, GOOD)]) == Office(map[0 := GOOD], [], [], []);
    RunSnoc([Scored(0, GOOD)], Decide(DecisionRequest(0, Approved, None, None), "officer", 1));
  }

  lemma {:induction false} NoReason()
    ensures CleanReason(None) == None
  {
  }

  function HandedTo(partner: string): Application {
    Application(0, 0, partner, 1000.0, 12, "seed", Approved, None, 1, None)
  }

  /** Submitting for a partner that has no application yet. */
  lemma {:induction false} HandedOver(o: Office, partner: string)
    requires o.scores == map[0 := GOOD] && o.log == [FirstRow()]
    requires forall i :: 0 <= i < |o.applications| ==> o.applications[i].partner != partner
    ensures var p := Submit(o, SubmitRequest(0, partner, 1000.0, 12, "seed")).0;
      p.scores == o.scores && p.log == o.log && p.applications == o.applications + [HandedTo(partner)]
  {
    hide PayloadFor;
    assert ExistingApplication(o.applications, 0, partner).None?;
    assert Latest(o.log, 0) == Some(FirstRow());
  }

  lemma {:induction false} Submissions()
    ensures var o := Run(EMPTY, APPROVAL + [ToPartner("A")] + [ToPartner("B")]);
      && o.scores == map[0 := GOOD] && o.log == [FirstRow()]
      && o.applications == [HandedTo("A"), HandedTo("B")]
  {
    Approval();
    RunSnoc(APPROVAL, ToPartner("A"));
    RunSnoc(APPROVAL + [ToPartner("A")], ToPartner("B"));
    hide Submit, Run;
    HandedOver(Run(EMPTY, APPROVAL), "A");
    HandedOver(Run(EMPTY, APPROVAL + [ToPartner("A")]), "B");
  }

  /** The officer takes the approval back. */
  lemma {:induction false} TakenBack(o: Office)
    requires o.scores == map[0 := GOOD] && o.log == [FirstRow()]
    requires o.applications == [HandedTo("A"), HandedTo("B")]
    ensures var p := Record(o, DecisionRequest(0, Rejected, Some("x"), None), "officer", 2).0;
      && p.log == [FirstRow(), LastRow()]
      && |p.applications| == 2
      && p.applications[0].decision == Rejected && p.applications[1].decision == Approved
  {
    GoodIsApproved();
    hide Recommended, CleanReason;
    assert FirstApplication(o.applications, 0) == Some(0);
  }

  /** The rejection reaches the first partner's row and not the second's. */
  lemma {:induction false} SecondPartnerLags()
    ensures CallbackFree(LAGGING)
    ensures var o := Run(EMPTY, LAGGING);
      && |o.applications| == 2
      && Latest(o.log, 0) == Some(LastRow()) && LastRow().decision == Rejected
      && o.applications[0].decision == Rejected && o.applications[1].decision == Approved
  {
    Submissions();
    var events := APPROVAL + [ToPartner("A")] + [ToPartner("B")];
    RunSnoc(events, Decide(DecisionRequest(0, Rejected, Some("x"), None), "officer", 2));
    hide Record, Run;
    TakenBack(Run(EMPTY, events));
  }

  // ---------- the recommendation sent along ----------

  /** The recommendation in the header is read off the raw score, the one in the log off the normalised score. They
      agree exactly when a percentage is not within half a tenth below 51 or 66, and a 900-scale score is one the
      model would approve. */
  lemma {:induction false} HeaderAgreesIff(raw: real)
    ensures RecommendationFor(ScoreBand(raw)) == RecommendationFor(BandOf(raw)) <==>
      if raw <= 100.0 then !(50.95 <= raw < 51.0) && !(65.95 <= raw < 66.0) else raw >= 695.5
  {
    hide Score100, Score900, Within100, Within900;
    FloorOnBothScales(raw, 81);
    FloorOnBothScales(raw, 66);
    FloorOnBothScales(raw, 51);
    FloorOnBothScales(raw, 31);
    if raw > 100.0 {
      WideClamped(raw, 696);
    }
  }

  /** Every package ever sent: its header contradicts the recommendation logged with the decision exactly outside
      that range. */
  lemma {:induction false} SentHeaderAgreesIff(events: seq<Event>, i: nat)
    requires i < |Run(EMPTY, events).sent|
    ensures var o := Run(EMPTY, events);
      i < |o.applications| && o.applications[i].score in o.scores
      && var raw := o.scores[o.applications[i].score].raw;
        (o.sent[i].header == o.sent[i].recommendation <==>
          if raw <= 100.0 then !(50.95 <= raw < 51.0) && !(65.95 <= raw < 66.0) else raw >= 695.5)
  {
    hide Run, ScoreBand, BandOf, RecommendationFor, HasApproval;
    RunKeeps(EMPTY, events);
    var o := Run(EMPTY, events);
    assert PackageOk(o, i);
    HeaderAgreesIff(o.scores[o.applications[i].score].raw);
  }
}
