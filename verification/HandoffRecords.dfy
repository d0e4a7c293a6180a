/** What a decision, a submission and a partner's callback each write, field by field, and how long it stays. */
module HandoffRecords {
  import opened Wrappers
  import opened ScoringUtils
  import opened Decisioning
  import opened HandoffTheorems
  import TextLayout

  /** Nothing but application `k` may differ. */
  predicate OnlyRow(o: Office, p: Office, k: nat) {
    && p.scores == o.scores && p.log == o.log && p.sent == o.sent && |p.applications| == |o.applications|
    && forall i :: 0 <= i < |o.applications| && i != k ==> p.applications[i] == o.applications[i]
  }

  // ---------- the partner's callback ----------

  /** The row shows what the partner answered; a missing or empty reason leaves the old one. */
  predicate Answered(a: Application, b: Application, p: WebhookPayload) {
    && b.decision == p.decision && b.decidedAt == p.decidedAt && b.approvedAmount == p.approvedAmount
    && b.reason == (if p.reason == None || p.reason == Some("") then a.reason else p.reason)
    && b.borrower == a.borrower && b.score == a.score && b.partner == a.partner && b.amount == a.amount
    && b.tenure == a.tenure && b.purpose == a.purpose
  }

  /** A callback on an application that exists writes the partner's answer into that row and changes nothing else; on
      any other it is refused and changes nothing at all. */
  lemma {:induction false} CallbackStores(o: Office, p: WebhookPayload)
    ensures var (after, r) := (Step(o, Callback(p)), Webhook(o, p).1);
      if p.application < |o.applications| then
        && r == Success(p.application) && OnlyRow(o, after, p.application)
        && Answered(o.applications[p.application], after.applications[p.application], p)
      else r == Failure(ApplicationNotFound) && after == o
  {
  }

  /** No partner answers for application `k` and nobody decides on its score. */
  predicate Quiet(events: seq<Event>, k: nat, score: ScoreId) {
    forall i :: 0 <= i < |events| ==>
      match events[i]
      case Callback(p) => p.application != k
      case Decide(req, officer, now) => req.score != score
      case _ => true
  }

  lemma {:induction false} QuietStep(o: Office, e: Event, k: nat)
    requires k < |o.applications| && Quiet([e], k, o.applications[k].score)
    ensures var p := Step(o, e); k < |p.applications| && p.applications[k] == o.applications[k]
  {
    assert [e][0] == e;
    match e {
      case Scored(id, score) =>
      case Decide(req, officer, now) =>
        QuietRecord(o, req, officer, now, k);
      case Handoff(req) =>
        hide NewApplication, PayloadFor, Latest, ExistingApplication;
      case Callback(p) =>
    }
  }

  lemma {:induction false} QuietRecord(o: Office, req: DecisionRequest, officer: string, now: Time, k: nat)
    requires k < |o.applications| && req.score != o.applications[k].score
    ensures var p := Record(o, req, officer, now).0; k < |p.applications| && p.applications[k] == o.applications[k]
  {
    hide FirstApplication, CleanReason, IsOverride, Recommended;
  }

  lemma {:induction false} QuietRun(o: Office, events: seq<Event>, k: nat)
    requires k < |o.applications| && Quiet(events, k, o.applications[k].score)
    ensures var p := Run(o, events); k < |p.applications| && p.applications[k] == o.applications[k]
  {
    if events != [] {
      var before, last := events[..|events| - 1], events[|events| - 1];
      hide Step;
      assert [last][0] == last;
      assert Quiet([last], k, o.applications[k].score);
      QuietRun(o, before, k);
      QuietStep(Run(o, before), last, k);
    }
  }

  lemma {:induction false} RunAppend(o: Office, events: seq<Event>, later: seq<Event>)
    ensures Run(o, events + later) == Run(Run(o, events), later)
  {
    if later == [] {
      assert events + later == events;
    } else {
      var all, n := events + later, |later| - 1;
      assert all[..|all| - 1] == events + later[..n];
      RunAppend(o, events, later[..n]);
    }
  }

  /** At the end of any run an application shows the last answer of its partner, if nobody has decided on its score
      since. */
  lemma {:induction false} LastAnswerShows(events: seq<Event>, p: WebhookPayload, later: seq<Event>)
    requires p.application < |Run(EMPTY, events).applications|
    requires Quiet(later, p.application, Run(EMPTY, events).applications[p.application].score)
    ensures var end := Run(EMPTY, events + [Callback(p)] + later);
      && p.application < |end.applications|
      && Answered(Run(EMPTY, events).applications[p.application], end.applications[p.application], p)
  {
    var o := Run(EMPTY, events);
    RunAppend(EMPTY, events + [Callback(p)], later);
    RunSnoc(events, Callback(p));
    CallbackStores(o, p);
    hide Run, Step;
    QuietRun(Step(o, Callback(p)), later, p.application);
  }

  // ---------- the officer's decision ----------

  /** What is left of a reason: the text between its outermost characters that are not whitespace. */
  lemma {:induction false} CleanReasonMeaning(reason: string, i: nat, j: nat)
    requires i <= j <= |reason|
    requires forall k :: 0 <= k < i || j <= k < |reason| ==> TextLayout.IsSpace(reason[k])
    requires i < j ==> !TextLayout.IsSpace(reason[i]) && !TextLayout.IsSpace(reason[j - 1])
    ensures CleanReason(None) == None
    ensures CleanReason(Some(reason)) == if i == j then None else Some(reason[i..j])
  {
    var start := if i == j then |reason| else i;
    TextLayout.LStripGoesOn(reason, 0, start);
    assert reason[0..] == reason;
    assert TextLayout.GoesOnAt(reason, 0, start);
    hide TextLayout.LStrip, TextLayout.GoesOnAt;
    if i < j {
      RStripTo(reason[i..], j - i);
      assert reason[i..][..j - i] == reason[i..j];
    }
  }

  lemma {:induction false} RStripTo(s: string, n: nat)
    requires 0 < n <= |s| && !TextLayout.IsSpace(s[n - 1])
    requires forall k :: n <= k < |s| ==> TextLayout.IsSpace(s[k])
    ensures RStrip(s) == s[..n]
  {
    if n < |s| {
      RStripTo(s[..|s| - 1], n);
      assert s[..|s| - 1][..n] == s[..n];
    } else {
      assert s[..n] == s;
    }
  }

  /** The newest row of a score is found. */
  lemma {:induction false} LatestIs(log: seq<LogRow>, i: nat)
    requires i < |log| && forall j :: i < j < |log| ==> log[j].score != log[i].score
    ensures Latest(log, log[i].score) == Some(log[i])
  {
    if i < |log| - 1 {
      LatestIs(log[..|log| - 1], i);
    }
  }

  /** A decision is taken exactly on a known score, with a reason exactly when it goes against the model's advice. */
  lemma {:induction false} RecordIff(o: Office, req: DecisionRequest, officer: string, now: Time)
    ensures var (after, r) := Record(o, req, officer, now);
      && (r.Success? <==>
            && req.score in o.scores
            && (CleanReason(req.reason).Some? <==> Disagrees(req.decision, Advice(o.scores[req.score].raw))))
      && (r == Failure(ScoreNotFound) <==> req.score !in o.scores)
      && (r.Failure? ==> after == o)
  {
    if req.score in o.scores {
      var s := o.scores[req.score];
      hide CleanReason, Normalize, Advice, BandOf, Mirror, FirstApplication;
      NormalizeAgain(s.raw, Some(s.lower), Some(s.upper));
      AdviceIsRecommended(s.raw);
      hide RecommendationFor;
      assert IsOverride(req.decision, Recommended(s)) <==> Disagrees(req.decision, Recommended(s));
    }
  }

  /** A decision taken is logged as asked, with the advice, the score and the application it was about, and reaches
      the row of that application, the first of its score, and no other. */
  lemma {:induction false} DecisionStores(o: Office, req: DecisionRequest, officer: string, now: Time)
    requires Record(o, req, officer, now).1.Success?
    ensures var after := Step(o, Decide(req, officer, now));
      && req.score in o.scores && |after.log| == |o.log| + 1 && after.log[..|o.log|] == o.log
      && var row := after.log[|o.log|];
        && row.score == req.score && row.officer == officer && row.decision == req.decision && row.notes == req.notes
        && row.reason == CleanReason(req.reason) && row.createdAt == now
        && row.modelScore == o.scores[req.score].raw && row.recommendation == Advice(row.modelScore)
        && (row.isOverride <==> row.reason.Some?)
        && row.application == FirstApplication(o.applications, req.score)
        && Record(o, req, officer, now).1 == Success(row)
        && after.scores == o.scores && after.sent == o.sent && |after.applications| == |o.applications|
        && forall i :: 0 <= i < |o.applications| ==>
            after.applications[i]
            == if row.application == Some(i)
               then o.applications[i].(decision := req.decision, reason := row.reason, decidedAt := now)
               else o.applications[i]
  {
    RecordIff(o, req, officer, now);
    var s := o.scores[req.score];
    hide CleanReason, Normalize, Advice, BandOf, FirstApplication, RecommendationFor, IsOverride;
    NormalizeAgain(s.raw, Some(s.lower), Some(s.upper));
    AdviceIsRecommended(s.raw);
  }

  // ---------- the submission ----------

  /** A score with its partner is submitted at most once; the first time, it goes out exactly when the score is known
      and its newest decision is an approval. */
  lemma {:induction false} SubmitIff(o: Office, req: SubmitRequest)
    ensures var (after, r) := Submit(o, req);
      var known := exists i :: 0 <= i < |o.applications| && ForPartner(o.applications[i], req.score, req.partner);
      var latest := Latest(o.log, req.score);
      && (r.Success? <==> known || (req.score in o.scores && latest.Some? && latest.value.decision == Approved))
      && (known || r.Failure? ==> after == o)
      && (known ==> r.Success? && r.value < |o.applications|
                    && ForPartner(o.applications[r.value], req.score, req.partner))
      && (!known && r.Success? ==> r.value == |o.applications|)
      && (!known && req.score in o.scores && latest.Some? && latest.value.decision != Approved ==>
            r == Failure(NotApproved(latest.value.decision)))
  {
    hide NewApplication, PayloadFor, Latest;
    var existing := ExistingApplication(o.applications, req.score, req.partner);
  }

  /** A new submission adds one row and one package, both carrying the newest decision; the row says what was asked
      for and has no approved amount yet, and the package is about that row. */
  lemma {:induction false} SubmissionStores(o: Office, req: SubmitRequest)
    requires forall i :: 0 <= i < |o.applications| ==> !ForPartner(o.applications[i], req.score, req.partner)
    requires Submit(o, req).1.Success?
    ensures var after := Step(o, Handoff(req));
      && after.scores == o.scores && after.log == o.log
      && req.score in o.scores && Latest(o.log, req.score).Some?
      && |after.applications| == |o.applications| + 1 && after.applications[..|o.applications|] == o.applications
      && |after.sent| == |o.sent| + 1 && after.sent[..|o.sent|] == o.sent
      && var a, s := after.applications[|o.applications|], after.sent[|o.sent|];
        var latest, score := Latest(o.log, req.score).value, o.scores[req.score];
        && a.borrower == score.borrower && a.score == req.score && a.partner == req.partner
        && a.amount == req.amount && a.tenure == req.tenure && a.purpose == req.purpose
        && Shows(a, latest) && a.approvedAmount == None
        && s.application == |o.applications| && s.decision == latest.decision && s.reason == latest.reason
        && s.recommendation == latest.recommendation && (s.isOverride <==> latest.isOverride)
        && s.band == ScoreBand(score.raw) && s.header == RecommendationFor(s.band)
  {
    SubmitIff(o, req);
    hide Latest, ScoreBand, RecommendationFor, ExistingApplication;
  }
}
