/** Officer decisions, the handoff to a lending partner and the partner's webhook, as one machine over the shared
    tables. */
module Decisioning {
  import opened Wrappers
  import opened ScoringUtils
  import TextLayout

  type ScoreId = nat
  type BorrowerId = nat
  type Time = int

  datatype Verdict = Approved | Rejected | MoreInfoRequired | Referred

  /** What an officer may rule; only a partner refers. */
  type OfficerDecision = v: Verdict | v != Referred witness Approved

  datatype Recommendation = Approve | Review | Reject

  datatype Score = Score(borrower: BorrowerId, raw: real, lower: real, upper: real)

  datatype LogRow = LogRow(
    score: ScoreId, application: Option<nat>, officer: string, decision: OfficerDecision,
    recommendation: Recommendation, isOverride: bool, reason: Option<string>, notes: Option<string>,
    modelScore: real, createdAt: Time)

  datatype Application = Application(
    borrower: BorrowerId, score: ScoreId, partner: string, amount: real, tenure: nat, purpose: string,
    decision: Verdict, reason: Option<string>, decidedAt: Time, approvedAmount: Option<real>)

  /** What leaves for the partner. */
  datatype Payload = Payload(
    application: nat, band: Band, header: Recommendation,
    decision: Verdict, recommendation: Recommendation, isOverride: bool, reason: Option<string>)

  /** The tables, rows in insertion order, and the packages sent. */
  datatype Office = Office(
    scores: map<ScoreId, Score>, log: seq<LogRow>, applications: seq<Application>, sent: seq<Payload>)

  datatype Error =
    | ScoreNotFound | ReasonRequired | ReasonForbidden | NoDecision | NotApproved(decision: Verdict)
    | ApplicationNotFound

  // ---------- rules ----------

  function RecommendationFor(band: Band): Recommendation {
    match band
    case Excellent => Approve
    case Good => Approve
    case Moderate => Review
    case _ => Reject
  }

  function IsOverride(decision: OfficerDecision, rec: Recommendation): bool {
    if rec == Review then false
    else if rec == Approve then decision != Approved
    else decision != Rejected
  }

  function RStrip(s: string): string {
    if s != "" && TextLayout.IsSpace(s[|s| - 1]) then RStrip(s[..|s| - 1]) else s
  }

  /** The request's validator: strip, and an empty reason is no reason. */
  function CleanReason(reason: Option<string>): Option<string> {
    if reason.None? then None
    else
      var s := RStrip(TextLayout.LStrip(reason.value));
      if s == "" then None else Some(s)
  }

  // ---------- queries ----------

  /** The newest decision on a score. */
  function Latest(log: seq<LogRow>, score: ScoreId): Option<LogRow> {
    if log == [] then None
    else if log[|log| - 1].score == score then Some(log[|log| - 1])
    else Latest(log[..|log| - 1], score)
  }

  predicate ForPartner(a: Application, score: ScoreId, partner: string) {
    a.score == score && a.partner == partner
  }

  /** The first application of a score, with any partner. */
  function FirstApplication(apps: seq<Application>, score: ScoreId): (r: Option<nat>)
    ensures r.Some? ==> r.value < |apps| && apps[r.value].score == score
    ensures r.Some? ==> forall i :: 0 <= i < r.value ==> apps[i].score != score
    ensures r.None? ==> forall i :: 0 <= i < |apps| ==> apps[i].score != score
  {
    if apps == [] then None
    else
      var before := FirstApplication(apps[..|apps| - 1], score);
      if before.Some? then before
      else if apps[|apps| - 1].score == score then Some(|apps| - 1)
      else None
  }

  function ExistingApplication(apps: seq<Application>, score: ScoreId, partner: string): (r: Option<nat>)
    ensures r.Some? ==> r.value < |apps| && ForPartner(apps[r.value], score, partner)
    ensures r.None? ==> forall i :: 0 <= i < |apps| ==> !ForPartner(apps[i], score, partner)
  {
    if apps == [] then None
    else
      var before := ExistingApplication(apps[..|apps| - 1], score, partner);
      if before.Some? then before
      else if ForPartner(apps[|apps| - 1], score, partner) then Some(|apps| - 1)
      else None
  }

  // ---------- operations ----------

  datatype DecisionRequest = DecisionRequest(
    score: ScoreId, decision: OfficerDecision, reason: Option<string>, notes: Option<string>)

  datatype SubmitRequest = SubmitRequest(
    score: ScoreId, partner: string, amount: real, tenure: nat, purpose: string)

  datatype WebhookPayload = WebhookPayload(
    application: nat, decision: Verdict, decidedAt: Time, approvedAmount: Option<real>, reason: Option<string>)

  /** The recommendation the officer is shown. */
  function Recommended(s: Score): Recommendation {
    RecommendationFor(Normalize(s.raw, Some(s.lower), Some(s.upper)).band)
  }

  function RowFor(o: Office, req: DecisionRequest, officer: string, now: Time): LogRow
    requires req.score in o.scores
  {
    var s := o.scores[req.score];
    var rec := Recommended(s);
    LogRow(req.score, FirstApplication(o.applications, req.score), officer, req.decision, rec,
           IsOverride(req.decision, rec), CleanReason(req.reason), req.notes, s.raw, now)
  }

  function Mirror(apps: seq<Application>, row: LogRow): seq<Application>
    requires row.application.Some? ==> row.application.value < |apps|
  {
    if row.application.None? then apps
    else
      var k := row.application.value;
      apps[k := apps[k].(decision := row.decision, reason := row.reason, decidedAt := row.createdAt)]
  }

  /** `DecisioningService.record_decision`. */
  function Record(o: Office, req: DecisionRequest, officer: string, now: Time): (Office, Result<LogRow, Error>) {
    if req.score !in o.scores then (o, Failure(ScoreNotFound))
    else
      var row := RowFor(o, req, officer, now);
      if row.isOverride && row.reason.None? then (o, Failure(ReasonRequired))
      else if !row.isOverride && row.reason.Some? then (o, Failure(ReasonForbidden))
      else (o.(log := o.log + [row], applications := Mirror(o.applications, row)), Success(row))
  }

  function NewApplication(s: Score, req: SubmitRequest, latest: LogRow): Application {
    Application(s.borrower, req.score, req.partner, req.amount, req.tenure, req.purpose,
                latest.decision, latest.reason, latest.createdAt, None)
  }

  function PayloadFor(id: nat, s: Score, latest: LogRow): Payload {
    Payload(id, ScoreBand(s.raw), RecommendationFor(ScoreBand(s.raw)),
            latest.decision, latest.recommendation, latest.isOverride, latest.reason)
  }

  /** `HandoffService.submit_application`. */
  function Submit(o: Office, req: SubmitRequest): (Office, Result<nat, Error>) {
    var existing := ExistingApplication(o.applications, req.score, req.partner);
    var latest := Latest(o.log, req.score);
    if existing.Some? then (o, Success(existing.value))
    else if req.score !in o.scores then (o, Failure(ScoreNotFound))
    else if latest.None? then (o, Failure(NoDecision))
    else if latest.value.decision != Approved then (o, Failure(NotApproved(latest.value.decision)))
    else
      var id, s := |o.applications|, o.scores[req.score];
      (o.(applications := o.applications + [NewApplication(s, req, latest.value)],
          sent := o.sent + [PayloadFor(id, s, latest.value)]), Success(id))
  }

  function Decided(a: Application, p: WebhookPayload): Application {
    a.(decision := p.decision, decidedAt := p.decidedAt, approvedAmount := p.approvedAmount,
       reason := if p.reason.Some? && p.reason.value != "" then p.reason else a.reason)
  }

  /** `HandoffService.process_decision_webhook`. */
  function Webhook(o: Office, p: WebhookPayload): (Office, Result<nat, Error>) {
    if p.application >= |o.applications| then (o, Failure(ApplicationNotFound))
    else
      (o.(applications := o.applications[p.application := Decided(o.applications[p.application], p)]),
       Success(p.application))
  }

  // ---------- runs ----------

  datatype Event =
    | Scored(id: ScoreId, score: Score)
    | Decide(request: DecisionRequest, officer: string, now: Time)
    | Handoff(submit: SubmitRequest)
    | Callback(payload: WebhookPayload)

  function Step(o: Office, e: Event): Office {
    match e
    case Scored(id, score) => if id in o.scores then o else o.(scores := o.scores[id := score])
    case Decide(req, officer, now) => Record(o, req, officer, now).0
    case Handoff(req) => Submit(o, req).0
    case Callback(p) => Webhook(o, p).0
  }

  function Run(o: Office, events: seq<Event>): Office {
    if events == [] then o else Step(Run(o, events[..|events| - 1]), events[|events| - 1])
  }

  const EMPTY: Office := Office(map[], [], [], [])

  // ---------- what every step keeps ----------

  /** A reason is real: something is left of it and it neither starts nor ends in whitespace. */
  predicate RealReason(reason: string) {
    reason != "" && !TextLayout.IsSpace(reason[0]) && !TextLayout.IsSpace(reason[|reason| - 1])
  }

  /** The row records a decision taken under the rules, with a reason exactly when it overrides the model. */
  predicate RowOk(o: Office, row: LogRow) {
    && row.score in o.scores && row.modelScore == o.scores[row.score].raw
    && row.recommendation == RecommendationFor(BandOf(row.modelScore))
    && row.isOverride == IsOverride(row.decision, row.recommendation)
    && (row.reason.Some? <==> row.isOverride)
    && (row.reason.Some? ==> RealReason(row.reason.value))
    && (row.application.Some? ==>
          row.application.value < |o.applications| && o.applications[row.application.value].score == row.score)
  }

  ghost predicate HasApproval(log: seq<LogRow>, score: ScoreId) {
    exists i :: 0 <= i < |log| && log[i].score == score && log[i].decision == Approved
  }

  predicate Distinct(apps: seq<Application>) {
    forall i, j :: 0 <= i < j < |apps| ==> !ForPartner(apps[i], apps[j].score, apps[j].partner)
  }

  /** The package of application `i` carries an approval the log holds. */
  ghost predicate PackageOk(o: Office, i: nat)
    requires i < |o.sent| == |o.applications|
  {
    var s, a := o.sent[i], o.applications[i];
    && s.application == i && s.decision == Approved
    && a.score in o.scores && a.borrower == o.scores[a.score].borrower
    && s.header == RecommendationFor(ScoreBand(o.scores[a.score].raw))
    && s.recommendation == RecommendationFor(BandOf(o.scores[a.score].raw))
    && HasApproval(o.log, a.score)
  }

  ghost predicate Inv(o: Office) {
    && Distinct(o.applications)
    && |o.sent| == |o.applications|
    && (forall i: nat :: i < |o.sent| ==> PackageOk(o, i))
    && (forall i :: 0 <= i < |o.log| ==> RowOk(o, o.log[i]))
  }

  /** Nothing is forgotten: scores and log rows never change, applications keep their identity. */
  ghost predicate Grows(o: Office, p: Office) {
    && (forall id :: id in o.scores ==> id in p.scores && p.scores[id] == o.scores[id])
    && o.log <= p.log
    && o.sent <= p.sent
    && |o.applications| <= |p.applications|
    && forall i :: 0 <= i < |o.applications| ==> SameApplication(o.applications[i], p.applications[i])
  }

  /** The same application up to the fields a decision may overwrite. */
  predicate SameApplication(a: Application, b: Application) {
    b == a.(decision := b.decision, reason := b.reason, decidedAt := b.decidedAt, approvedAmount := b.approvedAmount)
  }

  lemma {:induction false} RStripMeaning(s: string)
    ensures RStrip(s) <= s
    ensures RStrip(s) != "" ==> !TextLayout.IsSpace(RStrip(s)[|RStrip(s)| - 1])
  {
    if s != "" && TextLayout.IsSpace(s[|s| - 1]) {
      RStripMeaning(s[..|s| - 1]);
    }
  }

  lemma {:induction false} CleanReasonIsReal(reason: Option<string>)
    ensures CleanReason(reason).Some? ==> RealReason(CleanReason(reason).value)
  {
    if reason.Some? {
      TextLayout.LStripMeaning(reason.value);
      RStripMeaning(TextLayout.LStrip(reason.value));
    }
  }

  /** An older row stays in order when the tables grow. */
  lemma {:induction false} RowOkGrows(o: Office, p: Office, row: LogRow)
    requires RowOk(o, row) && Grows(o, p)
    ensures RowOk(p, row)
  {
    if row.application.Some? {
      assert SameApplication(o.applications[row.application.value], p.applications[row.application.value]);
    }
  }

  lemma {:induction false} ApprovalGrows(log: seq<LogRow>, more: seq<LogRow>, score: ScoreId)
    requires log <= more && HasApproval(log, score)
    ensures HasApproval(more, score)
  {
    var i :| 0 <= i < |log| && log[i].score == score && log[i].decision == Approved;
    assert more[i] == log[i];
  }

  lemma {:induction false} PackageOkGrows(o: Office, p: Office, i: nat)
    requires |o.sent| == |o.applications| && |p.sent| == |p.applications|
    requires i < |o.sent| && PackageOk(o, i) && Grows(o, p)
    ensures i < |p.sent| && PackageOk(p, i)
  {
    assert SameApplication(o.applications[i], p.applications[i]);
    assert p.sent[i] == o.sent[i];
    ApprovalGrows(o.log, p.log, o.applications[i].score);
  }

  lemma {:induction false} LatestInLog(log: seq<LogRow>, score: ScoreId)
    ensures Latest(log, score).Some? ==> Latest(log, score).value in log && Latest(log, score).value.score == score
    ensures Latest(log, score).None? ==> forall i :: 0 <= i < |log| ==> log[i].score != score
  {
    if log != [] {
      LatestInLog(log[..|log| - 1], score);
    }
  }

  lemma {:induction false} RowForOk(o: Office, req: DecisionRequest, officer: string, now: Time)
    requires req.score in o.scores && Record(o, req, officer, now).1.Success?
    ensures RowOk(o, RowFor(o, req, officer, now))
  {
    hide CleanReason, Normalize, RealReason;
    CleanReasonIsReal(req.reason);
    var s := o.scores[req.score];
    NormalizeAgain(s.raw, Some(s.lower), Some(s.upper));
  }

  lemma {:induction false} RecordGrows(o: Office, req: DecisionRequest, officer: string, now: Time)
    ensures Grows(o, Record(o, req, officer, now).0)
  {
    hide CleanReason, IsOverride, Recommended;
  }

  lemma {:induction false} RecordKeeps(o: Office, req: DecisionRequest, officer: string, now: Time)
    requires Inv(o)
    ensures Inv(Record(o, req, officer, now).0)
  {
    var (p, r) := Record(o, req, officer, now);
    if r.Success? {
      RecordGrows(o, req, officer, now);
      RowForOk(o, req, officer, now);
      hide RowOk, PackageOk, CleanReason, IsOverride, Recommended;
      Kept(o, p);
      RowOkGrows(o, p, r.value);
      assert Distinct(p.applications);
    }
  }

  /** Older rows and packages stay in order under any growth. */
  lemma {:induction false} Kept(o: Office, p: Office)
    requires Inv(o) && Grows(o, p) && |p.sent| == |p.applications|
    ensures forall i: nat :: i < |o.sent| ==> i < |p.sent| && PackageOk(p, i)
    ensures forall i :: 0 <= i < |o.log| ==> i < |p.log| && RowOk(p, p.log[i])
  {
    hide RowOk, PackageOk;
    forall i: nat | i < |o.sent|
      ensures i < |p.sent| && PackageOk(p, i)
    {
      assert i < |p.sent|;
      PackageOkGrows(o, p, i);
    }
    forall i | 0 <= i < |o.log|
      ensures i < |p.log| && RowOk(p, p.log[i])
    {
      assert p.log[i] == o.log[i];
      RowOkGrows(o, p, o.log[i]);
    }
  }

  lemma {:induction false} SubmitKeeps(o: Office, req: SubmitRequest)
    requires Inv(o)
    ensures Inv(Submit(o, req).0) && Grows(o, Submit(o, req).0)
  {
    var p := Submit(o, req).0;
    if p != o {
      var k := |o.applications|;
      assert Grows(o, p);
      var latest := Latest(o.log, req.score).value;
      LatestInLog(o.log, req.score);
      var i :| 0 <= i < |o.log| && o.log[i] == latest;
      assert RowOk(o, o.log[i]);
      assert HasApproval(p.log, req.score);
      assert PackageOk(p, k);
      hide RowOk, PackageOk;
      Kept(o, p);
    }
  }

  lemma {:induction false} WebhookKeeps(o: Office, w: WebhookPayload)
    requires Inv(o)
    ensures Inv(Webhook(o, w).0) && Grows(o, Webhook(o, w).0)
  {
    var p := Webhook(o, w).0;
    if p != o {
      assert Grows(o, p);
      hide RowOk, PackageOk;
      Kept(o, p);
    }
  }

  lemma {:induction false} StepKeeps(o: Office, e: Event)
    requires Inv(o)
    ensures Inv(Step(o, e)) && Grows(o, Step(o, e))
  {
    hide Record, Submit, Webhook;
    match e {
      case Scored(id, score) =>
        hide RowOk, PackageOk;
        var p := Step(o, e);
        assert Grows(o, p);
        Kept(o, p);
      case Decide(req, officer, now) =>
        hide Inv, Grows;
        RecordKeeps(o, req, officer, now);
        RecordGrows(o, req, officer, now);
      case Handoff(req) =>
        hide Inv, Grows;
        SubmitKeeps(o, req);
      case Callback(p) =>
        hide Inv, Grows;
        WebhookKeeps(o, p);
    }
  }

  lemma {:induction false} GrowsTransitive(o: Office, p: Office, q: Office)
    requires Grows(o, p) && Grows(p, q)
    ensures Grows(o, q)
  {
    forall i | 0 <= i < |o.applications|
      ensures SameApplication(o.applications[i], q.applications[i])
    {
      assert SameApplication(o.applications[i], p.applications[i]);
      assert SameApplication(p.applications[i], q.applications[i]);
    }
  }

  lemma {:induction false} RunKeeps(o: Office, events: seq<Event>)
    requires Inv(o)
    ensures Inv(Run(o, events)) && Grows(o, Run(o, events))
  {
    if events == [] {
      assert Grows(o, o);
    } else {
      hide Inv, Grows, Step;
      var before := Run(o, events[..|events| - 1]);
      RunKeeps(o, events[..|events| - 1]);
      StepKeeps(before, events[|events| - 1]);
      GrowsTransitive(o, before, Run(o, events));
    }
  }
}
