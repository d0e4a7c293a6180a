/** The decisioning and handoff services over shared tables, each method proved against the machine's functions. */
module HandoffServices {
  import opened Wrappers
  import opened ScoringUtils
  import opened Decisioning

  class Database {
    var scores: map<ScoreId, Score>
    var log: seq<LogRow>
    var applications: seq<Application>
    var sent: seq<Payload>

    constructor ()
      ensures State() == EMPTY
    {
      scores, log, applications, sent := map[], [], [], [];
    }

    /** The tables as one value. */
    function State(): Office
      reads this
    {
      Office(scores, log, applications, sent)
    }
  }

  class DecisioningService {
    const db: Database

    constructor (db: Database)
      ensures this.db == db
    {
      this.db := db;
    }

    /** Scans the log from its newest row. */
    method GetLatestDecision(score: ScoreId) returns (r: Option<LogRow>)
      ensures r == Latest(db.log, score)
    {
      var i := |db.log|;
      assert db.log[..i] == db.log;
      while i > 0
        invariant 0 <= i <= |db.log|
        invariant Latest(db.log[..i], score) == Latest(db.log, score)
      {
        assert db.log[..i][..i - 1] == db.log[..i - 1];
        if db.log[i - 1].score == score {
          return Some(db.log[i - 1]);
        }
        i := i - 1;
      }
      r := None;
    }

    /** Appends the decision and mirrors it onto the score's first application, or refuses without a trace. */
    method RecordDecision(req: DecisionRequest, officer: string, now: Time) returns (r: Result<LogRow, Error>)
      requires Inv(db.State())
      modifies db
      ensures Inv(db.State()) && (db.State(), r) == Record(old(db.State()), req, officer, now)
    {
      hide Normalize, CleanReason, PackageOk, RowOk;
      RecordKeeps(db.State(), req, officer, now);
      if req.score !in db.scores {
        return Failure(ScoreNotFound);
      }
      var score := db.scores[req.score];
      var norm := Normalize(score.raw, Some(score.lower), Some(score.upper));
      var rec := RecommendationFor(norm.band);
      var override := IsOverride(req.decision, rec);
      var reason := CleanReason(req.reason);
      if override && reason.None? {
        return Failure(ReasonRequired);
      }
      if !override && reason.Some? {
        return Failure(ReasonForbidden);
      }
      var loanApp := FirstApplication(db.applications, req.score);
      var entry := LogRow(req.score, loanApp, officer, req.decision, rec, override, reason, req.notes, score.raw, now);
      db.log := db.log + [entry];
      if loanApp.Some? {
        var app := db.applications[loanApp.value];
        app := app.(decision := req.decision, reason := reason, decidedAt := entry.createdAt);
        db.applications := db.applications[loanApp.value := app];
      }
      r := Success(entry);
    }
  }

  class HandoffService {
    const db: Database

    constructor (db: Database)
      ensures this.db == db
    {
      this.db := db;
    }

    /** The application of this score and partner, if there is one. */
    method FindExisting(score: ScoreId, partner: string) returns (r: Option<nat>)
      ensures r == ExistingApplication(db.applications, score, partner)
    {
      var i := 0;
      while i < |db.applications|
        invariant 0 <= i <= |db.applications|
        invariant forall j :: 0 <= j < i ==> !ForPartner(db.applications[j], score, partner)
      {
        if ForPartner(db.applications[i], score, partner) {
          FirstFound(db.applications, score, partner, i);
          return Some(i);
        }
        i := i + 1;
      }
      r := None;
      NoneFound(db.applications, score, partner);
    }

    /** Submits an approved application once per partner. */
    method SubmitApplication(req: SubmitRequest) returns (r: Result<nat, Error>)
      requires Inv(db.State())
      modifies db
      ensures Inv(db.State()) && (db.State(), r) == Submit(old(db.State()), req)
    {
      hide PackageOk, RowOk;
      SubmitKeeps(db.State(), req);
      var existing := FindExisting(req.score, req.partner);
      if existing.Some? {
        return Success(existing.value);
      }
      if req.score !in db.scores {
        return Failure(ScoreNotFound);
      }
      var score := db.scores[req.score];
      var decisioning := new DecisioningService(db);
      var latest := decisioning.GetLatestDecision(req.score);
      if latest.None? {
        return Failure(NoDecision);
      }
      if latest.value.decision != Approved {
        return Failure(NotApproved(latest.value.decision));
      }
      var id := |db.applications|;
      db.applications := db.applications + [NewApplication(score, req, latest.value)];
      db.sent := db.sent + [PayloadFor(id, score, latest.value)];
      r := Success(id);
    }

    /** Overwrites the decision fields with the partner's; the log stays as it is. */
    method ProcessDecisionWebhook(p: WebhookPayload) returns (r: Result<nat, Error>)
      requires Inv(db.State())
      modifies db`applications
      ensures Inv(db.State()) && (db.State(), r) == Webhook(old(db.State()), p)
    {
      hide PackageOk, RowOk;
      WebhookKeeps(db.State(), p);
      if p.application >= |db.applications| {
        return Failure(ApplicationNotFound);
      }
      var app := db.applications[p.application];
      app := app.(decision := p.decision, decidedAt := p.decidedAt);
      if p.reason.Some? && p.reason.value != "" {
        app := app.(reason := p.reason);
      }
      app := app.(approvedAmount := p.approvedAmount);
      db.applications := db.applications[p.application := app];
      r := Success(p.application);
    }
  }

  lemma {:induction false} FirstFound(apps: seq<Application>, score: ScoreId, partner: string, i: nat)
    requires i < |apps| && ForPartner(apps[i], score, partner)
    requires forall j :: 0 <= j < i ==> !ForPartner(apps[j], score, partner)
    ensures ExistingApplication(apps, score, partner) == Some(i)
  {
    if i < |apps| - 1 {
      FirstFound(apps[..|apps| - 1], score, partner, i);
    }
  }

  lemma {:induction false} NoneFound(apps: seq<Application>, score: ScoreId, partner: string)
    requires forall j :: 0 <= j < |apps| ==> !ForPartner(apps[j], score, partner)
    ensures ExistingApplication(apps, score, partner) == None
  {
  }
}
