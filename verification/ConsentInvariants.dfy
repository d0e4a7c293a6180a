/** What every transaction of the consent ledger keeps, and what it therefore keeps over whole runs. */
module ConsentInvariants {
  import opened Wrappers
  import opened ConsentLedger

  // ---------- the invariant ----------

  /** Same row up to its lifecycle fields. */
  predicate SameIdentity(c: Consent, d: Consent) {
    d == c.(status := d.status, revokedAt := d.revokedAt, revocationReason := d.revocationReason)
  }

  /** Record `i` is chained to the borrower's previous record and carries its own hash. */
  predicate LinkOk(cfg: Config, records: seq<Consent>, i: nat)
    requires i < |records|
  {
    && records[i].hashPrev == LatestHash(cfg, records[..i], records[i].borrower)
    && records[i].hashCurrent == RecordHash(cfg, records[i])
  }

  ghost predicate Linked(cfg: Config, records: seq<Consent>) {
    forall i: nat :: i < |records| ==> LinkOk(cfg, records, i)
  }

  predicate OneActive(records: seq<Consent>) {
    forall i, j :: 0 <= i < j < |records| && records[i].status == Active && records[j].status == Active ==>
      records[i].borrower != records[j].borrower || records[i].purpose != records[j].purpose
  }

  /** Number of audit rows about `id` with the given action. */
  function Rows(audit: seq<AuditRow>, id: nat, action: Action): nat {
    if audit == [] then 0
    else
      var last := audit[|audit| - 1];
      Rows(audit[..|audit| - 1], id, action) + if last.consent == id && last.action == action then 1 else 0
  }

  /** The audit trail of a record tells how it got its status; only the purge expires without a row. */
  predicate TrailOk(audit: seq<AuditRow>, id: nat, status: Status) {
    && Rows(audit, id, LogCreated) == 1
    && Rows(audit, id, LogRevoked) == (if status == Revoked then 1 else 0)
    && Rows(audit, id, LogSuperseded) == (if status == Superseded then 1 else 0)
    && Rows(audit, id, LogExpiredAuto) <= (if status == Expired then 1 else 0)
  }

  predicate Audited(l: Ledger) {
    && (forall k :: 0 <= k < |l.audit| ==> l.audit[k].consent < |l.records|)
    && forall i: nat :: i < |l.records| ==> TrailOk(l.audit, i, l.records[i].status)
  }

  ghost predicate Inv(cfg: Config, l: Ledger) {
    Linked(cfg, l.records) && OneActive(l.records) && Audited(l)
  }

  // ---------- small facts ----------

  lemma {:induction false} RowsSnoc(audit: seq<AuditRow>, row: AuditRow, id: nat, action: Action)
    ensures Rows(audit + [row], id, action)
         == Rows(audit, id, action) + if row.consent == id && row.action == action then 1 else 0
  {
    assert (audit + [row])[..|audit|] == audit;
  }

  lemma {:induction false} RowsOfUnknown(audit: seq<AuditRow>, id: nat, action: Action)
    requires forall k :: 0 <= k < |audit| ==> audit[k].consent < id
    ensures Rows(audit, id, action) == 0
  {
    if audit != [] {
      RowsOfUnknown(audit[..|audit| - 1], id, action);
    }
  }

  lemma {:induction false} LatestHashSame(cfg: Config, r: seq<Consent>, s: seq<Consent>, b: BorrowerId)
    requires |r| == |s|
    requires forall i :: 0 <= i < |r| ==> SameIdentity(r[i], s[i])
    ensures LatestHash(cfg, r, b) == LatestHash(cfg, s, b)
  {
    if r != [] {
      LatestHashSame(cfg, r[..|r| - 1], s[..|s| - 1], b);
    }
  }

  /** The chain does not depend on lifecycle fields. */
  lemma {:induction false} LinkedSame(cfg: Config, r: seq<Consent>, s: seq<Consent>)
    requires Linked(cfg, r) && |r| == |s|
    requires forall i :: 0 <= i < |r| ==> SameIdentity(r[i], s[i])
    ensures Linked(cfg, s)
  {
    forall i: nat | i < |s|
      ensures LinkOk(cfg, s, i)
    {
      assert LinkOk(cfg, r, i);
      LatestHashSame(cfg, r[..i], s[..i], s[i].borrower);
    }
  }

  // ---------- one row leaving ACTIVE, with its audit row ----------

  predicate Explains(action: Action, status: Status) {
    (action == LogRevoked && status == Revoked) || (action == LogSuperseded && status == Superseded)
    || (action == LogExpiredAuto && status == Expired)
  }

  lemma {:induction false} MarkKeepsTrail(l: Ledger, id: nat, c: Consent, action: Action, actor: string)
    requires Audited(l) && id < |l.records|
    requires l.records[id].status == Active && Explains(action, c.status)
    ensures Audited(Mark(l, id, c, action, actor))
  {
    var r := Mark(l, id, c, action, actor);
    var row := AuditRow(id, action, actor);
    forall i: nat | i < |r.records|
      ensures TrailOk(r.audit, i, r.records[i].status)
    {
      assert TrailOk(l.audit, i, l.records[i].status);
      RowsSnoc(l.audit, row, i, LogCreated);
      RowsSnoc(l.audit, row, i, LogRevoked);
      RowsSnoc(l.audit, row, i, LogSuperseded);
      RowsSnoc(l.audit, row, i, LogExpiredAuto);
    }
  }

  lemma {:induction false} MarkKeepsInv(cfg: Config, l: Ledger, id: nat, c: Consent, action: Action, actor: string)
    requires Inv(cfg, l) && id < |l.records|
    requires l.records[id].status == Active && SameIdentity(l.records[id], c) && Explains(action, c.status)
    ensures Inv(cfg, Mark(l, id, c, action, actor))
  {
    MarkKeepsTrail(l, id, c, action, actor);
    LinkedSame(cfg, l.records, Mark(l, id, c, action, actor).records);
  }

  // ---------- a new record ----------

  lemma {:induction false} AppendKeepsInv(cfg: Config, l: Ledger, c: Consent)
    requires Inv(cfg, l)
    requires c.status == Active && c.hashCurrent == RecordHash(cfg, c)
    requires c.hashPrev == LatestHash(cfg, l.records, c.borrower)
    requires forall i :: 0 <= i < |l.records| ==> !IsCandidate(l.records[i], c.borrower, c.purpose)
    ensures Inv(cfg, Append(l, c))
  {
    var r := Append(l, c);
    AppendKeepsTrail(l, c);
    forall i: nat | i < |r.records|
      ensures LinkOk(cfg, r.records, i)
    {
      if i < |l.records| {
        assert LinkOk(cfg, l.records, i);
        assert r.records[..i] == l.records[..i];
      } else {
        assert r.records[..i] == l.records;
      }
    }
  }

  lemma {:induction false} AppendKeepsTrail(l: Ledger, c: Consent)
    requires Audited(l) && c.status == Active
    ensures Audited(Append(l, c))
  {
    var r := Append(l, c);
    var n := |l.records|;
    var row := AuditRow(n, LogCreated, c.createdBy);
    forall i: nat | i < |r.records|
      ensures TrailOk(r.audit, i, r.records[i].status)
    {
      if i < n {
        assert TrailOk(l.audit, i, l.records[i].status);
      } else {
        RowsOfUnknown(l.audit, n, LogCreated);
        RowsOfUnknown(l.audit, n, LogRevoked);
        RowsOfUnknown(l.audit, n, LogSuperseded);
        RowsOfUnknown(l.audit, n, LogExpiredAuto);
      }
      RowsSnoc(l.audit, row, i, LogCreated);
      RowsSnoc(l.audit, row, i, LogRevoked);
      RowsSnoc(l.audit, row, i, LogSuperseded);
      RowsSnoc(l.audit, row, i, LogExpiredAuto);
    }
  }

  /** Superseding keeps the invariant and leaves no candidate among the rows it has passed. */
  lemma {:induction false} SupersedeKeepsInv(cfg: Config, l: Ledger, b: BorrowerId, p: Purpose, n: nat)
    requires Inv(cfg, l) && n <= |l.records|
    ensures Inv(cfg, Supersede(l, b, p, n))
    ensures forall i :: 0 <= i < n ==> !IsCandidate(Supersede(l, b, p, n).records[i], b, p)
    ensures forall i :: 0 <= i < |l.records| ==> SameIdentity(l.records[i], Supersede(l, b, p, n).records[i])
  {
    if n > 0 {
      SupersedeKeepsInv(cfg, l, b, p, n - 1);
      var before := Supersede(l, b, p, n - 1);
      var c := l.records[n - 1];
      if IsCandidate(c, b, p) {
        MarkKeepsInv(cfg, before, n - 1, c.(status := Superseded), LogSuperseded, "system");
      }
    }
  }

  // ---------- every transaction ----------

  lemma {:induction false} CreateKeepsInv(cfg: Config, l: Ledger, req: CreateRequest, now: Time)
    requires Inv(cfg, l)
    ensures Inv(cfg, Create(cfg, l, req, now))
  {
    var superseded := Supersede(l, req.borrower, req.purpose, |l.records|);
    SupersedeKeepsInv(cfg, l, req.borrower, req.purpose, |l.records|);
    LatestHashSame(cfg, l.records, superseded.records, req.borrower);
    AppendKeepsInv(cfg, superseded, NewConsent(cfg, LatestHash(cfg, l.records, req.borrower), req, now));
  }

  lemma {:induction false} TouchKeepsInv(cfg: Config, l: Ledger, id: nat, now: Time)
    requires Inv(cfg, l) && id < |l.records|
    ensures Inv(cfg, Touch(l, id, now))
  {
    var c := l.records[id];
    if c.status == Active && c.expiresAt < now {
      MarkKeepsInv(cfg, l, id, c.(status := Expired), LogExpiredAuto, "system");
    }
  }

  lemma {:induction false} RevokeKeepsInv(cfg: Config, l: Ledger, id: nat, req: RevokeRequest, readAt: Time, now: Time)
    requires Inv(cfg, l)
    ensures Inv(cfg, Revoke(l, id, req, readAt, now).0)
  {
    if id < |l.records| {
      TouchKeepsInv(cfg, l, id, readAt);
      var touched := Touch(l, id, readAt);
      var c := touched.records[id];
      if c.status == Active {
        var revoked := c.(status := Revoked, revokedAt := Some(now), revocationReason := Some(req.reason));
        MarkKeepsInv(cfg, touched, id, revoked, LogRevoked, req.revokedBy);
      }
    }
  }

  lemma {:induction false} VerifyKeepsInv(cfg: Config, l: Ledger, id: nat, readAt: Time, now: Time)
    requires Inv(cfg, l)
    ensures Inv(cfg, Verify(cfg, l, id, readAt, now).0)
  {
    if id < |l.records| {
      TouchKeepsInv(cfg, l, id, readAt);
      var touched := Touch(l, id, readAt);
      var row := AuditRow(id, LogVerified, "system");
      forall i: nat | i < |touched.records|
        ensures TrailOk(touched.audit + [row], i, touched.records[i].status)
      {
        assert TrailOk(touched.audit, i, touched.records[i].status);
        RowsSnoc(touched.audit, row, i, LogCreated);
        RowsSnoc(touched.audit, row, i, LogRevoked);
        RowsSnoc(touched.audit, row, i, LogSuperseded);
        RowsSnoc(touched.audit, row, i, LogExpiredAuto);
      }
    }
  }

  lemma {:induction false} ExpireAllKeepsInv(cfg: Config, l: Ledger, now: Time)
    requires Inv(cfg, l)
    ensures Inv(cfg, ExpireAll(l, now))
  {
    var r := ExpireAll(l, now);
    LinkedSame(cfg, l.records, r.records);
    forall i: nat | i < |r.records|
      ensures TrailOk(r.audit, i, r.records[i].status)
    {
      assert TrailOk(l.audit, i, l.records[i].status);
    }
  }

  lemma {:induction false} StepKeepsInv(cfg: Config, l: Ledger, e: Event)
    requires Inv(cfg, l)
    ensures Inv(cfg, Step(cfg, l, e))
  {
    match e
    case DoCreate(req, now) => CreateKeepsInv(cfg, l, req, now);
    case DoGet(id, now) => if id < |l.records| { TouchKeepsInv(cfg, l, id, now); }
    case DoRevoke(id, req, readAt, now) => RevokeKeepsInv(cfg, l, id, req, readAt, now);
    case DoVerify(id, readAt, now) => VerifyKeepsInv(cfg, l, id, readAt, now);
    case DoPurge(now) => ExpireAllKeepsInv(cfg, l, now);
  }

  /** In every reachable ledger each record is chained and carries its own hash, a borrower has at most one
      ACTIVE record per purpose, and REVOKED or SUPERSEDED holds exactly when one matching audit row exists. */
  lemma {:induction false} ReachableInv(cfg: Config, repayments: seq<Repayment>, events: seq<Event>)
    ensures Inv(cfg, Run(cfg, repayments, events))
  {
    if events != [] {
      ReachableInv(cfg, repayments, events[..|events| - 1]);
      StepKeepsInv(cfg, Run(cfg, repayments, events[..|events| - 1]), events[|events| - 1]);
    }
  }

  // ---------- append-only, final statuses ----------

  /** `l` can only have grown into `m`: rows keep their identity, settled statuses stay, audit rows stay. */
  ghost predicate Evolves(l: Ledger, m: Ledger) {
    && |l.records| <= |m.records|
    && (forall i :: 0 <= i < |l.records| ==>
          SameIdentity(l.records[i], m.records[i])
          && (l.records[i].status != Active ==> m.records[i] == l.records[i]))
    && l.audit <= m.audit
    && |l.repayments| == |m.repayments|
    && (forall i :: 0 <= i < |l.repayments| ==>
          m.repayments[i] == l.repayments[i] || m.repayments[i] == l.repayments[i].(retrainable := false))
  }

  lemma {:induction false} SupersedeEvolves(l: Ledger, b: BorrowerId, p: Purpose, n: nat)
    requires n <= |l.records|
    ensures Evolves(l, Supersede(l, b, p, n))
    ensures Supersede(l, b, p, n).repayments == l.repayments
  {
    if n > 0 {
      SupersedeEvolves(l, b, p, n - 1);
    }
  }

  lemma {:induction false} StepEvolves(cfg: Config, l: Ledger, e: Event)
    ensures Evolves(l, Step(cfg, l, e))
  {
    if e.DoCreate? {
      SupersedeEvolves(l, e.req.borrower, e.req.purpose, |l.records|);
    }
  }

  lemma {:induction false} EvolvesTransitive(l: Ledger, m: Ledger, n: Ledger)
    requires Evolves(l, m) && Evolves(m, n)
    ensures Evolves(l, n)
  {
  }

  /** Over any continuation of any run, records are only appended, their hashed fields never change, a status
      other than ACTIVE is final, audit rows are only appended, and withdrawn repayments stay withdrawn. */
  lemma {:induction false} RunEvolves(cfg: Config, repayments: seq<Repayment>, events: seq<Event>, n: nat)
    requires n <= |events|
    ensures Evolves(Run(cfg, repayments, events[..n]), Run(cfg, repayments, events))
    decreases |events|
  {
    if n == |events| {
      assert events[..n] == events;
    } else {
      var earlier := events[..|events| - 1];
      assert earlier[..n] == events[..n];
      RunEvolves(cfg, repayments, earlier, n);
      StepEvolves(cfg, Run(cfg, repayments, earlier), events[|events| - 1]);
      EvolvesTransitive(Run(cfg, repayments, events[..n]), Run(cfg, repayments, earlier), Run(cfg, repayments, events));
    }
  }
}
