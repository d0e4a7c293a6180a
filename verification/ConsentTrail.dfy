/** Which expiries the audit trail misses, over every run of the ledger. */
module ConsentTrail {
  import opened ConsentLedger
  import opened ConsentInvariants

  /** Record `i` is expired and no row says so. */
  predicate SilentlyExpired(l: Ledger, i: nat) {
    i < |l.records| && l.records[i].status == Expired && Rows(l.audit, i, LogExpiredAuto) == 0
  }

  /** The event is a purge that finds record `i` active and past its expiry. */
  predicate PurgedBy(l: Ledger, i: nat, e: Event) {
    e.DoPurge? && i < |l.records| && l.records[i].status == Active && l.records[i].expiresAt < e.now
  }

  /** Superseding expires nothing and logs no expiry. */
  lemma {:induction false} SupersedeLogsNoExpiry(l: Ledger, b: BorrowerId, p: Purpose, n: nat, i: nat)
    requires n <= |l.records|
    ensures var m := Supersede(l, b, p, n);
      && Rows(m.audit, i, LogExpiredAuto) == Rows(l.audit, i, LogExpiredAuto)
      && (i < |l.records| ==> (m.records[i].status == Expired <==> l.records[i].status == Expired))
  {
    if n > 0 {
      SupersedeLogsNoExpiry(l, b, p, n - 1, i);
      hide Rows, Supersede;
      SupersedeStep(l, b, p, n, i);
    }
  }

  lemma {:induction false} SupersedeStep(l: Ledger, b: BorrowerId, p: Purpose, n: nat, i: nat)
    requires 0 < n <= |l.records|
    ensures var before, m := Supersede(l, b, p, n - 1), Supersede(l, b, p, n);
      && Rows(m.audit, i, LogExpiredAuto) == Rows(before.audit, i, LogExpiredAuto)
      && (i < |l.records| ==> (m.records[i].status == Expired <==> before.records[i].status == Expired))
  {
    hide Rows;
    RowsSnoc(Supersede(l, b, p, n - 1).audit, AuditRow(n - 1, LogSuperseded, "system"), i, LogExpiredAuto);
  }

  lemma {:induction false} CreateLogsNoExpiry(cfg: Config, l: Ledger, req: CreateRequest, now: Time, i: nat)
    ensures SilentlyExpired(Create(cfg, l, req, now), i) <==> SilentlyExpired(l, i)
  {
    hide Rows, Supersede, LatestHash, ConsentHash;
    var s := Supersede(l, req.borrower, req.purpose, |l.records|);
    SupersedeLogsNoExpiry(l, req.borrower, req.purpose, |l.records|, i);
    RowsSnoc(s.audit, AuditRow(|s.records|, LogCreated, req.createdBy), i, LogExpiredAuto);
  }

  /** A read that expires a record says so. */
  lemma {:induction false} TouchLogsExpiry(l: Ledger, id: nat, now: Time, i: nat)
    requires id < |l.records|
    ensures SilentlyExpired(Touch(l, id, now), i) <==> SilentlyExpired(l, i)
  {
    hide Rows;
    RowsSnoc(l.audit, AuditRow(id, LogExpiredAuto, "system"), i, LogExpiredAuto);
  }

  lemma {:induction false} RevokeLogsNoExpiry(l: Ledger, id: nat, req: RevokeRequest, readAt: Time, now: Time, i: nat)
    requires Revoke(l, id, req, readAt, now).1.Success?
    ensures SilentlyExpired(Revoke(l, id, req, readAt, now).0, i) <==> SilentlyExpired(l, i)
  {
    hide Rows;
    RowsSnoc(l.audit, AuditRow(id, LogRevoked, req.revokedBy), i, LogExpiredAuto);
  }

  lemma {:induction false} VerifyLogsExpiry(cfg: Config, l: Ledger, id: nat, readAt: Time, now: Time, i: nat)
    ensures SilentlyExpired(Verify(cfg, l, id, readAt, now).0, i) <==> SilentlyExpired(l, i)
  {
    hide Rows, Inspect;
    if id < |l.records| {
      TouchLogsExpiry(l, id, readAt, i);
      RowsSnoc(Touch(l, id, readAt).audit, AuditRow(id, LogVerified, "system"), i, LogExpiredAuto);
    }
  }

  lemma {:induction false} PurgeLogsNothing(cfg: Config, l: Ledger, now: Time, i: nat)
    requires Inv(cfg, l)
    ensures SilentlyExpired(ExpireAll(l, now), i) <==> SilentlyExpired(l, i) || PurgedBy(l, i, DoPurge(now))
  {
    hide Rows;
    if i < |l.records| {
      assert TrailOk(l.audit, i, l.records[i].status);
    }
  }

  /** One transaction leaves a silent expiry exactly where there was one, or where it is a purge that expires. */
  lemma {:induction false} StepSilent(cfg: Config, l: Ledger, e: Event, i: nat)
    requires Inv(cfg, l)
    ensures SilentlyExpired(Step(cfg, l, e), i) <==> SilentlyExpired(l, i) || PurgedBy(l, i, e)
  {
    hide SilentlyExpired, Inv, Create, Touch, Revoke, Verify, ExpireAll;
    match e
    case DoCreate(req, now) => CreateLogsNoExpiry(cfg, l, req, now, i);
    case DoGet(id, now) => if id < |l.records| { TouchLogsExpiry(l, id, now, i); }
    case DoRevoke(id, req, readAt, now) =>
      if Revoke(l, id, req, readAt, now).1.Success? { RevokeLogsNoExpiry(l, id, req, readAt, now, i); }
    case DoVerify(id, readAt, now) => VerifyLogsExpiry(cfg, l, id, readAt, now, i);
    case DoPurge(now) => PurgeLogsNothing(cfg, l, now, i);
  }

  /** Event `k` of the run is a purge that finds record `i` active and past its expiry. */
  predicate PurgedAt(cfg: Config, repayments: seq<Repayment>, events: seq<Event>, i: nat, k: nat) {
    k < |events| && PurgedBy(Run(cfg, repayments, events[..k]), i, events[k])
  }

  /** What happened before the last event does not depend on it. */
  lemma {:induction false} PurgedEarlier(cfg: Config, repayments: seq<Repayment>, events: seq<Event>, i: nat, k: nat)
    requires k < |events|
    ensures var n := |events| - 1;
      PurgedAt(cfg, repayments, events, i, k)
      <==> if k < n then PurgedAt(cfg, repayments, events[..n], i, k)
           else PurgedBy(Run(cfg, repayments, events[..n]), i, events[n])
  {
    hide PurgedBy, Run;
    if k < |events| - 1 {
      assert events[..|events| - 1][..k] == events[..k];
    }
  }

  lemma {:induction false} LastStepSilent(cfg: Config, repayments: seq<Repayment>, events: seq<Event>, i: nat)
    requires events != []
    ensures var before := Run(cfg, repayments, events[..|events| - 1]);
      SilentlyExpired(Run(cfg, repayments, events), i)
      <==> SilentlyExpired(before, i) || PurgedBy(before, i, events[|events| - 1])
  {
    hide SilentlyExpired, PurgedBy, Inv, Step;
    var n := |events| - 1;
    ReachableInv(cfg, repayments, events[..n]);
    StepSilent(cfg, Run(cfg, repayments, events[..n]), events[n], i);
  }

  /** Over every run an expired record lacks its EXPIRED_AUTO row exactly when some purge of the run found it
      active and past its expiry: every other expiry is in the trail. */
  lemma {:induction false} ExpirySilentIff(cfg: Config, repayments: seq<Repayment>, events: seq<Event>, i: nat)
    ensures SilentlyExpired(Run(cfg, repayments, events), i)
       <==> exists k: nat :: k < |events| && PurgedAt(cfg, repayments, events, i, k)
  {
    if events != [] {
      var n := |events| - 1;
      hide SilentlyExpired, PurgedBy, PurgedAt, Run;
      ExpirySilentIff(cfg, repayments, events[..n], i);
      LastStepSilent(cfg, repayments, events, i);
      PurgedEarlier(cfg, repayments, events, i, n);
      if exists k: nat :: k < n && PurgedAt(cfg, repayments, events[..n], i, k) {
        var k: nat :| k < n && PurgedAt(cfg, repayments, events[..n], i, k);
        PurgedEarlier(cfg, repayments, events, i, k);
      } else {
        forall k: nat | k < n
          ensures !PurgedAt(cfg, repayments, events, i, k)
        {
          PurgedEarlier(cfg, repayments, events, i, k);
        }
      }
    }
  }
}
