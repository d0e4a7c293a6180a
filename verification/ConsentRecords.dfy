/** What the consent operations write and report, field by field, and that no two borrowers share a chain. */
module ConsentRecords {
  import opened Wrappers
  import opened ConsentLedger
  import opened ConsentInvariants
  import opened ConsentTheorems

  // ---------- chains of different borrowers ----------

  /** The head of a borrower's chain is the hash of something that names the borrower. */
  ghost predicate NamesBorrower(cfg: Config, h: Hash, b: BorrowerId) {
    exists p: Payload :: h == cfg.hash(p) && p.borrower == b
  }

  lemma {:induction false} HeadNamesBorrower(cfg: Config, records: seq<Consent>, b: BorrowerId)
    requires Linked(cfg, records)
    ensures NamesBorrower(cfg, LatestHash(cfg, records, b), b)
  {
    if records == [] {
      assert Genesis(cfg.salt, b).borrower == b;
    } else {
      var n := |records| - 1;
      assert LinkOk(cfg, records, n);
      LinkedPrefix(cfg, records);
      HeadNamesBorrower(cfg, records[..n], b);
      var c := records[n];
      assert Entry(c.borrower, c.purpose, Sorted(c.sources), c.issuedAt, c.expiresAt, Active, c.hashPrev).borrower
          == c.borrower;
    }
  }

  /** Two borrowers never stand at the same hash, in one ledger or in two, whether they gave consents or not. */
  lemma {:induction false} ChainsApart(cfg: Config, rep1: seq<Repayment>, run1: seq<Event>, rep2: seq<Repayment>,
                                       run2: seq<Event>, a: BorrowerId, b: BorrowerId)
    requires cfg.Injective() && a != b
    ensures LatestHash(cfg, Run(cfg, rep1, run1).records, a) != LatestHash(cfg, Run(cfg, rep2, run2).records, b)
  {
    ReachableInv(cfg, rep1, run1);
    ReachableInv(cfg, rep2, run2);
    hide Run, LatestHash;
    HeadNamesBorrower(cfg, Run(cfg, rep1, run1).records, a);
    HeadNamesBorrower(cfg, Run(cfg, rep2, run2).records, b);
    var g, h := LatestHash(cfg, Run(cfg, rep1, run1).records, a), LatestHash(cfg, Run(cfg, rep2, run2).records, b);
    var p: Payload :| g == cfg.hash(p) && p.borrower == a;
    var q: Payload :| h == cfg.hash(q) && q.borrower == b;
  }

  // ---------- the report ----------

  /** The days left are the whole days until expiry; each issue is reported exactly when it is one, once, and the
      record is valid exactly when none is. */
  lemma {:induction false} ReportMeaning(cfg: Config, c: Consent, now: Time)
    ensures var v := Inspect(cfg, c, now);
      && (c.expiresAt < now ==> v.remainingDays == 0)
      && (c.expiresAt >= now ==>
            v.remainingDays * 86_400_000_000 <= c.expiresAt - now < (v.remainingDays + 1) * 86_400_000_000)
      && v.status == c.status
      && (v.hashChainValid <==> c.hashCurrent == RecordHash(cfg, c))
      && (forall i :: i in v.issues <==>
            match i
            case NotActive(s) => s == c.status && s != Active
            case HasExpired => c.expiresAt < now
            case ChainBroken => !v.hashChainValid)
      && (forall i, j :: 0 <= i < j < |v.issues| ==> v.issues[i] != v.issues[j])
      && (v.isValid <==> v.issues == [])
  {
  }

  // ---------- what is written ----------

  /** The audit rows from `n` on say that candidates of this borrower and purpose were superseded. */
  predicate OnlySuperseded(l: Ledger, m: Ledger, n: nat, b: BorrowerId, p: Purpose)
    requires n <= |m.audit|
  {
    forall k :: n <= k < |m.audit| ==>
      && m.audit[k].action == LogSuperseded && m.audit[k].actor == "system" && m.audit[k].consent < |l.records|
      && IsCandidate(l.records[m.audit[k].consent], b, p)
  }

  lemma {:induction false} SupersedeWrites(l: Ledger, b: BorrowerId, p: Purpose, n: nat)
    requires n <= |l.records|
    ensures l.audit <= Supersede(l, b, p, n).audit && Supersede(l, b, p, n).repayments == l.repayments
    ensures OnlySuperseded(l, Supersede(l, b, p, n), |l.audit|, b, p)
  {
    if n > 0 {
      SupersedeWrites(l, b, p, n - 1);
    }
  }

  /** Creating a consent appends one active record with what was asked for, running from now for the days requested,
      chained to the borrower's newest; the trail gets the superseded ones and then the creation. */
  lemma {:induction false} CreateStores(cfg: Config, l: Ledger, req: CreateRequest, now: Time)
    ensures var m := Create(cfg, l, req, now);
      && |m.records| == |l.records| + 1
      && var c := m.records[|l.records|];
        && c.borrower == req.borrower && c.purpose == req.purpose && c.sources == req.sources
        && c.createdBy == req.createdBy && c.status == Active && c.revokedAt == None && c.revocationReason == None
        && c.issuedAt == now && c.expiresAt == now + req.durationDays * 86_400_000_000
        && c.hashPrev == LatestHash(cfg, l.records, req.borrower) && c.hashCurrent == RecordHash(cfg, c)
        && m.repayments == l.repayments
        && |m.audit| > |l.audit| && l.audit <= m.audit[..|m.audit| - 1]
        && m.audit[|m.audit| - 1] == AuditRow(|l.records|, LogCreated, req.createdBy)
        && OnlySuperseded(l, m.(audit := m.audit[..|m.audit| - 1]), |l.audit|, req.borrower, req.purpose)
  {
    SupersedeWrites(l, req.borrower, req.purpose, |l.records|);
    hide Supersede, LatestHash, OnlySuperseded;
    var before := Supersede(l, req.borrower, req.purpose, |l.records|);
    var m := Create(cfg, l, req, now);
    assert m.audit[..|m.audit| - 1] == before.audit;
    SameTrail(l, before, m.(audit := before.audit), |l.audit|, req.borrower, req.purpose);
  }

  lemma {:induction false} SameTrail(l: Ledger, m: Ledger, n: Ledger, k: nat, b: BorrowerId, p: Purpose)
    requires m.audit == n.audit && k <= |m.audit| && OnlySuperseded(l, m, k, b, p)
    ensures OnlySuperseded(l, n, k, b, p)
  {
  }

  /** A read that finds a record past its time marks it expired and says so in the trail, once; it changes nothing
      else, and nothing at all otherwise. */
  lemma {:induction false} TouchStores(l: Ledger, id: nat, now: Time)
    requires id < |l.records|
    ensures var c := l.records[id];
      Touch(l, id, now)
      == if c.status == Active && c.expiresAt < now
         then Ledger(l.records[id := c.(status := Expired)], l.audit + [AuditRow(id, LogExpiredAuto, "system")],
                     l.repayments)
         else l
  {
  }

  /** A revocation that succeeds leaves one row in the trail, in the name of who asked for it; one that fails says
      whether the record is unknown, already revoked, or has another final status. */
  lemma {:induction false} RevokeStores(cfg: Config, l: Ledger, id: nat, req: RevokeRequest, readAt: Time, now: Time)
    ensures var (m, r) := Revoke(l, id, req, readAt, now);
      && (r.Success? ==> r.value == id && m.audit == l.audit + [AuditRow(id, LogRevoked, req.revokedBy)])
      && (r == Failure(NotFound) <==> id >= |l.records|)
      && (r == Failure(AlreadyRevoked) <==> id < |l.records| && l.records[id].status == Revoked)
      && (r == Failure(CannotRevoke(Superseded)) <==> id < |l.records| && l.records[id].status == Superseded)
      && (r == Failure(CannotRevoke(Expired)) <==>
            && id < |l.records|
            && (l.records[id].status == Expired
                || (l.records[id].status == Active && l.records[id].expiresAt < readAt)))
      && (r.Failure? ==> Step(cfg, l, DoRevoke(id, req, readAt, now)) == l)
  {
  }

  /** A verification changes the record only by the expiry it finds when it reads it, adds its own row to the trail
      after the one for that expiry, and reports on the record as it then is. */
  lemma {:induction false} VerifyStores(cfg: Config, l: Ledger, id: nat, readAt: Time, now: Time)
    ensures var (m, r) := Verify(cfg, l, id, readAt, now);
      if id >= |l.records| then m == l && r == Failure(NotFound)
      else
        var c := l.records[id];
        var due := c.status == Active && c.expiresAt < readAt;
        && m.records == (if due then l.records[id := c.(status := Expired)] else l.records)
        && m.audit == l.audit + (if due then [AuditRow(id, LogExpiredAuto, "system")] else [])
                      + [AuditRow(id, LogVerified, "system")]
        && m.repayments == l.repayments
        && r == Success(Inspect(cfg, m.records[id], now))
  {
  }
}
