/** The consent service over its tables, each method proved against the ledger functions. */
module ConsentServices {
  import opened Wrappers
  import opened ConsentLedger
  import opened ConsentInvariants
  import opened ConsentTheorems

  class ConsentService {
    const cfg: Config
    var records: seq<Consent>
    var audit: seq<AuditRow>
    var repayments: seq<Repayment>

    /** The tables as one value. */
    function State(): Ledger
      reads this
    {
      Ledger(records, audit, repayments)
    }

    ghost predicate Valid()
      reads this
    {
      Inv(cfg, State())
    }

    constructor (cfg: Config, repayments: seq<Repayment>)
      ensures Valid() && this.cfg == cfg && State() == Ledger([], [], repayments)
    {
      this.cfg := cfg;
      this.repayments := repayments;
      records, audit := [], [];
    }

    /** Scans back for the borrower's newest record. */
    method GetLatestHash(borrower: BorrowerId) returns (h: Hash)
      ensures h == LatestHash(cfg, records, borrower)
    {
      var i := |records|;
      assert records[..i] == records;
      while i > 0
        invariant 0 <= i <= |records|
        invariant LatestHash(cfg, records[..i], borrower) == LatestHash(cfg, records, borrower)
      {
        assert records[..i][..i - 1] == records[..i - 1];
        if records[i - 1].borrower == borrower {
          return records[i - 1].hashCurrent;
        }
        i := i - 1;
      }
      h := GenesisHash(cfg, borrower);
    }

    /** Marks the active consents for the same purpose as superseded, one audit row each. */
    method SupersedeExisting(borrower: BorrowerId, purpose: Purpose)
      modifies this
      ensures State() == Supersede(old(State()), borrower, purpose, |old(records)|)
    {
      var i := 0;
      while i < |records|
        invariant 0 <= i <= |records| == |old(records)|
        invariant State() == Supersede(old(State()), borrower, purpose, i)
      {
        if IsCandidate(records[i], borrower, purpose) {
          records := records[i := records[i].(status := Superseded)];
          audit := audit + [AuditRow(i, LogSuperseded, "system")];
        }
        i := i + 1;
      }
    }

    method CreateConsent(req: CreateRequest, now: Time) returns (id: nat)
      requires Valid()
      modifies this
      ensures Valid() && State() == Create(cfg, old(State()), req, now)
      ensures id == |old(records)|
    {
      var expiresAt := now + req.durationDays * DAY;
      var prevHash := GetLatestHash(req.borrower);
      SupersedeExisting(req.borrower, req.purpose);
      var currentHash :=
        ConsentHash(cfg, req.borrower, req.purpose, req.sources, now, expiresAt, Active, prevHash);
      var consent := Consent(req.borrower, req.purpose, req.sources, now, expiresAt, Active, None, None,
                             prevHash, currentHash, req.createdBy);
      id := |records|;
      records := records + [consent];
      audit := audit + [AuditRow(id, LogCreated, req.createdBy)];
      CreateKeepsInv(cfg, old(State()), req, now);
    }

    /** Reads a record, expiring it first if its time is up. */
    method GetConsent(id: nat, now: Time) returns (r: Result<Consent, Error>)
      requires Valid()
      modifies this
      ensures Valid()
      ensures id >= |old(records)| ==> r == Failure(NotFound) && State() == old(State())
      ensures id < |old(records)| ==> State() == Touch(old(State()), id, now) && r == Success(records[id])
    {
      if id >= |records| {
        return Failure(NotFound);
      }
      var consent := records[id];
      if consent.status == Active && consent.expiresAt < now {
        consent := consent.(status := Expired);
        records := records[id := consent];
        audit := audit + [AuditRow(id, LogExpiredAuto, "system")];
      }
      TouchKeepsInv(cfg, old(State()), id, now);
      r := Success(consent);
    }

    method RevokeConsent(id: nat, req: RevokeRequest, readAt: Time, now: Time) returns (r: Result<nat, Error>)
      requires Valid()
      modifies this
      ensures Valid() && (State(), r) == Revoke(old(State()), id, req, readAt, now)
    {
      RevokeKeepsInv(cfg, State(), id, req, readAt, now);
      var found := GetConsent(id, readAt);
      if found.Failure? {
        return Failure(found.error);
      }
      var consent := found.value;
      if consent.status == Revoked {
        return Failure(AlreadyRevoked);
      }
      if consent.status != Active {
        return Failure(CannotRevoke(consent.status));
      }
      consent := consent.(status := Revoked, revokedAt := Some(now), revocationReason := Some(req.reason));
      records := records[id := consent];
      audit := audit + [AuditRow(id, LogRevoked, req.revokedBy)];
      repayments := WithdrawRepayments(repayments, consent.borrower);
      r := Success(id);
    }

    method VerifyConsent(id: nat, readAt: Time, now: Time) returns (r: Result<Verification, Error>)
      requires Valid()
      modifies this
      ensures Valid() && (State(), r) == Verify(cfg, old(State()), id, readAt, now)
    {
      VerifyKeepsInv(cfg, State(), id, readAt, now);
      var found := GetConsent(id, readAt);
      if found.Failure? {
        return Failure(found.error);
      }
      var consent := found.value;
      var issues: seq<Issue> := [];
      var isValid := true;
      if consent.status != Active {
        isValid := false;
        issues := issues + [NotActive(consent.status)];
      }
      if consent.expiresAt < now {
        isValid := false;
        issues := issues + [HasExpired];
      }
      var hashChainValid := RecordHash(cfg, consent) == consent.hashCurrent;
      if !hashChainValid {
        isValid := false;
        issues := issues + [ChainBroken];
      }
      assert issues == Inspect(cfg, consent, now).issues;
      var days := (consent.expiresAt - now) / DAY;
      audit := audit + [AuditRow(id, LogVerified, "system")];
      r := Success(Verification(isValid, consent.status, hashChainValid, if days < 0 then 0 else days, issues));
    }

    /** The data-pull gate over the candidates the query returned, in any order. */
    method CheckActiveConsent(candidates: seq<nat>, ghost borrower: BorrowerId, ghost purpose: Purpose,
                              required: seq<DataSource>, now: Time)
      returns (r: Option<nat>)
      requires Valid() && Selects(State(), candidates, borrower, purpose)
      ensures r == CheckActive(State(), candidates, required, now)
      ensures r.Some? <==>
        exists id :: 0 <= id < |records| && Authorises(records[id], borrower, purpose, required, now)
    {
      CheckActiveMeaning(cfg, State(), candidates, borrower, purpose, required, now);
      var found := FirstUnexpired(State(), candidates, now);
      if found.None? {
        return None;
      }
      if !Covers(records[found.value], required) {
        return None;
      }
      r := found;
    }
  }
}
