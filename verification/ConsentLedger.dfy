/**
 The hash-chained consent ledger: what each operation does to the tables, as functions on values.

 Times are microseconds on one clock; a consent's id is its row position, rows being in `created_at`
 order; each event is one transaction.
 */
module ConsentLedger {
  import opened Wrappers

  type Time = int
  type BorrowerId = nat
  type Hash = nat

  datatype Purpose =
    CreditScoring | IdentityVerification | DataAggregation | ScoreSharingWithRe | RetrainingConsent

  datatype DataSource = AA | BUREAU | GEOSPATIAL | SHG_FPO {
    /** Position in string order. */
    function Rank(): nat {
      match this
      case AA => 0
      case BUREAU => 1
      case GEOSPATIAL => 2
      case SHG_FPO => 3
    }
  }

  datatype Status = Active | Expired | Revoked | Superseded

  datatype Action = LogCreated | LogVerified | LogRevoked | LogExpiredAuto | LogSuperseded

  datatype Consent = Consent(
    borrower: BorrowerId, purpose: Purpose, sources: seq<DataSource>,
    issuedAt: Time, expiresAt: Time, status: Status,
    revokedAt: Option<Time>, revocationReason: Option<string>,
    hashPrev: Hash, hashCurrent: Hash, createdBy: string)

  datatype AuditRow = AuditRow(consent: nat, action: Action, actor: string)

  /** A repayment record and its borrower; `consented_for_retraining` is the flag revocation clears. */
  datatype Repayment = Repayment(borrower: BorrowerId, retrainable: bool)

  datatype Ledger = Ledger(records: seq<Consent>, audit: seq<AuditRow>, repayments: seq<Repayment>)

  datatype CreateRequest = CreateRequest(
    borrower: BorrowerId, purpose: Purpose, sources: seq<DataSource>, durationDays: nat, createdBy: string)

  datatype RevokeRequest = RevokeRequest(reason: string, revokedBy: string)

  datatype Error = NotFound | AlreadyRevoked | CannotRevoke(status: Status)

  // ---------- hashing ----------

  /** What is hashed: `sources` is the sorted list. */
  datatype Payload =
    | Genesis(salt: string, borrower: BorrowerId)
    | Entry(borrower: BorrowerId, purpose: Purpose, sources: seq<DataSource>,
            issuedAt: Time, expiresAt: Time, status: Status, prev: Hash)

  datatype Config = Config(hash: Payload -> Hash, salt: string) {
    ghost predicate Injective() {
      forall p, q :: hash(p) == hash(q) ==> p == q
    }
  }

  function Insert(x: DataSource, s: seq<DataSource>): seq<DataSource> {
    if s == [] || x.Rank() <= s[0].Rank() then [x] + s else [s[0]] + Insert(x, s[1..])
  }

  /** Python's `sorted(data_sources)`. */
  function Sorted(s: seq<DataSource>): seq<DataSource> {
    if s == [] then [] else Insert(s[0], Sorted(s[1..]))
  }

  function GenesisHash(cfg: Config, b: BorrowerId): Hash {
    cfg.hash(Genesis(cfg.salt, b))
  }

  function ConsentHash(cfg: Config, b: BorrowerId, p: Purpose, sources: seq<DataSource>,
                       issuedAt: Time, expiresAt: Time, status: Status, prev: Hash): Hash
  {
    cfg.hash(Entry(b, p, Sorted(sources), issuedAt, expiresAt, status, prev))
  }

  /** The hash a record should carry: computed over its fields, with status ACTIVE. */
  function RecordHash(cfg: Config, c: Consent): Hash {
    ConsentHash(cfg, c.borrower, c.purpose, c.sources, c.issuedAt, c.expiresAt, Active, c.hashPrev)
  }

  /** The hash of the borrower's newest record, or the genesis hash. */
  function LatestHash(cfg: Config, records: seq<Consent>, b: BorrowerId): Hash {
    if records == [] then GenesisHash(cfg, b)
    else
      var last := records[|records| - 1];
      if last.borrower == b then last.hashCurrent else LatestHash(cfg, records[..|records| - 1], b)
  }

  // ---------- operations ----------

  /** Replaces row `id` and appends one audit row about it. */
  function Mark(l: Ledger, id: nat, c: Consent, action: Action, actor: string): Ledger
    requires id < |l.records|
  {
    l.(records := l.records[id := c], audit := l.audit + [AuditRow(id, action, actor)])
  }

  predicate IsCandidate(c: Consent, b: BorrowerId, p: Purpose) {
    c.borrower == b && c.purpose == p && c.status == Active
  }

  /** Supersedes the active records for a borrower and purpose among the first `n` rows. */
  function Supersede(l: Ledger, b: BorrowerId, p: Purpose, n: nat): (r: Ledger)
    requires n <= |l.records|
    ensures |r.records| == |l.records|
    ensures forall i :: n <= i < |l.records| ==> r.records[i] == l.records[i]
  {
    if n == 0 then l
    else
      var before := Supersede(l, b, p, n - 1);
      var c := l.records[n - 1];
      if IsCandidate(c, b, p) then Mark(before, n - 1, c.(status := Superseded), LogSuperseded, "system")
      else before
  }

  const DAY: Time := 86_400_000_000

  function NewConsent(cfg: Config, prev: Hash, req: CreateRequest, now: Time): Consent {
    var expiresAt := now + req.durationDays * DAY;
    Consent(req.borrower, req.purpose, req.sources, now, expiresAt, Active, None, None, prev,
            ConsentHash(cfg, req.borrower, req.purpose, req.sources, now, expiresAt, Active, prev), req.createdBy)
  }

  /** Appends a new active record and its CREATED row. */
  function Append(l: Ledger, c: Consent): Ledger {
    l.(records := l.records + [c], audit := l.audit + [AuditRow(|l.records|, LogCreated, c.createdBy)])
  }

  function Create(cfg: Config, l: Ledger, req: CreateRequest, now: Time): Ledger {
    var prev := LatestHash(cfg, l.records, req.borrower);
    Append(Supersede(l, req.borrower, req.purpose, |l.records|), NewConsent(cfg, prev, req, now))
  }

  /** The lazy expiry every read of a record performs first. */
  function Touch(l: Ledger, id: nat, now: Time): (r: Ledger)
    requires id < |l.records|
    ensures |r.records| == |l.records|
  {
    var c := l.records[id];
    if c.status == Active && c.expiresAt < now
    then Mark(l, id, c.(status := Expired), LogExpiredAuto, "system")
    else l
  }

  function WithdrawRepayments(repayments: seq<Repayment>, b: BorrowerId): (r: seq<Repayment>)
    ensures |r| == |repayments|
  {
    seq(|repayments|, i requires 0 <= i < |repayments| =>
      if repayments[i].borrower == b then repayments[i].(retrainable := false) else repayments[i])
  }

  function RevokeActive(l: Ledger, id: nat, req: RevokeRequest, now: Time): Ledger
    requires id < |l.records|
  {
    var c := l.records[id];
    Mark(l, id, c.(status := Revoked, revokedAt := Some(now), revocationReason := Some(req.reason)),
         LogRevoked, req.revokedBy)
      .(repayments := WithdrawRepayments(l.repayments, c.borrower))
  }

  /** Revocation, reading the clock once in the lazy expiry and once more for the revocation itself. */
  function Revoke(l: Ledger, id: nat, req: RevokeRequest, readAt: Time, now: Time): (Ledger, Result<nat, Error>) {
    if id >= |l.records| then (l, Failure(NotFound))
    else
      var touched := Touch(l, id, readAt);
      var status := touched.records[id].status;
      if status == Revoked then (touched, Failure(AlreadyRevoked))
      else if status != Active then (touched, Failure(CannotRevoke(status)))
      else (RevokeActive(touched, id, req, now), Success(id))
  }

  datatype Issue = NotActive(status: Status) | HasExpired | ChainBroken

  datatype Verification = Verification(
    isValid: bool, status: Status, hashChainValid: bool, remainingDays: nat, issues: seq<Issue>)

  /** The report on one record: its status, its expiry, and its own hash recomputed. */
  function Inspect(cfg: Config, c: Consent, now: Time): Verification {
    var chainValid := RecordHash(cfg, c) == c.hashCurrent;
    Verification(
      c.status == Active && !(c.expiresAt < now) && chainValid, c.status, chainValid,
      if c.expiresAt < now then 0 else (c.expiresAt - now) / DAY,
      (if c.status != Active then [NotActive(c.status)] else [])
      + (if c.expiresAt < now then [HasExpired] else [])
      + (if !chainValid then [ChainBroken] else []))
  }

  function Verify(cfg: Config, l: Ledger, id: nat, readAt: Time, now: Time): (Ledger, Result<Verification, Error>) {
    if id >= |l.records| then (l, Failure(NotFound))
    else
      var touched := Touch(l, id, readAt);
      (touched.(audit := touched.audit + [AuditRow(id, LogVerified, "system")]),
       Success(Inspect(cfg, touched.records[id], now)))
  }

  /** The purge's bulk expiry, which leaves no audit row. */
  function ExpireAll(l: Ledger, now: Time): (r: Ledger)
    ensures |r.records| == |l.records|
  {
    l.(records := seq(|l.records|, i requires 0 <= i < |l.records| =>
      if l.records[i].status == Active && l.records[i].expiresAt < now
      then l.records[i].(status := Expired)
      else l.records[i]))
  }

  // ---------- runs ----------

  datatype Event =
    | DoCreate(req: CreateRequest, now: Time)
    | DoGet(id: nat, now: Time)
    | DoRevoke(id: nat, revoke: RevokeRequest, readAt: Time, now: Time)
    | DoVerify(id: nat, readAt: Time, now: Time)
    | DoPurge(now: Time)

  /** One transaction: a call that raises is rolled back. */
  function Step(cfg: Config, l: Ledger, e: Event): Ledger {
    match e
    case DoCreate(req, now) => Create(cfg, l, req, now)
    case DoGet(id, now) => if id < |l.records| then Touch(l, id, now) else l
    case DoRevoke(id, req, readAt, now) =>
      var (after, r) := Revoke(l, id, req, readAt, now);
      if r.Success? then after else l
    case DoVerify(id, readAt, now) => Verify(cfg, l, id, readAt, now).0
    case DoPurge(now) => ExpireAll(l, now)
  }

  /** The ledger after `events`, from empty consent tables. */
  function Run(cfg: Config, repayments: seq<Repayment>, events: seq<Event>): Ledger {
    if events == [] then Ledger([], [], repayments)
    else Step(cfg, Run(cfg, repayments, events[..|events| - 1]), events[|events| - 1])
  }

  // ---------- authorisation ----------

  /** The first unexpired candidate, in whatever order the query returned them. */
  function FirstUnexpired(l: Ledger, candidates: seq<nat>, now: Time): (r: Option<nat>)
    requires forall id :: id in candidates ==> id < |l.records|
    ensures r.Some? ==> r.value in candidates && l.records[r.value].expiresAt > now
    ensures r.None? ==> forall id :: id in candidates ==> l.records[id].expiresAt <= now
  {
    if candidates == [] then None
    else
      assert candidates[0] in candidates && forall id :: id in candidates[1..] ==> id in candidates;
      if l.records[candidates[0]].expiresAt > now then Some(candidates[0])
    else FirstUnexpired(l, candidates[1..], now)
  }

  predicate Covers(c: Consent, required: seq<DataSource>) {
    forall s :: s in required ==> s in c.sources
  }

  function CheckActive(l: Ledger, candidates: seq<nat>, required: seq<DataSource>, now: Time): Option<nat>
    requires forall id :: id in candidates ==> id < |l.records|
  {
    var found := FirstUnexpired(l, candidates, now);
    if found.Some? && Covers(l.records[found.value], required) then found else None
  }
}
