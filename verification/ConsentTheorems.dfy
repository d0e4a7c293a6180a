/** What the ledger's invariant is for: tamper evidence, verification and authorisation. */
module ConsentTheorems {
  import opened Wrappers
  import opened Sequences
  import opened ConsentLedger
  import opened ConsentInvariants

  // ---------- the sorted list of sources ----------

  predicate Ascending(s: seq<DataSource>) {
    forall i, j :: 0 <= i < j < |s| ==> s[i].Rank() <= s[j].Rank()
  }

  lemma {:induction false} InsertMultiset(x: DataSource, s: seq<DataSource>)
    ensures multiset(Insert(x, s)) == multiset{x} + multiset(s)
  {
    if s != [] && s[0].Rank() < x.Rank() {
      InsertMultiset(x, s[1..]);
      assert s == [s[0]] + s[1..];
    }
  }

  predicate AtLeast(rank: nat, s: seq<DataSource>) {
    forall i :: 0 <= i < |s| ==> rank <= s[i].Rank()
  }

  lemma {:induction false} InsertAtLeast(x: DataSource, s: seq<DataSource>, rank: nat)
    requires AtLeast(rank, s) && rank <= x.Rank()
    ensures AtLeast(rank, Insert(x, s))
  {
    if s != [] && s[0].Rank() < x.Rank() {
      InsertAtLeast(x, s[1..], rank);
    }
  }

  lemma {:induction false} InsertAscending(x: DataSource, s: seq<DataSource>)
    requires Ascending(s)
    ensures Ascending(Insert(x, s))
  {
    if s != [] && s[0].Rank() < x.Rank() {
      InsertAscending(x, s[1..]);
      InsertAtLeast(x, s[1..], s[0].Rank());
    }
  }

  lemma {:induction false} SortedMeaning(s: seq<DataSource>)
    ensures multiset(Sorted(s)) == multiset(s) && Ascending(Sorted(s))
  {
    if s != [] {
      SortedMeaning(s[1..]);
      InsertMultiset(s[0], Sorted(s[1..]));
      InsertAscending(s[0], Sorted(s[1..]));
      assert s == [s[0]] + s[1..];
    }
  }

  /** The least element of an ascending list is no greater than any element of a list with the same contents. */
  lemma {:induction false} HeadIsLeast(s: seq<DataSource>, t: seq<DataSource>)
    requires Ascending(t) && s != [] && multiset(s) == multiset(t)
    ensures t != [] && t[0].Rank() <= s[0].Rank()
  {
    assert s[0] in multiset(t);
    var k :| 0 <= k < |t| && t[k] == s[0];
  }

  lemma {:induction false} SameHead(s: seq<DataSource>, t: seq<DataSource>)
    requires Ascending(s) && Ascending(t) && multiset(s) == multiset(t) && s != []
    ensures t != [] && s[0] == t[0] && Ascending(s[1..]) && Ascending(t[1..])
    ensures multiset(s[1..]) == multiset(t[1..])
  {
    HeadIsLeast(s, t);
    HeadIsLeast(t, s);
    TailMultiset(s);
    TailMultiset(t);
  }

  lemma {:induction false} AscendingUnique(s: seq<DataSource>, t: seq<DataSource>)
    requires Ascending(s) && Ascending(t) && multiset(s) == multiset(t)
    ensures s == t
  {
    hide Ascending;
    if s == [] {
      NothingLeft(t);
    } else {
      SameHead(s, t);
      AscendingUnique(s[1..], t[1..]);
      assert s == [s[0]] + s[1..] && t == [t[0]] + t[1..];
    }
  }

  /** Two source lists hash alike in every position exactly when they hold the same sources as often. */
  lemma {:induction false} SortedCanonical(s: seq<DataSource>, t: seq<DataSource>)
    ensures Sorted(s) == Sorted(t) <==> multiset(s) == multiset(t)
  {
    SortedMeaning(s);
    SortedMeaning(t);
    if multiset(s) == multiset(t) {
      AscendingUnique(Sorted(s), Sorted(t));
    }
  }

  // ---------- the head hash determines the history ----------

  /** A borrower's records, oldest first. */
  function Chain(records: seq<Consent>, b: BorrowerId): seq<Consent> {
    if records == [] then []
    else
      var last := records[|records| - 1];
      var earlier := Chain(records[..|records| - 1], b);
      if last.borrower == b then earlier + [last] else earlier
  }

  /** Agreement on every hashed field, the order of `sources` apart. */
  predicate SameHashed(c: Consent, d: Consent) {
    && c.borrower == d.borrower && c.purpose == d.purpose && multiset(c.sources) == multiset(d.sources)
    && c.issuedAt == d.issuedAt && c.expiresAt == d.expiresAt
    && c.hashPrev == d.hashPrev && c.hashCurrent == d.hashCurrent
  }

  predicate SameHistory(r: seq<Consent>, s: seq<Consent>) {
    |r| == |s| && forall k :: 0 <= k < |r| ==> SameHashed(r[k], s[k])
  }

  lemma {:induction false} LinkedPrefix(cfg: Config, records: seq<Consent>)
    requires Linked(cfg, records) && records != []
    ensures Linked(cfg, records[..|records| - 1])
  {
    var init := records[..|records| - 1];
    forall i: nat | i < |init|
      ensures LinkOk(cfg, init, i)
    {
      assert LinkOk(cfg, records, i);
      assert init[..i] == records[..i];
    }
  }

  /** One chain from the genesis hash: each record hangs off the hash of the one before and carries its own. */
  predicate IsChain(cfg: Config, chain: seq<Consent>, b: BorrowerId) {
    forall k: nat :: k < |chain| ==>
      && chain[k].borrower == b
      && chain[k].hashCurrent == RecordHash(cfg, chain[k])
      && chain[k].hashPrev == HeadOf(cfg, chain[..k], b)
  }

  function HeadOf(cfg: Config, chain: seq<Consent>, b: BorrowerId): Hash {
    if chain == [] then GenesisHash(cfg, b) else chain[|chain| - 1].hashCurrent
  }

  lemma {:induction false} ChainSnoc(cfg: Config, chain: seq<Consent>, c: Consent, b: BorrowerId)
    requires IsChain(cfg, chain, b)
    requires c.borrower == b && c.hashCurrent == RecordHash(cfg, c) && c.hashPrev == HeadOf(cfg, chain, b)
    ensures IsChain(cfg, chain + [c], b)
  {
    hide RecordHash, HeadOf;
    forall k: nat | k <= |chain|
      ensures (chain + [c])[..k] == chain[..k]
    {
    }
    assert chain[..|chain|] == chain;
  }

  /** A borrower's records form one chain from the genesis hash to the head hash. */
  lemma {:induction false} OneChain(cfg: Config, records: seq<Consent>, b: BorrowerId)
    requires Linked(cfg, records)
    ensures IsChain(cfg, Chain(records, b), b)
    ensures LatestHash(cfg, records, b) == HeadOf(cfg, Chain(records, b), b)
  {
    hide IsChain, RecordHash;
    if records == [] {
      EmptyChain(cfg, b);
    } else {
      LinkedPrefix(cfg, records);
      OneChain(cfg, records[..|records| - 1], b);
      assert LinkOk(cfg, records, |records| - 1);
      if records[|records| - 1].borrower == b {
        ChainSnoc(cfg, Chain(records[..|records| - 1], b), records[|records| - 1], b);
      }
    }
  }

  lemma {:induction false} EmptyChain(cfg: Config, b: BorrowerId)
    ensures IsChain(cfg, [], b)
  {
  }

  lemma {:induction false} EqualEntries(cfg: Config, c: Consent, d: Consent)
    requires cfg.Injective()
    requires c.hashCurrent == RecordHash(cfg, c) && d.hashCurrent == RecordHash(cfg, d)
    requires c.hashCurrent == d.hashCurrent
    ensures SameHashed(c, d)
  {
    assert Entry(c.borrower, c.purpose, Sorted(c.sources), c.issuedAt, c.expiresAt, Active, c.hashPrev)
        == Entry(d.borrower, d.purpose, Sorted(d.sources), d.issuedAt, d.expiresAt, Active, d.hashPrev);
    SortedCanonical(c.sources, d.sources);
  }

  lemma {:induction false} ChainsAgree(cfg: Config, r: seq<Consent>, s: seq<Consent>, b: BorrowerId)
    requires cfg.Injective() && Linked(cfg, r) && Linked(cfg, s)
    requires LatestHash(cfg, r, b) == LatestHash(cfg, s, b)
    ensures SameHistory(Chain(r, b), Chain(s, b))
    decreases |r| + |s|
  {
    if r != [] {
      assert LinkOk(cfg, r, |r| - 1);
    }
    if s != [] {
      assert LinkOk(cfg, s, |s| - 1);
    }
    if r != [] && r[|r| - 1].borrower != b {
      LinkedPrefix(cfg, r);
      ChainsAgree(cfg, r[..|r| - 1], s, b);
    } else if s != [] && s[|s| - 1].borrower != b {
      LinkedPrefix(cfg, s);
      ChainsAgree(cfg, r, s[..|s| - 1], b);
    } else if r != [] && s != [] {
      var c, d := r[|r| - 1], s[|s| - 1];
      EqualEntries(cfg, c, d);
      LinkedPrefix(cfg, r);
      LinkedPrefix(cfg, s);
      ChainsAgree(cfg, r[..|r| - 1], s[..|s| - 1], b);
    }
  }

  /** Tamper evidence: with an injective hash, two reachable ledgers in which a borrower has the same head
      hash hold the same history of that borrower. */
  lemma {:induction false} HeadHashDeterminesHistory(cfg: Config, rep1: seq<Repayment>, run1: seq<Event>,
                                  rep2: seq<Repayment>, run2: seq<Event>, b: BorrowerId)
    requires cfg.Injective()
    requires LatestHash(cfg, Run(cfg, rep1, run1).records, b) == LatestHash(cfg, Run(cfg, rep2, run2).records, b)
    ensures SameHistory(Chain(Run(cfg, rep1, run1).records, b), Chain(Run(cfg, rep2, run2).records, b))
  {
    ReachableInv(cfg, rep1, run1);
    ReachableInv(cfg, rep2, run2);
    ChainsAgree(cfg, Run(cfg, rep1, run1).records, Run(cfg, rep2, run2).records, b);
  }

  /** Editing one hashed field of a record, and nothing else, is always noticed by re-hashing it. */
  lemma {:induction false} TamperingIsNoticed(cfg: Config, c: Consent, d: Consent)
    requires cfg.Injective()
    requires c.hashCurrent == RecordHash(cfg, c) && d.hashCurrent == c.hashCurrent
    ensures RecordHash(cfg, d) == d.hashCurrent <==> SameHashed(c, d)
  {
    if RecordHash(cfg, d) == d.hashCurrent {
      EqualEntries(cfg, c, d);
    } else if SameHashed(c, d) {
      SortedCanonical(c.sources, d.sources);
    }
  }

  // ---------- verification ----------

  /** In a reachable ledger every known record's own hash re-verifies, and it verifies as valid exactly when
      it is still ACTIVE and not past its expiry; no issue is reported exactly then. */
  lemma {:induction false} VerifyMeaning(cfg: Config, l: Ledger, id: nat, readAt: Time, now: Time)
    requires Inv(cfg, l) && readAt <= now
    ensures var r := Verify(cfg, l, id, readAt, now).1;
      && (r.Success? <==> id < |l.records|)
      && (r.Success? ==>
            && r.value.hashChainValid
            && (r.value.isValid <==> l.records[id].status == Active && l.records[id].expiresAt >= now)
            && (r.value.isValid <==> r.value.issues == []))
  {
    if id < |l.records| {
      assert LinkOk(cfg, l.records, id);
    }
  }

  // ---------- authorisation ----------

  /** What the data-pull gate promises about a record. */
  predicate Authorises(c: Consent, b: BorrowerId, p: Purpose, required: seq<DataSource>, now: Time) {
    IsCandidate(c, b, p) && c.expiresAt > now && Covers(c, required)
  }

  /** `candidates` is some order of the rows the query selects. */
  ghost predicate Selects(l: Ledger, candidates: seq<nat>, b: BorrowerId, p: Purpose) {
    && (forall id :: id in candidates ==> id < |l.records|)
    && forall id: nat :: id < |l.records| ==> (id in candidates <==> IsCandidate(l.records[id], b, p))
  }

  /** The gate inspects only the first unexpired candidate, yet it answers with a record exactly when some
      record authorises the pull; that record authorises it, and verifies as valid at the same instant. */
  lemma {:induction false} CheckActiveMeaning(cfg: Config, l: Ledger, candidates: seq<nat>, b: BorrowerId, p: Purpose,
                           required: seq<DataSource>, now: Time)
    requires Inv(cfg, l) && Selects(l, candidates, b, p)
    ensures var r := CheckActive(l, candidates, required, now);
      && (r.Some? <==> exists id :: 0 <= id < |l.records| && Authorises(l.records[id], b, p, required, now))
      && (r.Some? ==>
            && r.value < |l.records|
            && Authorises(l.records[r.value], b, p, required, now)
            && Verify(cfg, l, r.value, now, now).1.Success?
            && Verify(cfg, l, r.value, now, now).1.value.isValid)
  {
    var found := FirstUnexpired(l, candidates, now);
    if found.Some? {
      VerifyMeaning(cfg, l, found.value, now, now);
      forall id | 0 <= id < |l.records| && Authorises(l.records[id], b, p, required, now)
        ensures id == found.value
      {
      }
    }
  }

  // ---------- what create and revoke do to authorisation ----------

  lemma {:induction false} SupersedeMeaning(l: Ledger, b: BorrowerId, p: Purpose, n: nat)
    requires n <= |l.records|
    ensures forall i :: 0 <= i < n ==>
      Supersede(l, b, p, n).records[i]
      == if IsCandidate(l.records[i], b, p) then l.records[i].(status := Superseded) else l.records[i]
  {
    if n > 0 {
      SupersedeMeaning(l, b, p, n - 1);
    }
  }

  /** Creating a consent replaces exactly the active ones of the same borrower and purpose, and from then on
      the gate answers with the new record, for the sources it names and until it expires. */
  lemma {:induction false} CreateTakesOver(cfg: Config, l: Ledger, req: CreateRequest, now: Time, candidates: seq<nat>,
                        required: seq<DataSource>, later: Time)
    requires Inv(cfg, l)
    requires Selects(Create(cfg, l, req, now), candidates, req.borrower, req.purpose)
    ensures var m := Create(cfg, l, req, now);
      && |m.records| == |l.records| + 1
      && (forall i :: 0 <= i < |l.records| ==>
            m.records[i] == if IsCandidate(l.records[i], req.borrower, req.purpose)
                            then l.records[i].(status := Superseded) else l.records[i])
      && CheckActive(m, candidates, required, later)
         == if later < now + req.durationDays * DAY && forall s :: s in required ==> s in req.sources
            then Some(|l.records|) else None
  {
    var m := Create(cfg, l, req, now);
    SupersedeMeaning(l, req.borrower, req.purpose, |l.records|);
    CreateKeepsInv(cfg, l, req, now);
    CheckActiveMeaning(cfg, m, candidates, req.borrower, req.purpose, required, later);
    var new_ := m.records[|l.records|];
    assert IsCandidate(new_, req.borrower, req.purpose);
    assert Authorises(new_, req.borrower, req.purpose, required, later)
       <==> later < now + req.durationDays * DAY && forall s :: s in required ==> s in req.sources;
  }

  /** Revocation succeeds exactly on a record that is ACTIVE and not yet expired, changes that record alone,
      clears the retraining flag of exactly that borrower's repayments, and closes the gate for its purpose. */
  lemma {:induction false} RevokeClosesGate(cfg: Config, l: Ledger, id: nat, req: RevokeRequest, readAt: Time,
                                            now: Time)
    requires Inv(cfg, l)
    ensures var (m, r) := Revoke(l, id, req, readAt, now);
      && (r.Success? <==> id < |l.records| && l.records[id].status == Active && l.records[id].expiresAt >= readAt)
      && (r.Success? ==>
            var c := l.records[id];
            && m.records == l.records[id := c.(status := Revoked, revokedAt := Some(now),
                                               revocationReason := Some(req.reason))]
            && (forall i :: 0 <= i < |l.repayments| ==>
                  m.repayments[i] == if l.repayments[i].borrower == c.borrower
                                     then l.repayments[i].(retrainable := false) else l.repayments[i])
            && forall required: seq<DataSource>, later: Time, i ::
                 0 <= i < |m.records| ==> !Authorises(m.records[i], c.borrower, c.purpose, required, later))
  {
  }

  // ---------- the gap in the trail ----------

  /** Not every expiry is in the trail: after a purge the record is EXPIRED with no EXPIRED_AUTO row, while a
      read at the same time would have left exactly one. */
  lemma {:induction false} PurgeExpiresSilently(cfg: Config, req: CreateRequest, now: Time, later: Time)
    requires later > now + req.durationDays * DAY
    ensures var purged := Run(cfg, [], [DoCreate(req, now), DoPurge(later)]);
      |purged.records| == 1 && purged.records[0].status == Expired && Rows(purged.audit, 0, LogExpiredAuto) == 0
    ensures var read := Run(cfg, [], [DoCreate(req, now), DoGet(0, later)]);
      |read.records| == 1 && read.records[0].status == Expired && Rows(read.audit, 0, LogExpiredAuto) == 1
  {
    var created := Create(cfg, Ledger([], [], []), req, now);
    assert [DoCreate(req, now)][..0] == [];
    assert Run(cfg, [], [DoCreate(req, now)]) == created;
    assert [DoCreate(req, now), DoPurge(later)][..1] == [DoCreate(req, now)];
    assert [DoCreate(req, now), DoGet(0, later)][..1] == [DoCreate(req, now)];
    var row := AuditRow(0, LogCreated, req.createdBy);
    assert created.audit == [row] && [row][..0] == [];
    assert Rows([row], 0, LogExpiredAuto) == 0;
    RowsSnoc([row], AuditRow(0, LogExpiredAuto, "system"), 0, LogExpiredAuto);
  }
}
