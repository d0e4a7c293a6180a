/** The retention worker: eager expiry of consents and anonymisation of borrowers left without one. */
module Retention {
  import opened ConsentLedger
  import opened ConsentInvariants
  import opened ConsentServices

  datatype Borrower = Borrower(name: string, phone: string, aadhaarRef: string)

  const ANONYMIZED: string := "ANONYMIZED"

  /** Borrower `b` with its identifying fields wiped; `tag` is the random suffix of the reference. */
  function Anonymise(b: Borrower, tag: string): Borrower {
    Borrower(ANONYMIZED, ANONYMIZED, "ANON-" + tag)
  }

  predicate HasRecord(records: seq<Consent>, b: BorrowerId) {
    exists i :: 0 <= i < |records| && records[i].borrower == b
  }

  predicate HasActive(records: seq<Consent>, b: BorrowerId) {
    exists i :: 0 <= i < |records| && records[i].borrower == b && records[i].status == Active
  }

  /** The borrowers the purge query selects, given the consents after expiry. */
  function PurgeQuery(records: seq<Consent>, borrowers: map<BorrowerId, Borrower>): set<BorrowerId> {
    set b | b in borrowers && HasRecord(records, b) && !HasActive(records, b) && borrowers[b].name != ANONYMIZED
  }

  function AnonymiseAll(borrowers: map<BorrowerId, Borrower>, chosen: set<BorrowerId>, tag: BorrowerId -> string)
    : map<BorrowerId, Borrower>
  {
    map b | b in borrowers :: if b in chosen then Anonymise(borrowers[b], tag(b)) else borrowers[b]
  }

  class DataRetentionWorker {
    const consents: ConsentService
    var borrowers: map<BorrowerId, Borrower>

    constructor (consents: ConsentService, borrowers: map<BorrowerId, Borrower>)
      ensures this.consents == consents && this.borrowers == borrowers
    {
      this.consents := consents;
      this.borrowers := borrowers;
    }

    /** Anonymises the chosen borrowers one by one, in any order. */
    method AnonymiseEach(chosen: set<BorrowerId>, tag: BorrowerId -> string) returns (purgedCount: nat)
      requires chosen <= borrowers.Keys
      modifies this`borrowers
      ensures purgedCount == |chosen| && borrowers == AnonymiseAll(old(borrowers), chosen, tag)
    {
      var todo := chosen;
      purgedCount := 0;
      while todo != {}
        invariant todo <= chosen
        invariant borrowers == AnonymiseAll(old(borrowers), chosen - todo, tag)
        invariant purgedCount == |chosen| - |todo|
        decreases |todo|
      {
        var b :| b in todo;
        borrowers := borrowers[b := Anonymise(borrowers[b], tag(b))];
        todo := todo - {b};
        purgedCount := purgedCount + 1;
      }
      assert chosen - todo == chosen;
    }

    /** Expires consents whose time is up, then anonymises every borrower the query returns. */
    method PurgeExpiredConsentData(now: Time, tag: BorrowerId -> string) returns (purgedCount: nat)
      requires consents.Valid()
      modifies this, consents
      ensures consents.Valid() && consents.State() == ExpireAll(old(consents.State()), now)
      ensures var chosen := PurgeQuery(consents.records, old(borrowers));
        purgedCount == |chosen| && borrowers == AnonymiseAll(old(borrowers), chosen, tag)
    {
      ExpireAllKeepsInv(consents.cfg, consents.State(), now);
      consents.records := ExpireAll(consents.State(), now).records;
      var chosen := PurgeQuery(consents.records, borrowers);
      purgedCount := AnonymiseEach(chosen, tag);
    }
  }

  // ---------- what a purge achieves ----------

  /** A borrower with consent records none of which is still in force at `now`. */
  predicate WithoutConsent(records: seq<Consent>, b: BorrowerId, now: Time) {
    && HasRecord(records, b)
    && !exists i :: 0 <= i < |records| && records[i].borrower == b && records[i].status == Active
                    && records[i].expiresAt >= now
  }

  lemma {:induction false} ExpiryMeaning(l: Ledger, b: BorrowerId, now: Time)
    ensures HasRecord(ExpireAll(l, now).records, b) <==> HasRecord(l.records, b)
    ensures HasRecord(l.records, b) && !HasActive(ExpireAll(l, now).records, b) <==> WithoutConsent(l.records, b, now)
  {
    var r := ExpireAll(l, now).records;
    forall i | 0 <= i < |r|
      ensures r[i].borrower == l.records[i].borrower
      ensures r[i].status == Active <==> l.records[i].status == Active && l.records[i].expiresAt >= now
    {
    }
  }

  /** After a purge nothing identifying is left of a borrower without a consent in force, who is named "ANONYMIZED";
      a borrower already named so, and every other borrower, is exactly as before; and the count is the number of
      borrowers newly anonymised. */
  lemma {:induction false} PurgeMeaning(l: Ledger, borrowers: map<BorrowerId, Borrower>, now: Time,
                                        tag: BorrowerId -> string)
    ensures var chosen := PurgeQuery(ExpireAll(l, now).records, borrowers);
      var after := AnonymiseAll(borrowers, chosen, tag);
      && after.Keys == borrowers.Keys
      && (forall b :: b in borrowers && WithoutConsent(l.records, b, now) ==> after[b].name == "ANONYMIZED")
      && (forall b :: b in borrowers && WithoutConsent(l.records, b, now) && borrowers[b].name != "ANONYMIZED" ==>
            after[b].phone == "ANONYMIZED" && after[b].aadhaarRef == "ANON-" + tag(b))
      && (forall b :: b in borrowers && borrowers[b].name == "ANONYMIZED" ==> after[b] == borrowers[b])
      && (forall b :: b in borrowers && !WithoutConsent(l.records, b, now) ==> after[b] == borrowers[b])
      && chosen == (set b | b in borrowers && after[b].name == ANONYMIZED && borrowers[b].name != ANONYMIZED)
  {
    forall b | b in borrowers
      ensures b in PurgeQuery(ExpireAll(l, now).records, borrowers)
         <==> WithoutConsent(l.records, b, now) && borrowers[b].name != ANONYMIZED
    {
      ExpiryMeaning(l, b, now);
    }
  }

  /** The two stores hold the same borrowers and agree on everybody but those who have no consent in force and are not
      anonymised yet in either. */
  ghost predicate SameButUnconsented(l: Ledger, x: map<BorrowerId, Borrower>, y: map<BorrowerId, Borrower>, now: Time) {
    && x.Keys == y.Keys
    && forall b :: b in x && x[b] != y[b] ==>
        WithoutConsent(l.records, b, now) && x[b].name != "ANONYMIZED" && y[b].name != "ANONYMIZED"
  }

  /** A purge forgets: whatever name, phone number and reference those borrowers had, it leaves the same store. */
  lemma {:induction false} PurgeForgets(l: Ledger, x: map<BorrowerId, Borrower>, y: map<BorrowerId, Borrower>,
                                        now: Time, tag: BorrowerId -> string)
    requires SameButUnconsented(l, x, y, now)
    ensures var records := ExpireAll(l, now).records;
      && AnonymiseAll(x, PurgeQuery(records, x), tag) == AnonymiseAll(y, PurgeQuery(records, y), tag)
      && |PurgeQuery(records, x)| == |PurgeQuery(records, y)|
  {
    var records := ExpireAll(l, now).records;
    forall b | b in x
      ensures b in PurgeQuery(records, x) <==> b in PurgeQuery(records, y)
      ensures x[b] != y[b] ==> b in PurgeQuery(records, x)
    {
      ExpiryMeaning(l, b, now);
    }
    assert PurgeQuery(records, x) == PurgeQuery(records, y);
  }

  /** A second purge at the same time finds nothing to expire and nobody to anonymise. */
  lemma {:induction false} SecondPurgeDoesNothing(l: Ledger, borrowers: map<BorrowerId, Borrower>, now: Time,
                                                  tag: BorrowerId -> string,
                               tag': BorrowerId -> string)
    ensures var l' := ExpireAll(l, now);
      var after := AnonymiseAll(borrowers, PurgeQuery(l'.records, borrowers), tag);
      && ExpireAll(l', now) == l'
      && PurgeQuery(ExpireAll(l', now).records, after) == {}
      && AnonymiseAll(after, PurgeQuery(ExpireAll(l', now).records, after), tag') == after
  {
    var l' := ExpireAll(l, now);
    assert ExpireAll(l', now).records == l'.records;
  }

  // ---------- lazy and eager expiry agree ----------

  /** Any sequence of reads at one instant, each expiring its record if due. */
  function TouchAll(l: Ledger, ids: seq<nat>, now: Time): (r: Ledger)
    ensures |r.records| == |l.records|
    decreases |ids|
  {
    if ids == [] then l
    else TouchAll(if ids[0] < |l.records| then Touch(l, ids[0], now) else l, ids[1..], now)
  }

  /** Reads that happen before the purge change neither the statuses it leaves nor whom it anonymises. */
  lemma {:induction false} LazyThenEager(l: Ledger, ids: seq<nat>, now: Time, borrowers: map<BorrowerId, Borrower>)
    ensures ExpireAll(TouchAll(l, ids, now), now).records == ExpireAll(l, now).records
    ensures PurgeQuery(ExpireAll(TouchAll(l, ids, now), now).records, borrowers)
         == PurgeQuery(ExpireAll(l, now).records, borrowers)
    decreases |ids|
  {
    if ids != [] {
      var touched := if ids[0] < |l.records| then Touch(l, ids[0], now) else l;
      assert ExpireAll(touched, now).records == ExpireAll(l, now).records;
      LazyThenEager(touched, ids[1..], now, borrowers);
    }
  }
}
