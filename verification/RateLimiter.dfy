/** The sliding-window rate limiter: one queue of accepted request times per client. */
module RateLimiter {

  type Client = string

  const WINDOW: real := 60.0

  /** A request: exempt ones (health checks, or the bypass toggle) touch no state. */
  datatype Request = Request(client: Client, now: real, exempt: bool)

  /** A request with its answer. */
  datatype Served = Served(client: Client, now: real, exempt: bool, accepted: bool)

  // ---------- the queue ----------

  /** The queue with entries older than `cutoff` removed from the front. */
  function DropOld(window: seq<real>, cutoff: real): (r: seq<real>)
    ensures |r| <= |window|
  {
    if window != [] && window[0] < cutoff then DropOld(window[1..], cutoff) else window
  }

  // ---------- the specification ----------

  /** Times at which counted requests of a client were accepted, oldest first. */
  function AcceptedTimes(log: seq<Served>, c: Client): seq<real> {
    if log == [] then []
    else
      var earlier, last := AcceptedTimes(log[..|log| - 1], c), log[|log| - 1];
      if last.client == c && last.accepted && !last.exempt then earlier + [last.now] else earlier
  }

  /** How many accepted counted requests of a client fall in the closed interval [from, to]. */
  function AcceptedWithin(log: seq<Served>, c: Client, from: real, to: real): nat {
    if log == [] then 0
    else
      var last := log[|log| - 1];
      AcceptedWithin(log[..|log| - 1], c, from, to)
      + if last.client == c && last.accepted && !last.exempt && from <= last.now <= to then 1 else 0
  }

  /** The answer a full history calls for. */
  predicate Admits(log: seq<Served>, perMinute: int, r: Request) {
    r.exempt || AcceptedWithin(log, r.client, r.now - WINDOW, r.now) < perMinute
  }

  function Serve(log: seq<Served>, perMinute: int, r: Request): Served {
    Served(r.client, r.now, r.exempt, Admits(log, perMinute, r))
  }

  /** The answers to a run of requests. */
  function Run(perMinute: int, requests: seq<Request>): (log: seq<Served>)
    ensures |log| == |requests|
  {
    if requests == [] then []
    else
      var earlier := Run(perMinute, requests[..|requests| - 1]);
      earlier + [Serve(earlier, perMinute, requests[|requests| - 1])]
  }

  /** The clock never runs backwards. */
  predicate Monotone(log: seq<Served>) {
    forall i, j :: 0 <= i < j < |log| ==> log[i].now <= log[j].now
  }

  predicate NotBefore(log: seq<Served>, now: real) {
    forall i :: 0 <= i < |log| ==> log[i].now <= now
  }

  // ---------- queue facts ----------

  predicate NonDecreasing(s: seq<real>) {
    forall i, j :: 0 <= i < j < |s| ==> s[i] <= s[j]
  }

  /** Entries at or after `cutoff`. */
  function Recent(s: seq<real>, cutoff: real): seq<real> {
    if s == [] then []
    else
      var earlier, last := Recent(s[..|s| - 1], cutoff), s[|s| - 1];
      if last >= cutoff then earlier + [last] else earlier
  }

  lemma {:induction false} RecentCons(x: real, s: seq<real>, cutoff: real)
    ensures Recent([x] + s, cutoff) == (if x >= cutoff then [x] else []) + Recent(s, cutoff)
  {
    if s == [] {
      assert ([x] + s)[..0] == [];
    } else {
      assert ([x] + s)[..|s|] == [x] + s[..|s| - 1];
      RecentCons(x, s[..|s| - 1], cutoff);
    }
  }

  lemma {:induction false} RecentAll(s: seq<real>, cutoff: real)
    requires forall i :: 0 <= i < |s| ==> s[i] >= cutoff
    ensures Recent(s, cutoff) == s
  {
    if s != [] {
      RecentAll(s[..|s| - 1], cutoff);
    }
  }

  /** Popping from the front of an ordered queue is filtering it. */
  lemma {:induction false} DropOldIsRecent(s: seq<real>, cutoff: real)
    requires NonDecreasing(s)
    ensures DropOld(s, cutoff) == Recent(s, cutoff)
  {
    if s != [] {
      assert s == [s[0]] + s[1..];
      if s[0] < cutoff {
        DropOldIsRecent(s[1..], cutoff);
        RecentCons(s[0], s[1..], cutoff);
      } else {
        RecentAll(s, cutoff);
      }
    }
  }

  /** Filtering by an earlier cut-off first changes nothing. */
  lemma {:induction false} RecentTwice(s: seq<real>, early: real, late: real)
    requires early <= late
    ensures Recent(Recent(s, early), late) == Recent(s, late)
  {
    if s != [] {
      RecentTwice(s[..|s| - 1], early, late);
      var r := Recent(s[..|s| - 1], early);
      assert (r + [s[|s| - 1]])[..|r|] == r;
    }
  }

  lemma {:induction false} RecentKeepsOrder(s: seq<real>, cutoff: real)
    requires NonDecreasing(s)
    ensures NonDecreasing(Recent(s, cutoff))
    ensures forall i :: 0 <= i < |Recent(s, cutoff)| ==> Recent(s, cutoff)[i] in s
  {
    if s != [] {
      RecentKeepsOrder(s[..|s| - 1], cutoff);
    }
  }

  lemma {:induction false} AcceptedTimesOrder(log: seq<Served>, c: Client)
    requires Monotone(log)
    ensures NonDecreasing(AcceptedTimes(log, c))
    ensures forall now :: NotBefore(log, now) ==>
      forall i :: 0 <= i < |AcceptedTimes(log, c)| ==> AcceptedTimes(log, c)[i] <= now
  {
    if log != [] {
      AcceptedTimesOrder(log[..|log| - 1], c);
      assert NotBefore(log[..|log| - 1], log[|log| - 1].now);
    }
  }

  /** Counting in a window that ends now is filtering the accepted times. */
  lemma {:induction false} CountIsRecent(log: seq<Served>, c: Client, from: real, now: real)
    requires NotBefore(log, now)
    ensures AcceptedWithin(log, c, from, now) == |Recent(AcceptedTimes(log, c), from)|
  {
    if log != [] {
      CountIsRecent(log[..|log| - 1], c, from, now);
      var t := AcceptedTimes(log[..|log| - 1], c);
      assert (t + [log[|log| - 1].now])[..|t|] == t;
    }
  }

  /** A client's queue is its accepted times, filtered at the cut-off it was last pruned with. */
  ghost predicate QueueOk(log: seq<Served>, c: Client, queue: seq<real>, cutoff: real) {
    && queue == Recent(AcceptedTimes(log, c), cutoff)
    && log != [] && cutoff <= log[|log| - 1].now - WINDOW
  }

  /** Every queue is right, and clients without one have had nothing accepted. */
  ghost predicate QueuesOk(log: seq<Served>, hits: map<Client, seq<real>>, cutoffs: map<Client, real>) {
    && cutoffs.Keys == hits.Keys
    && (forall c :: c in hits ==> QueueOk(log, c, hits[c], cutoffs[c]))
    && (forall c :: c !in hits ==> AcceptedTimes(log, c) == [])
  }

  lemma {:induction false} ExemptStep(log: seq<Served>, hits: map<Client, seq<real>>, cutoffs: map<Client, real>,
                                      s: Served)
    requires QueuesOk(log, hits, cutoffs) && NotBefore(log, s.now) && s.exempt
    ensures QueuesOk(log + [s], hits, cutoffs)
  {
    hide QueueOk, AcceptedTimes, NotBefore;
    LogGrows(log, s);
    forall c | c in hits
      ensures QueueOk(log + [s], c, hits[c], cutoffs[c])
    {
      OtherQueue(log, s, c, hits[c], cutoffs[c]);
    }
  }

  lemma {:induction false} CountedStep(log: seq<Served>, hits: map<Client, seq<real>>, cutoffs: map<Client, real>,
                                       s: Served, queue: seq<real>, cutoff: real)
    requires QueuesOk(log, hits, cutoffs) && NotBefore(log, s.now) && !s.exempt
    requires QueueOk(log + [s], s.client, queue, cutoff)
    ensures QueuesOk(log + [s], hits[s.client := queue], cutoffs[s.client := cutoff])
  {
    hide QueueOk, AcceptedTimes, NotBefore;
    LogGrows(log, s);
    forall c | c in hits && c != s.client
      ensures QueueOk(log + [s], c, hits[c], cutoffs[c])
    {
      OtherQueue(log, s, c, hits[c], cutoffs[c]);
    }
  }

  /** The queue found for a client, pruned, is its history of the last 60 seconds. */
  lemma {:induction false} FoundWindow(log: seq<Served>, hits: map<Client, seq<real>>, cutoffs: map<Client, real>,
                                       c: Client, now: real)
    requires Monotone(log) && QueuesOk(log, hits, cutoffs) && NotBefore(log, now)
    ensures var pruned := DropOld(if c in hits then hits[c] else [], now - WINDOW);
      && pruned == Recent(AcceptedTimes(log, c), now - WINDOW)
      && |pruned| == AcceptedWithin(log, c, now - WINDOW, now)
  {
    hide Recent, AcceptedTimes, AcceptedWithin, DropOld, Monotone, NotBefore;
    EmptyRecent(now - WINDOW);
    NotBeforeLast(log, now);
    PrunedWindow(log, c, if c in hits then hits[c] else [], if c in hits then cutoffs[c] else now - WINDOW,
                 now - WINDOW, now);
  }

  /** An answer that is no acceptance of this client's leaves its queue right. */
  lemma {:induction false} OtherQueue(log: seq<Served>, s: Served, c: Client, queue: seq<real>, cutoff: real)
    requires QueueOk(log, c, queue, cutoff) && NotBefore(log, s.now)
    requires s.client != c || s.exempt
    ensures QueueOk(log + [s], c, queue, cutoff)
  {
    LogGrows(log, s);
  }

  /** The queue written back after a counted request is right. */
  lemma {:induction false} OwnQueue(log: seq<Served>, s: Served, pruned: seq<real>, cutoff: real)
    requires pruned == Recent(AcceptedTimes(log, s.client), cutoff) && cutoff == s.now - WINDOW && !s.exempt
    ensures QueueOk(log + [s], s.client, if s.accepted then pruned + [s.now] else pruned, cutoff)
  {
    LogGrows(log, s);
    RecentSnoc(AcceptedTimes(log, s.client), s.now, cutoff);
  }

  // ---------- the middleware ----------

  class RateLimitMiddleware {
    const perMinute: int
    var hits: map<Client, seq<real>>
    ghost var log: seq<Served>
    ghost var cutoffs: map<Client, real>

    /** Each client's queue is its accepted times, filtered at the cut-off it was last pruned with. */
    ghost predicate Valid()
      reads this
    {
      Monotone(log) && QueuesOk(log, hits, cutoffs)
    }

    constructor (perMinute: int)
      ensures Valid() && this.perMinute == perMinute && log == [] && hits == map[]
    {
      this.perMinute := perMinute;
      hits, log, cutoffs := map[], [], map[];
    }

    /** Pops expired times from the front. */
    static method Prune(before: seq<real>, cutoff: real) returns (window: seq<real>)
      ensures window == DropOld(before, cutoff)
    {
      window := before;
      while window != [] && window[0] < cutoff
        invariant DropOld(window, cutoff) == DropOld(before, cutoff)
        decreases |window|
      {
        window := window[1..];
      }
    }

    /** One request: prune, count, and either refuse or record it. */
    method Dispatch(r: Request) returns (accepted: bool)
      requires Valid() && NotBefore(log, r.now)
      modifies this
      ensures Valid()
      ensures log == old(log) + [Serve(old(log), perMinute, r)]
      ensures accepted == Admits(old(log), perMinute, r)
      ensures forall c :: c in old(hits) && c != r.client ==> c in hits && hits[c] == old(hits)[c]
      ensures hits.Keys == old(hits).Keys + if r.exempt then {} else {r.client}
    {
      hide Recent, AcceptedTimes, AcceptedWithin, DropOld, Monotone, NotBefore, QueuesOk, QueueOk;
      ghost var served := Serve(log, perMinute, r);
      LogGrows(log, served);
      if r.exempt {
        ExemptStep(log, hits, cutoffs, served);
        log := log + [served];
        return true;
      }
      var client := r.client;
      var window := if client in hits then hits[client] else [];
      var cutoff := r.now - WINDOW;
      FoundWindow(log, hits, cutoffs, client, r.now);
      window := Prune(window, cutoff);
      OwnQueue(log, served, window, cutoff);
      accepted := |window| < perMinute;
      if accepted {
        window := window + [r.now];
      }
      CountedStep(log, hits, cutoffs, served, window, cutoff);
      hits := hits[client := window];
      cutoffs := cutoffs[client := cutoff];
      log := log + [served];
    }
  }

  lemma {:induction false} NotBeforeLast(log: seq<Served>, now: real)
    requires NotBefore(log, now)
    ensures log != [] ==> log[|log| - 1].now <= now
  {
  }

  lemma {:induction false} EmptyRecent(cutoff: real)
    ensures Recent([], cutoff) == []
  {
  }

  lemma {:induction false} RecentSnoc(s: seq<real>, x: real, cutoff: real)
    ensures Recent(s + [x], cutoff) == if x >= cutoff then Recent(s, cutoff) + [x] else Recent(s, cutoff)
  {
    assert (s + [x])[..|s|] == s;
  }

  /** What one more answer does to every client's accepted times. */
  lemma {:induction false} LogGrows(log: seq<Served>, s: Served)
    ensures forall c :: AcceptedTimes(log + [s], c) == (if s.client == c && s.accepted && !s.exempt
                                                        then AcceptedTimes(log, c) + [s.now]
                                                        else AcceptedTimes(log, c))
    ensures Monotone(log) && NotBefore(log, s.now) ==> Monotone(log + [s])
  {
    assert (log + [s])[..|log|] == log;
  }

  /** The pruned queue is the history filtered to the last 60 seconds, so its length is the window count. */
  lemma {:induction false} PrunedWindow(log: seq<Served>, c: Client, window: seq<real>, pruned: real, cutoff: real,
                                        now: real)
    requires Monotone(log) && NotBefore(log, now) && pruned <= cutoff
    requires window == Recent(AcceptedTimes(log, c), pruned)
    ensures DropOld(window, cutoff) == Recent(AcceptedTimes(log, c), cutoff)
    ensures |DropOld(window, cutoff)| == AcceptedWithin(log, c, cutoff, now)
  {
    AcceptedTimesOrder(log, c);
    RecentKeepsOrder(AcceptedTimes(log, c), pruned);
    DropOldIsRecent(window, cutoff);
    RecentTwice(AcceptedTimes(log, c), pruned, cutoff);
    CountIsRecent(log, c, cutoff, now);
  }

  // ---------- whole runs ----------

  lemma {:induction false} RunSnoc(perMinute: int, requests: seq<Request>, r: Request)
    ensures Run(perMinute, requests + [r])
         == Run(perMinute, requests) + [Serve(Run(perMinute, requests), perMinute, r)]
  {
    assert (requests + [r])[..|requests|] == requests;
  }

  /** Serving a run of requests with a non-decreasing clock gives exactly the answers the full history calls
      for: the queues lose nothing that matters. */
  method ServeAll(perMinute: int, requests: seq<Request>) returns (answers: seq<bool>)
    requires forall i, j :: 0 <= i < j < |requests| ==> requests[i].now <= requests[j].now
    ensures |answers| == |requests|
    ensures forall i :: 0 <= i < |answers| ==> answers[i] == Run(perMinute, requests)[i].accepted
  {
    hide Run, Admits, RateLimitMiddleware.Valid;
    var m := new RateLimitMiddleware(perMinute);
    answers := [];
    var i := 0;
    EmptyRun(perMinute);
    while i < |requests|
      invariant 0 <= i <= |requests|
      invariant fresh(m) && m.perMinute == perMinute && m.Valid()
      invariant m.log == Run(perMinute, requests[..i])
      invariant forall k :: 0 <= k < i ==> m.log[k].now == requests[k].now
      invariant |answers| == i && forall k :: 0 <= k < i ==> answers[k] == m.log[k].accepted
    {
      RunSnoc(perMinute, requests[..i], requests[i]);
      assert requests[..i + 1] == requests[..i] + [requests[i]];
      var a := m.Dispatch(requests[i]);
      answers := answers + [a];
      i := i + 1;
    }
    assert requests[..i] == requests;
  }

  lemma {:induction false} EmptyRun(perMinute: int)
    ensures forall requests: seq<Request> :: |requests| == 0 ==> Run(perMinute, requests) == []
  {
  }

  /** A log every entry of which is the answer its own past calls for. */
  ghost predicate IsRun(log: seq<Served>, perMinute: int) {
    forall i: nat :: i < |log| ==> AnswerOk(log, perMinute, i)
  }

  predicate AnswerOk(log: seq<Served>, perMinute: int, i: nat)
    requires i < |log|
  {
    log[i].accepted == Admits(log[..i], perMinute, Request(log[i].client, log[i].now, log[i].exempt))
  }

  lemma {:induction false} RunIsRun(perMinute: int, requests: seq<Request>)
    ensures IsRun(Run(perMinute, requests), perMinute)
    ensures forall i :: 0 <= i < |requests| ==>
      Run(perMinute, requests)[i].now == requests[i].now && Run(perMinute, requests)[i].client == requests[i].client
      && Run(perMinute, requests)[i].exempt == requests[i].exempt
  {
    hide Admits, AcceptedWithin;
    if requests != [] {
      var earlier := requests[..|requests| - 1];
      RunIsRun(perMinute, earlier);
      var log := Run(perMinute, requests);
      forall i: nat | i < |log|
        ensures AnswerOk(log, perMinute, i)
      {
        assert log[..i] == Run(perMinute, earlier)[..i];
        if i < |log| - 1 {
          assert AnswerOk(Run(perMinute, earlier), perMinute, i);
        }
      }
    }
  }

  lemma {:induction false} CountSubinterval(log: seq<Served>, c: Client, from: real, to: real, from': real, to': real)
    requires from' <= from && to <= to'
    ensures AcceptedWithin(log, c, from, to) <= AcceptedWithin(log, c, from', to')
  {
    if log != [] {
      CountSubinterval(log[..|log| - 1], c, from, to, from', to');
    }
  }

  /** Over a whole run no closed interval of 60 seconds holds more than `perMinute` accepted counted requests of
      one client (and none at all when the limit is not positive). */
  lemma {:induction false} NoBurst(log: seq<Served>, perMinute: int, c: Client, from: real)
    requires Monotone(log) && IsRun(log, perMinute)
    ensures AcceptedWithin(log, c, from, from + WINDOW) <= if perMinute < 0 then 0 else perMinute
  {
    if log != [] {
      var n := |log| - 1;
      var earlier, last := log[..n], log[n];
      forall i: nat | i < n
        ensures AnswerOk(earlier, perMinute, i)
      {
        assert AnswerOk(log, perMinute, i);
        assert earlier[..i] == log[..i];
      }
      NoBurst(earlier, perMinute, c, from);
      assert AnswerOk(log, perMinute, n);
      if last.client == c && last.accepted && !last.exempt && from <= last.now <= from + WINDOW {
        CutAtNow(earlier, c, from, from + WINDOW, last.now);
        CountSubinterval(earlier, c, from, last.now, last.now - WINDOW, last.now);
      }
    }
  }

  lemma {:induction false} CutAtNow(log: seq<Served>, c: Client, from: real, to: real, now: real)
    requires NotBefore(log, now) && now <= to
    ensures AcceptedWithin(log, c, from, to) == AcceptedWithin(log, c, from, now)
  {
    if log != [] {
      CutAtNow(log[..|log| - 1], c, from, to, now);
    }
  }

  /** The same, of every run of requests with a non-decreasing clock. */
  lemma {:induction false} RunNoBurst(perMinute: int, requests: seq<Request>, c: Client, from: real)
    requires forall i, j :: 0 <= i < j < |requests| ==> requests[i].now <= requests[j].now
    ensures AcceptedWithin(Run(perMinute, requests), c, from, from + 60.0) <= if perMinute < 0 then 0 else perMinute
  {
    hide Run, AcceptedWithin;
    RunIsRun(perMinute, requests);
    NoBurst(Run(perMinute, requests), perMinute, c, from);
  }

  /** A counted request is refused only when exactly `perMinute` were accepted in the 60 seconds up to it. */
  lemma {:induction false} RefusalMeaning(log: seq<Served>, perMinute: int, r: Request)
    requires Monotone(log) && IsRun(log, perMinute) && NotBefore(log, r.now)
    ensures !Admits(log, perMinute, r) <==>
      !r.exempt && AcceptedWithin(log, r.client, r.now - WINDOW, r.now) == if perMinute < 0 then 0 else perMinute
  {
    NoBurst(log, perMinute, r.client, r.now - WINDOW);
  }

  /** The part of the history that used quota of client `c`. */
  function QuotaOf(log: seq<Served>, c: Client): seq<Served> {
    if log == [] then []
    else
      var earlier, last := QuotaOf(log[..|log| - 1], c), log[|log| - 1];
      if last.client == c && last.accepted && !last.exempt then earlier + [last] else earlier
  }

  lemma {:induction false} QuotaCounts(log: seq<Served>, c: Client, from: real, to: real)
    ensures AcceptedWithin(QuotaOf(log, c), c, from, to) == AcceptedWithin(log, c, from, to)
  {
    if log != [] {
      QuotaCounts(log[..|log| - 1], c, from, to);
      var q := QuotaOf(log[..|log| - 1], c);
      assert (q + [log[|log| - 1]])[..|q|] == q;
    }
  }

  /** Dropping everything else from the history changes no answer to the client: refusals are free. */
  lemma {:induction false} OnlyOwnQuotaMatters(log: seq<Served>, perMinute: int, r: Request)
    ensures Admits(log, perMinute, r) == Admits(QuotaOf(log, r.client), perMinute, r)
  {
    QuotaCounts(log, r.client, r.now - WINDOW, r.now);
  }

  // ---------- clients do not affect each other ----------

  function RequestsOf(requests: seq<Request>, c: Client): seq<Request> {
    if requests == [] then []
    else
      var earlier, last := RequestsOf(requests[..|requests| - 1], c), requests[|requests| - 1];
      if last.client == c then earlier + [last] else earlier
  }

  function AnswersOf(log: seq<Served>, c: Client): seq<Served> {
    if log == [] then []
    else
      var earlier, last := AnswersOf(log[..|log| - 1], c), log[|log| - 1];
      if last.client == c then earlier + [last] else earlier
  }

  lemma {:induction false} AnswersCount(log: seq<Served>, c: Client, from: real, to: real)
    ensures AcceptedWithin(AnswersOf(log, c), c, from, to) == AcceptedWithin(log, c, from, to)
  {
    if log != [] {
      AnswersCount(log[..|log| - 1], c, from, to);
      var a := AnswersOf(log[..|log| - 1], c);
      assert (a + [log[|log| - 1]])[..|a|] == a;
    }
  }

  lemma {:induction false} AnswersSnoc(log: seq<Served>, s: Served, c: Client)
    ensures AnswersOf(log + [s], c) == if s.client == c then AnswersOf(log, c) + [s] else AnswersOf(log, c)
  {
    assert (log + [s])[..|log|] == log;
  }

  /** Over every run the answers a client gets are those it would get if it were the only one. */
  lemma {:induction false} RunOfClientAlone(perMinute: int, requests: seq<Request>, c: Client)
    ensures AnswersOf(Run(perMinute, requests), c) == Run(perMinute, RequestsOf(requests, c))
  {
    if requests != [] {
      hide AcceptedWithin, AnswersOf;
      var n := |requests| - 1;
      var earlier, r := Run(perMinute, requests[..n]), requests[n];
      RunOfClientAlone(perMinute, requests[..n], c);
      AnswersSnoc(earlier, Serve(earlier, perMinute, r), c);
      if r.client == c {
        AnswersCount(earlier, c, r.now - WINDOW, r.now);
        RunSnoc(perMinute, RequestsOf(requests[..n], c), r);
      }
    }
  }
}
