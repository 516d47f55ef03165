/**
  The sliding-window request limiter (core/middleware.py): an in-place tracker
  capped at MAX_TRACKED_CLIENTS keys, and its agreement with an unbounded log
  of everything each client was ever admitted.
*/
module RateLimiter {
  import opened TimeLogs

  const MAX_TRACKED_CLIENTS: nat := 10_000

  /** A request the limiter looks at: who sent it, and the clock when it arrived. */
  datatype Request = Request(key: Key, at: real)

  datatype Decision = Admit | Refuse(retryAfter: int)

  datatype Config = Config(maxRequests: nat, window: real) {
    ghost predicate Valid() { maxRequests >= 1 && window >= 0.0 }
  }

  /** `int(retry_after) + 1` with `retry_after = max(0.0, oldest + window - now)`. */
  function RetryAfter(oldest: real, c: Config, now: real): int {
    var wait := oldest + c.window - now;
    (if wait < 0.0 then 0.0 else wait).Floor + 1
  }

  /** What is still in the window of `r`'s client. */
  function LiveHits(t: Tracker, c: Config, r: Request): seq<real> {
    if r.key in t.logs then DropExpired(t.logs[r.key], r.at - c.window) else []
  }

  /** One `dispatch`, as a function of the tracker it finds. */
  function Dispatch(t: Tracker, c: Config, r: Request): (Tracker, Decision) {
    var hits := LiveHits(t, c, r);
    if hits == [] then
      (InsertCapped(if r.key in t.logs then Delete(t, r.key) else t, r.key, [r.at], MAX_TRACKED_CLIENTS), Admit)
    else if |hits| >= c.maxRequests then
      (MoveToEnd(t, r.key, hits), Refuse(RetryAfter(hits[0], c, r.at)))
    else
      (MoveToEnd(t, r.key, hits + [r.at]), Admit)
  }

  class RateLimitMiddleware {
    const config: Config
    var hits: Tracker

    constructor (config: Config)
      ensures this.config == config && hits == EMPTY
    {
      this.config := config;
      hits := EMPTY;
    }

    method HandleRequest(r: Request) returns (d: Decision)
      modifies this
      ensures hits == Dispatch(old(hits), config, r).0
      ensures d == Dispatch(old(hits), config, r).1
    {
      var log: seq<real> := [];
      if r.key in hits.logs {
        log := PopExpired(hits.logs[r.key], r.at - config.window);
        if log == [] {
          hits := Delete(hits, r.key);
        }
      }
      if log != [] {
        hits := MoveToEnd(hits, r.key, log);
        if |log| >= config.maxRequests {
          return Refuse(RetryAfter(log[0], config, r.at));
        }
        hits := hits.(logs := hits.logs[r.key := log + [r.at]]);
      } else {
        hits := InsertCapped(hits, r.key, [r.at], MAX_TRACKED_CLIENTS);
      }
      d := Admit;
    }
  }

  // ----- runs -----

  function Front(trace: seq<Request>): seq<Request>
    requires trace != []
  {
    trace[..|trace| - 1]
  }

  function Last(trace: seq<Request>): Request
    requires trace != []
  {
    trace[|trace| - 1]
  }

  /** The tracker after serving `trace`, oldest request first, starting from `t`. */
  function Serve(t: Tracker, trace: seq<Request>, c: Config): Tracker {
    if trace == [] then t else Dispatch(Serve(t, Front(trace), c), c, Last(trace)).0
  }

  function Run(trace: seq<Request>, c: Config): Tracker {
    Serve(EMPTY, trace, c)
  }

  /** The clock never goes back, and has not passed `now` yet. */
  predicate ClockedBy(trace: seq<Request>, now: real) {
    trace == [] || (Last(trace).at <= now && ClockedBy(Front(trace), Last(trace).at))
  }

  /**
    The reference: every admission of `k`, with nothing pruned and no cap. A
    request goes through unless the closed window behind it is already full.
  */
  function Admissions(trace: seq<Request>, c: Config, k: Key): seq<real> {
    if trace == [] then []
    else
      var prior, r := Admissions(Front(trace), c, k), Last(trace);
      if r.key == k && CountIn(prior, r.at - c.window, r.at) < c.maxRequests then prior + [r.at] else prior
  }

  predicate Seen(trace: seq<Request>, k: Key) {
    trace != [] && (Last(trace).key == k || Seen(Front(trace), k))
  }

  function LastSeen(trace: seq<Request>, k: Key): real
    requires Seen(trace, k)
  {
    if Last(trace).key == k then Last(trace).at else LastSeen(Front(trace), k)
  }

  /** Every key of a trace once, in the order of its latest request. */
  function Recency(trace: seq<Request>): seq<Key> {
    if trace == [] then [] else Without(Recency(Front(trace)), Last(trace).key) + [Last(trace).key]
  }

  /** The distinct other keys seen since `k`'s latest request. */
  function OthersSince(trace: seq<Request>, k: Key): set<Key> {
    if trace == [] || Last(trace).key == k then {}
    else OthersSince(Front(trace), k) + {Last(trace).key}
  }

  /** `k` never meets MAX_TRACKED_CLIENTS distinct other keys without a request of its own. */
  predicate KeepsItsPlace(trace: seq<Request>, k: Key) {
    trace == [] ||
    ((Seen(trace, k) ==> |OthersSince(trace, k)| < MAX_TRACKED_CLIENTS) && KeepsItsPlace(Front(trace), k))
  }

  function Suffix(s: seq<Key>, n: nat): seq<Key> {
    if |s| <= n then s else s[|s| - n..]
  }

  // ----- what every stored deque satisfies -----

  ghost predicate LogKept(log: seq<real>, c: Config, now: real) {
    1 <= |log| <= c.maxRequests && Sorted(log) && log[|log| - 1] <= now
  }

  ghost predicate WellKept(t: Tracker, c: Config, now: real) {
    && t.Valid()
    && |t.order| <= MAX_TRACKED_CLIENTS
    && forall k :: k in t.logs ==> LogKept(t.logs[k], c, now)
  }

  lemma DeleteKeepsValid(t: Tracker, k: Key)
    requires t.Valid()
    ensures Delete(t, k).Valid() && |Delete(t, k).order| <= |t.order|
  {
    WithoutDistinct(t.order, k);
    WithoutMembers(t.order, k);
  }

  lemma MoveKeepsValid(t: Tracker, k: Key, log: seq<real>)
    requires t.Valid() && k in t.logs
    ensures MoveToEnd(t, k, log).Valid() && |MoveToEnd(t, k, log).order| == |t.order|
  {
    WithoutDistinct(t.order, k);
    WithoutMembers(t.order, k);
    DistinctAppend(Without(t.order, k), [k]);
  }

  lemma InsertKeepsValid(t: Tracker, k: Key, log: seq<real>, cap: nat)
    requires t.Valid() && k !in t.logs && 1 <= cap && |t.order| <= cap
    ensures InsertCapped(t, k, log, cap).Valid()
    ensures |InsertCapped(t, k, log, cap).order| <= cap
  {
    DistinctAppend(t.order, [k]);
    var order := t.order + [k];
    assert order == [order[0]] + order[1..];
    assert forall x :: x in order <==> x in t.order || x == k;
  }

  lemma PrunedLogKept(log: seq<real>, c: Config, r: Request)
    requires LogKept(log, c, r.at)
    ensures var live := DropExpired(log, r.at - c.window);
            live != [] ==> LogKept(live, c, r.at) && (|live| < c.maxRequests ==> LogKept(live + [r.at], c, r.at))
  {
    DropExpiredSuffix(log, r.at - c.window);
    var live := DropExpired(log, r.at - c.window);
    SortedSuffix(log, |log| - |live|);
    assert (live + [r.at])[..|live|] == live;
  }

  lemma StepWellKept(t: Tracker, c: Config, r: Request)
    requires c.Valid() && WellKept(t, c, r.at)
    ensures WellKept(Dispatch(t, c, r).0, c, r.at)
  {
    var live := LiveHits(t, c, r);
    if live != [] {
      PrunedLogKept(t.logs[r.key], c, r);
      MoveWellKept(t, c, r, if |live| < c.maxRequests then live + [r.at] else live);
    } else if r.key in t.logs {
      DeleteKeepsValid(t, r.key);
      InsertWellKept(Delete(t, r.key), c, r);
    } else {
      InsertWellKept(t, c, r);
    }
  }

  lemma MoveWellKept(t: Tracker, c: Config, r: Request, log: seq<real>)
    requires WellKept(t, c, r.at) && r.key in t.logs && LogKept(log, c, r.at)
    ensures WellKept(MoveToEnd(t, r.key, log), c, r.at)
  {
    MoveKeepsValid(t, r.key, log);
  }

  lemma InsertWellKept(t: Tracker, c: Config, r: Request)
    requires c.Valid() && WellKept(t, c, r.at) && r.key !in t.logs
    ensures WellKept(InsertCapped(t, r.key, [r.at], MAX_TRACKED_CLIENTS), c, r.at)
  {
    InsertKeepsValid(t, r.key, [r.at], MAX_TRACKED_CLIENTS);
  }

  /** Over every clocked trace: size within the cap, and every deque nonempty, sorted and within the limit. */
  lemma {:induction false} RunWellKept(trace: seq<Request>, c: Config, now: real)
    requires c.Valid() && ClockedBy(trace, now)
    ensures WellKept(Run(trace, c), c, now)
  {
    if trace != [] {
      RunWellKept(Front(trace), c, Last(trace).at);
      StepWellKept(Run(Front(trace), c), c, Last(trace));
    }
  }

  // ----- the cap is least-recently-seen eviction -----

  lemma {:induction false} RecencyDistinct(trace: seq<Request>)
    ensures Distinct(Recency(trace))
    ensures forall k :: k in Recency(trace) <==> Seen(trace, k)
  {
    if trace != [] {
      var s, k := Recency(Front(trace)), Last(trace).key;
      RecencyDistinct(Front(trace));
      WithoutDistinct(s, k);
      WithoutMembers(s, k);
      DistinctAppend(Without(s, k), [k]);
    }
  }

  lemma SuffixIsBack(front: seq<Key>, back: seq<Key>, n: nat)
    requires |back| == n || (front == [] && |back| <= n)
    ensures Suffix(front + back, n) == back
  {
    assert (front + back)[|front|..] == back;
  }

  function Cut(s: seq<Key>, n: nat): nat {
    if |s| <= n then 0 else |s| - n
  }

  lemma SuffixTouched(s: seq<Key>, n: nat, k: Key)
    requires Distinct(s) && k in Suffix(s, n)
    ensures Without(Suffix(s, n), k) + [k] == Suffix(Without(s, k) + [k], n)
  {
    var front, back := s[..Cut(s, n)], s[Cut(s, n)..];
    assert s == front + back && back == Suffix(s, n);
    DistinctAppend(front, back);
    WithoutAppend(front, back, k);
    WithoutAbsent(front, k);
    WithoutDistinct(back, k);
    SuffixIsBack(front, Without(back, k) + [k], n);
    assert front + Without(back, k) + [k] == front + (Without(back, k) + [k]);
  }

  lemma SuffixExtended(s: seq<Key>, n: nat, k: Key)
    requires 1 <= n && k !in Suffix(s, n)
    ensures Suffix(Suffix(s, n) + [k], n) == Suffix(Without(s, k) + [k], n)
  {
    var front, back := s[..Cut(s, n)], s[Cut(s, n)..];
    assert s == front + back && back == Suffix(s, n);
    WithoutAppend(front, back, k);
    WithoutAbsent(back, k);
    SuffixDropsOldest(Without(front, k), back, n, k);
    SuffixDropsOldest([], back, n, k);
    assert [] + back == back;
  }

  lemma SuffixDropsOldest(front: seq<Key>, back: seq<Key>, n: nat, k: Key)
    requires 1 <= n && (|back| == n || (front == [] && |back| <= n))
    ensures Suffix(front + back + [k], n) == if |back| == n then back[1..] + [k] else back + [k]
  {
    if |back| == n {
      assert front + back + [k] == (front + [back[0]]) + (back[1..] + [k]);
      SuffixIsBack(front + [back[0]], back[1..] + [k], n);
    } else {
      assert front + back + [k] == back + [k];
    }
  }

  lemma StepOrder(t: Tracker, c: Config, r: Request)
    requires t.Valid()
    ensures r.key in t.logs && |t.order| <= MAX_TRACKED_CLIENTS ==>
              Dispatch(t, c, r).0.order == Without(t.order, r.key) + [r.key]
    ensures r.key !in t.logs && |t.order| <= MAX_TRACKED_CLIENTS ==>
              Dispatch(t, c, r).0.order == Suffix(t.order + [r.key], MAX_TRACKED_CLIENTS)
  {
    WithoutDistinct(t.order, r.key);
  }

  /** The tracker's order is exactly the most recently seen MAX_TRACKED_CLIENTS keys, in last-seen order. */
  lemma {:induction false} OrderIsLastSeen(trace: seq<Request>, c: Config, now: real)
    requires c.Valid() && ClockedBy(trace, now)
    ensures Run(trace, c).order == Suffix(Recency(trace), MAX_TRACKED_CLIENTS)
  {
    if trace != [] {
      var p, r := Front(trace), Last(trace);
      OrderIsLastSeen(p, c, r.at);
      RecencyDistinct(p);
      RunWellKept(p, c, r.at);
      StepOrder(Run(p, c), c, r);
      if r.key in Run(p, c).logs {
        SuffixTouched(Recency(p), MAX_TRACKED_CLIENTS, r.key);
      } else {
        SuffixExtended(Recency(p), MAX_TRACKED_CLIENTS, r.key);
      }
    }
  }

  /** The last-seen list splits at `k` into what came before and exactly the others seen since. */
  lemma {:induction false} RecencySplitsAt(trace: seq<Request>, k: Key) returns (older: seq<Key>, newer: seq<Key>)
    requires Seen(trace, k)
    ensures Recency(trace) == older + [k] + newer
    ensures forall x :: x in newer <==> x in OthersSince(trace, k)
    ensures |newer| == |OthersSince(trace, k)|
  {
    var x := Last(trace).key;
    if x == k {
      older, newer := Without(Recency(Front(trace)), k), [];
      assert older + [k] + newer == Recency(trace);
    } else {
      var a, b := RecencySplitsAt(Front(trace), k);
      older, newer := Without(a, x), Without(b, x) + [x];
      RecencyDistinct(Front(trace));
      MovePastSplit(a, k, b, x);
      GrowByOne(OthersSince(Front(trace), k), x);
    }
  }

  lemma GrowByOne(s: set<Key>, x: Key)
    ensures |s + {x}| == if x in s then |s| else |s| + 1
  {
    if x in s {
      assert s + {x} == s;
    }
  }

  lemma MovePastSplit(a: seq<Key>, k: Key, b: seq<Key>, x: Key)
    requires x != k && Distinct(a + [k] + b)
    ensures Without(a + [k] + b, x) + [x] == Without(a, x) + [k] + (Without(b, x) + [x])
    ensures forall y :: y in Without(b, x) + [x] <==> y in b || y == x
    ensures |Without(b, x) + [x]| == if x in b then |b| else |b| + 1
  {
    WithoutAppend(a + [k], b, x);
    WithoutAppend(a, [k], x);
    WithoutAbsent([k], x);
    DistinctAppend(a + [k], b);
    WithoutDistinct(b, x);
    WithoutMembers(b, x);
  }

  lemma FarFromSuffix(front: seq<Key>, newer: seq<Key>, k: Key, n: nat)
    requires |newer| >= n && k !in newer
    ensures k !in Suffix(front + newer, n)
  {
    var cut := |newer| - n;
    assert front + newer == (front + newer[..cut]) + newer[cut..];
    SuffixIsBack(front + newer[..cut], newer[cut..], n);
  }

  lemma NearInSuffix(s: seq<Key>, i: nat, n: nat)
    requires |s| - n <= i < |s|
    ensures s[i] in Suffix(s, n)
  {
    if |s| > n {
      assert s[|s| - n..][i - (|s| - n)] == s[i];
    }
  }

  lemma InSuffixIffNear(older: seq<Key>, k: Key, newer: seq<Key>, n: nat)
    requires Distinct(older + [k] + newer)
    ensures k in Suffix(older + [k] + newer, n) <==> |newer| < n
  {
    DistinctAppend(older + [k], newer);
    assert k in older + [k];
    if |newer| >= n {
      FarFromSuffix(older + [k], newer, k, n);
    } else {
      assert (older + [k] + newer)[|older|] == k;
      NearInSuffix(older + [k] + newer, |older|, n);
    }
  }

  /**
    Exactly which clients are tracked: those seen, with fewer than
    MAX_TRACKED_CLIENTS distinct other keys since their own latest request.
  */
  lemma TrackedIffRecent(trace: seq<Request>, c: Config, k: Key, now: real)
    requires c.Valid() && ClockedBy(trace, now)
    ensures k in Run(trace, c).logs <==> Seen(trace, k) && |OthersSince(trace, k)| < 10_000
  {
    OrderIsLastSeen(trace, c, now);
    RecencyDistinct(trace);
    RunWellKept(trace, c, now);
    if Seen(trace, k) {
      var older, newer := RecencySplitsAt(trace, k);
      InSuffixIffNear(older, k, newer, MAX_TRACKED_CLIENTS);
    }
  }

  // ----- agreement with the unbounded log -----

  lemma {:induction false} AdmissionsSorted(trace: seq<Request>, c: Config, k: Key, now: real)
    requires ClockedBy(trace, now)
    ensures var log := Admissions(trace, c, k);
            Sorted(log) && (log != [] ==> log[|log| - 1] <= now) && (!Seen(trace, k) ==> log == [])
  {
    if trace != [] {
      var prior, r := Admissions(Front(trace), c, k), Last(trace);
      AdmissionsSorted(Front(trace), c, k, r.at);
      assert (prior + [r.at])[..|prior|] == prior;
    }
  }

  /** What the tracker holds for `k` is the live end of its unbounded log. */
  ghost predicate HoldsLiveEnd(trace: seq<Request>, c: Config, k: Key) {
    && (k in Run(trace, c).logs <==> Seen(trace, k))
    && (Seen(trace, k) ==>
          Run(trace, c).logs[k] == DropExpired(Admissions(trace, c, k), LastSeen(trace, k) - c.window))
  }

  lemma {:induction false} LastSeenBefore(trace: seq<Request>, k: Key, now: real)
    requires Seen(trace, k) && ClockedBy(trace, now)
    ensures LastSeen(trace, k) <= now
  {
    if Last(trace).key != k {
      LastSeenBefore(Front(trace), k, Last(trace).at);
    }
  }

  lemma OthersLeaveLogAlone(t: Tracker, c: Config, r: Request, k: Key)
    requires r.key != k && k in Dispatch(t, c, r).0.logs
    ensures k in t.logs && Dispatch(t, c, r).0.logs[k] == t.logs[k]
  {}

  lemma LiveHitsAreLiveAdmissions(p: seq<Request>, c: Config, r: Request)
    requires ClockedBy(p, r.at) && HoldsLiveEnd(p, c, r.key)
    ensures LiveHits(Run(p, c), c, r) == DropExpired(Admissions(p, c, r.key), r.at - c.window)
    ensures |LiveHits(Run(p, c), c, r)| == CountIn(Admissions(p, c, r.key), r.at - c.window, r.at)
  {
    var full := Admissions(p, c, r.key);
    AdmissionsSorted(p, c, r.key, r.at);
    DropExpiredCounts(full, r.at - c.window, r.at);
    if Seen(p, r.key) {
      LastSeenBefore(p, r.key, r.at);
      DropExpiredTwice(full, LastSeen(p, r.key) - c.window, r.at - c.window);
    }
  }

  lemma DispatchStores(t: Tracker, c: Config, r: Request)
    requires c.Valid() && r.key in Dispatch(t, c, r).0.logs
    ensures var live := LiveHits(t, c, r);
            Dispatch(t, c, r).0.logs[r.key] == if |live| < c.maxRequests then live + [r.at] else live
  {}

  lemma {:induction false} OwnRequestKeepsLiveEnd(trace: seq<Request>, c: Config, now: real)
    requires trace != [] && c.Valid() && ClockedBy(trace, now)
    requires HoldsLiveEnd(Front(trace), c, Last(trace).key)
    requires Last(trace).key in Run(trace, c).logs
    ensures HoldsLiveEnd(trace, c, Last(trace).key)
  {
    var p, r := Front(trace), Last(trace);
    LiveHitsAreLiveAdmissions(p, c, r);
    AdmissionsStep(trace, c);
    StoresLiveEnd(Run(p, c), c, r, Admissions(p, c, r.key));
  }

  /** Serving a request whose live hits are the live end of `full` stores the live end of `full` with its admission. */
  lemma StoresLiveEnd(t: Tracker, c: Config, r: Request, full: seq<real>)
    requires c.Valid() && r.key in Dispatch(t, c, r).0.logs
    requires LiveHits(t, c, r) == DropExpired(full, r.at - c.window)
    ensures Dispatch(t, c, r).0.logs[r.key] ==
              DropExpired(if |LiveHits(t, c, r)| < c.maxRequests then full + [r.at] else full, r.at - c.window)
  {
    DispatchStores(t, c, r);
    DropExpiredAppend(full, r.at, r.at - c.window);
  }

  lemma {:induction false} AdmissionsStep(trace: seq<Request>, c: Config)
    requires trace != []
    ensures var p, r := Front(trace), Last(trace);
            var full := Admissions(p, c, r.key);
            && Run(trace, c) == Dispatch(Run(p, c), c, r).0
            && Seen(trace, r.key) && LastSeen(trace, r.key) == r.at
            && Admissions(trace, c, r.key) == (if CountIn(full, r.at - c.window, r.at) < c.maxRequests then full + [r.at] else full)
  {}

  lemma {:induction false} StoredIsLiveEnd(trace: seq<Request>, c: Config, k: Key, now: real)
    requires c.Valid() && ClockedBy(trace, now) && KeepsItsPlace(trace, k)
    ensures HoldsLiveEnd(trace, c, k)
  {
    TrackedIffRecent(trace, c, k, now);
    if Seen(trace, k) {
      var p, r := Front(trace), Last(trace);
      StoredIsLiveEnd(p, c, k, r.at);
      if r.key == k {
        OwnRequestKeepsLiveEnd(trace, c, now);
      } else {
        OthersLeaveLogAlone(Run(p, c), c, r, k);
      }
    }
  }

  /** No closed interval one window long ever holds more than `maxRequests` admissions. */
  lemma {:induction false} WindowNeverOverfull(trace: seq<Request>, c: Config, k: Key, lo: real, hi: real, now: real)
    requires c.Valid() && ClockedBy(trace, now) && hi <= lo + c.window
    ensures CountIn(Admissions(trace, c, k), lo, hi) <= c.maxRequests
  {
    if trace != [] {
      var prior, r := Admissions(Front(trace), c, k), Last(trace);
      WindowNeverOverfull(Front(trace), c, k, lo, hi, r.at);
      if Admissions(trace, c, k) != prior && lo <= r.at <= hi {
        AdmissionsSorted(Front(trace), c, k, r.at);
        CountUpTo(prior, lo, hi, r.at);
        CountMonotone(prior, lo, r.at, r.at - c.window, r.at);
      }
    }
  }

  /**
    Main result. Whoever keeps its place is refused exactly when the unbounded
    log holds `maxRequests` of its admissions in the closed window behind it.
  */
  lemma CappedDecidesAsUnbounded(trace: seq<Request>, c: Config, r: Request)
    requires c.Valid() && ClockedBy(trace, r.at) && KeepsItsPlace(trace, r.key)
    ensures Dispatch(Run(trace, c), c, r).1.Refuse? <==>
              CountIn(Admissions(trace, c, r.key), r.at - c.window, r.at) == c.maxRequests
  {
    StoredIsLiveEnd(trace, c, r.key, r.at);
    LiveHitsAreLiveAdmissions(trace, c, r);
    WindowNeverOverfull(trace, c, r.key, r.at - c.window, r.at, r.at);
  }

  /** The admissions the capped limiter actually grants to `k`. */
  function Granted(trace: seq<Request>, c: Config, k: Key): seq<real> {
    if trace == [] then []
    else
      var prior, r := Granted(Front(trace), c, k), Last(trace);
      if r.key == k && Dispatch(Run(Front(trace), c), c, r).1.Admit? then prior + [r.at] else prior
  }

  /** So a client that is never evicted gets at most `maxRequests` through in any closed window. */
  lemma {:induction false} GrantedWithinLimit(trace: seq<Request>, c: Config, k: Key, lo: real, hi: real, now: real)
    requires c.Valid() && ClockedBy(trace, now) && KeepsItsPlace(trace, k) && hi <= lo + c.window
    ensures Granted(trace, c, k) == Admissions(trace, c, k)
    ensures CountIn(Granted(trace, c, k), lo, hi) <= c.maxRequests
  {
    WindowNeverOverfull(trace, c, k, lo, hi, now);
    if trace != [] {
      var p, r := Front(trace), Last(trace);
      GrantedWithinLimit(p, c, k, lo, hi, r.at);
      if r.key == k {
        CappedDecidesAsUnbounded(p, c, r);
        WindowNeverOverfull(p, c, k, r.at - c.window, r.at, r.at);
      }
    }
  }

  // ----- Retry-After -----

  lemma {:induction false} OthersKeepOrEvict(t: Tracker, rest: seq<Request>, c: Config, k: Key)
    requires !Seen(rest, k) && k in Serve(t, rest, c).logs
    ensures k in t.logs && Serve(t, rest, c).logs[k] == t.logs[k]
  {
    if rest != [] {
      OthersLeaveLogAlone(Serve(t, Front(rest), c), c, Last(rest), k);
      OthersKeepOrEvict(t, Front(rest), c, k);
    }
  }

  lemma FullLogOpensAfter(log: seq<real>, since: real)
    requires log != []
    ensures |DropExpired(log, since)| < |log| <==> log[0] < since
  {
    if log[0] < since {
      DropExpiredSuffix(log[1..], since);
    }
  }

  lemma RefusedLogIsFull(t: Tracker, c: Config, r: Request)
    requires c.Valid() && WellKept(t, c, r.at) && Dispatch(t, c, r).1.Refuse?
    ensures var t' := Dispatch(t, c, r).0;
            && r.key in t'.logs && |t'.logs[r.key]| == c.maxRequests
            && r.at - c.window <= t'.logs[r.key][0]
            && Dispatch(t, c, r).1.retryAfter == RetryAfter(t'.logs[r.key][0], c, r.at)
  {
    DropExpiredSuffix(t.logs[r.key], r.at - c.window);
  }

  /** The reported seconds lie strictly above the true wait, and at most one second above it. */
  lemma RetryAfterRounding(oldest: real, c: Config, now: real)
    requires now - c.window <= oldest
    ensures oldest + c.window - now < RetryAfter(oldest, c, now) as real <= oldest + c.window - now + 1.0
  {}

  lemma AdmittedWhenOldestLeaves(t: Tracker, c: Config, r: Request)
    requires c.Valid()
    requires r.key in t.logs ==> |t.logs[r.key]| == c.maxRequests
    ensures Dispatch(t, c, r).1.Admit? <==> (r.key in t.logs ==> r.at > t.logs[r.key][0] + c.window)
  {
    if r.key in t.logs {
      FullLogOpensAfter(t.logs[r.key], r.at - c.window);
    }
  }

  /**
    Retry-After is sufficient, and at most a second too long. After a refusal at
    `r.at`, whatever other clients do, the same client is admitted at `later` if
    it waited the reported seconds. While the client is still on file it is
    admitted exactly when `later` is past the true wait, `oldest + window`.
  */
  lemma RetryAfterIsSufficient(trace: seq<Request>, c: Config, r: Request, rest: seq<Request>, later: real)
    requires c.Valid() && ClockedBy(trace, r.at) && !Seen(rest, r.key)
    requires Dispatch(Run(trace, c), c, r).1.Refuse?
    ensures var (t, d) := Dispatch(Run(trace, c), c, r);
            var t' := Serve(t, rest, c);
            var again := Dispatch(t', c, Request(r.key, later)).1;
            && r.key in t.logs && t.logs[r.key] != []
            && var wait := t.logs[r.key][0] + c.window - r.at;
            && wait < d.retryAfter as real <= wait + 1.0
            && (later >= r.at + d.retryAfter as real ==> again.Admit?)
            && (r.key in t'.logs ==> (again.Admit? <==> later > r.at + wait))
  {
    RunWellKept(trace, c, r.at);
    RefusedLogIsFull(Run(trace, c), c, r);
    var t := Dispatch(Run(trace, c), c, r).0;
    RetryAfterRounding(t.logs[r.key][0], c, r.at);
    if r.key in Serve(t, rest, c).logs {
      OthersKeepOrEvict(t, rest, c, r.key);
    }
    AdmittedWhenOldestLeaves(Serve(t, rest, c), c, Request(r.key, later));
  }
}
