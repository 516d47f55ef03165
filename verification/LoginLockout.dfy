/**
  Per-account lockout after failed logins (services/auth_service.py). A login
  checks the tracker, then awaits the database and bcrypt, and only then records
  its outcome, so any number of attempts for one email can sit in between.
*/
module LoginLockout {
  import opened TimeLogs

  const MAX_FAILED_ATTEMPTS := 5
  const WINDOW_SECONDS: real := 900.0
  const LOCKOUT_SECONDS: real := 900.0
  const MAX_TRACKED_EMAILS: nat := 10_000

  datatype Verdict = Proceed | Locked(retryAfter: int)

  function Latest(log: seq<real>): real
    requires log != []
  {
    log[|log| - 1]
  }

  /** `_check_and_record_lockout`, as a function of the tracker it finds. */
  function Check(t: Tracker, email: Key, now: real): (Tracker, Verdict) {
    if email !in t.logs then (t, Proceed)
    else
      var live := DropExpired(t.logs[email], now - WINDOW_SECONDS);
      var pruned := if live == [] then Delete(t, email) else t.(logs := t.logs[email := live]);
      if |live| < MAX_FAILED_ATTEMPTS then (pruned, Proceed)
      else
        var wait := Latest(live) + LOCKOUT_SECONDS - now;
        if wait > 0.0 then (pruned, Locked(wait.Floor + 1)) else (Delete(pruned, email), Proceed)
  }

  /** `_record_failed_attempt` */
  function Record(t: Tracker, email: Key, now: real): Tracker {
    if email !in t.logs then InsertCapped(t, email, [now], MAX_TRACKED_EMAILS)
    else MoveToEnd(t, email, t.logs[email] + [now])
  }

  /** `_clear_failed_attempts` */
  function Clear(t: Tracker, email: Key): Tracker {
    if email in t.logs then Delete(t, email) else t
  }

  class LoginTracker {
    var failed: Tracker

    constructor ()
      ensures failed == EMPTY
    {
      failed := EMPTY;
    }

    method CheckLockout(email: Key, now: real) returns (v: Verdict)
      modifies this
      ensures failed == Check(old(failed), email, now).0
      ensures v == Check(old(failed), email, now).1
    {
      var attempts: seq<real> := [];
      if email in failed.logs {
        attempts := PopExpired(failed.logs[email], now - WINDOW_SECONDS);
        if attempts == [] {
          failed := Delete(failed, email);
        } else {
          failed := failed.(logs := failed.logs[email := attempts]);
        }
      }
      if |attempts| >= MAX_FAILED_ATTEMPTS {
        var left := attempts[|attempts| - 1] + LOCKOUT_SECONDS - now;
        var retryAfter := if left < 0.0 then 0.0 else left;
        if retryAfter > 0.0 {
          return Locked(retryAfter.Floor + 1);
        }
        failed := Delete(failed, email);
      }
      v := Proceed;
    }

    method RecordFailure(email: Key, now: real)
      modifies this
      ensures failed == Record(old(failed), email, now)
    {
      if email !in failed.logs {
        failed := InsertCapped(failed, email, [now], MAX_TRACKED_EMAILS);
      } else {
        failed := MoveToEnd(failed, email, failed.logs[email] + [now]);
      }
    }

    method ClearFailures(email: Key)
      modifies this
      ensures failed == Clear(old(failed), email)
    {
      if email in failed.logs {
        failed := Delete(failed, email);
      }
    }
  }

  // ----- interleaved logins -----

  /** One side of a login; `id` ties an outcome to the check that let it through. */
  datatype Event =
    | Begin(id: nat, email: Key, at: real)
    | Fail(id: nat, at: real)
    | Succeed(id: nat, at: real)
    | Abandon(id: nat, at: real)

  datatype Attempt = Attempt(email: Key, checkedAt: real)

  /**
    `recorded` is history: every failure recorded for an email since its last
    successful login, forgotten only if the email is evicted.
  */
  datatype State = State(tracker: Tracker, inFlight: map<nat, Attempt>, recorded: map<Key, seq<real>>)

  const START := State(EMPTY, map[], map[])

  function LogOf(logs: map<Key, seq<real>>, email: Key): seq<real> {
    if email in logs then logs[email] else []
  }

  function Evicted(t: Tracker, email: Key): set<Key> {
    if email !in t.logs && |t.order| >= MAX_TRACKED_EMAILS && t.order != [] then {t.order[0]} else {}
  }

  function Step(s: State, e: Event): State {
    match e
    case Begin(id, email, at) =>
      var (t, v) := Check(s.tracker, email, at);
      if id !in s.inFlight && v.Proceed?
      then s.(tracker := t, inFlight := s.inFlight[id := Attempt(email, at)])
      else s.(tracker := t)
    case Fail(id, at) =>
      if id !in s.inFlight then s
      else
        var email := s.inFlight[id].email;
        State(Record(s.tracker, email, at), s.inFlight - {id},
              s.recorded[email := LogOf(s.recorded, email) + [at]] - Evicted(s.tracker, email))
    case Succeed(id, at) =>
      if id !in s.inFlight then s
      else
        var email := s.inFlight[id].email;
        State(Clear(s.tracker, email), s.inFlight - {id}, s.recorded - {email})
    case Abandon(id, at) =>
      s.(inFlight := s.inFlight - {id})
  }

  function Run(events: seq<Event>): State {
    if events == [] then START else Step(Run(events[..|events| - 1]), events[|events| - 1])
  }

  predicate ClockedBy(events: seq<Event>, now: real) {
    events == [] ||
    (events[|events| - 1].at <= now && ClockedBy(events[..|events| - 1], events[|events| - 1].at))
  }

  function InFlightFor(s: State, email: Key): set<nat> {
    set id | id in s.inFlight && s.inFlight[id].email == email
  }

  function InFlightBefore(s: State, email: Key, end: real): set<nat> {
    set id | id in s.inFlight && s.inFlight[id].email == email && s.inFlight[id].checkedAt < end
  }

  /** At every moment of the run at most `k` attempts for `email` are in flight. */
  predicate AtMostInFlight(events: seq<Event>, email: Key, k: nat) {
    |InFlightFor(Run(events), email)| <= k && (events == [] || AtMostInFlight(events[..|events| - 1], email, k))
  }

  /** Readings in the half-open interval from `lo` up to `hi`. */
  function CountHalfOpen(log: seq<real>, lo: real, hi: real): nat {
    if log == [] then 0
    else CountHalfOpen(log[..|log| - 1], lo, hi) + if lo <= log[|log| - 1] < hi then 1 else 0
  }

  function CountAfter(log: seq<real>, since: real): nat {
    if log == [] then 0 else CountAfter(log[1..], since) + if log[0] > since then 1 else 0
  }

  lemma {:induction false} CountAfterAppend(log: seq<real>, x: real, since: real)
    ensures CountAfter(log + [x], since) == CountAfter(log, since) + if x > since then 1 else 0
  {
    if log == [] {
      assert (log + [x])[1..] == [];
    } else {
      assert (log + [x])[1..] == log[1..] + [x];
      CountAfterAppend(log[1..], x, since);
    }
  }

  lemma {:induction false} CountAfterLive(log: seq<real>, since: real, cut: real)
    requires cut <= since
    ensures CountAfter(DropExpired(log, cut), since) == CountAfter(log, since)
  {
    if log != [] && log[0] < cut {
      CountAfterLive(log[1..], since, cut);
    }
  }

  lemma {:induction false} CountAfterAtMost(log: seq<real>, since: real)
    ensures CountAfter(log, since) <= |log|
  {
    if log != [] {
      CountAfterAtMost(log[1..], since);
    }
  }

  lemma {:induction false} CountAfterNone(log: seq<real>, since: real)
    requires Sorted(log) && (log != [] ==> Latest(log) <= since)
    ensures CountAfter(log, since) == 0
  {
    if log != [] {
      var p := log[..|log| - 1];
      assert log == p + [Latest(log)];
      CountAfterNone(p, since);
      CountAfterAppend(p, Latest(log), since);
    }
  }

  lemma {:induction false} HalfOpenWithinAfter(log: seq<real>, lo: real, hi: real, since: real)
    requires since < lo
    ensures CountHalfOpen(log, lo, hi) <= CountAfter(log, since)
  {
    if log != [] {
      var p := log[..|log| - 1];
      assert log == p + [Latest(log)];
      HalfOpenWithinAfter(p, lo, hi, since);
      CountAfterAppend(p, Latest(log), since);
    }
  }

  // ----- the tracker stays sorted by latest failure -----

  /** Keys in nondecreasing order of their latest failure. */
  predicate ByLatest(order: seq<Key>, logs: map<Key, seq<real>>)
    requires forall k :: k in order ==> k in logs && logs[k] != []
  {
    order == [] ||
    ((forall k :: k in order[1..] ==> Latest(logs[order[0]]) <= Latest(logs[k])) && ByLatest(order[1..], logs))
  }

  ghost predicate Kept(log: seq<real>, now: real) {
    log != [] && Sorted(log) && Latest(log) <= now
  }

  ghost predicate WellKept(t: Tracker, now: real) {
    && t.Valid()
    && |t.order| <= MAX_TRACKED_EMAILS
    && (forall k :: k in t.logs ==> Kept(t.logs[k], now))
    && ByLatest(t.order, t.logs)
  }

  lemma {:induction false} ByLatestSame(order: seq<Key>, logs: map<Key, seq<real>>, logs': map<Key, seq<real>>)
    requires forall k :: k in order ==> k in logs && logs[k] != [] && k in logs' && logs'[k] != []
    requires forall k :: k in order ==> Latest(logs'[k]) == Latest(logs[k])
    requires ByLatest(order, logs)
    ensures ByLatest(order, logs')
  {
    if order != [] {
      ByLatestSame(order[1..], logs, logs');
    }
  }

  lemma {:induction false} ByLatestWithout(order: seq<Key>, logs: map<Key, seq<real>>, k: Key)
    requires forall k :: k in order ==> k in logs && logs[k] != []
    requires ByLatest(order, logs)
    ensures forall x :: x in Without(order, k) ==> x in order && x != k
    ensures ByLatest(Without(order, k), logs)
  {
    WithoutMembers(order, k);
    if order != [] {
      ByLatestWithout(order[1..], logs, k);
      WithoutMembers(order[1..], k);
      if order[0] != k {
        assert Without(order, k)[1..] == Without(order[1..], k);
      }
    }
  }

  lemma {:induction false} ByLatestAppend(order: seq<Key>, logs: map<Key, seq<real>>, k: Key)
    requires forall x :: x in order + [k] ==> x in logs && logs[x] != []
    requires forall x :: x in order ==> Latest(logs[x]) <= Latest(logs[k])
    requires ByLatest(order, logs)
    ensures ByLatest(order + [k], logs)
  {
    if order == [] {
      assert (order + [k])[1..] == [];
    } else {
      assert (order + [k])[1..] == order[1..] + [k];
      ByLatestAppend(order[1..], logs, k);
    }
  }

  lemma DeleteWellKept(t: Tracker, k: Key, now: real)
    requires WellKept(t, now)
    ensures WellKept(Delete(t, k), now)
  {
    WithoutDistinct(t.order, k);
    WithoutMembers(t.order, k);
    ByLatestWithout(t.order, t.logs, k);
    ByLatestSame(Without(t.order, k), t.logs, t.logs - {k});
  }

  lemma PruneWellKept(t: Tracker, k: Key, cut: real, now: real)
    requires WellKept(t, now) && k in t.logs && DropExpired(t.logs[k], cut) != []
    ensures WellKept(t.(logs := t.logs[k := DropExpired(t.logs[k], cut)]), now)
  {
    PruneKept(t.logs[k], cut, now);
    ByLatestSame(t.order, t.logs, t.logs[k := DropExpired(t.logs[k], cut)]);
  }

  lemma PruneKept(log: seq<real>, cut: real, now: real)
    requires Kept(log, now) && DropExpired(log, cut) != []
    ensures Kept(DropExpired(log, cut), now) && Latest(DropExpired(log, cut)) == Latest(log)
  {
    DropExpiredSuffix(log, cut);
    SortedSuffix(log, |log| - |DropExpired(log, cut)|);
  }

  lemma CheckWellKept(t: Tracker, email: Key, now: real)
    requires WellKept(t, now)
    ensures WellKept(Check(t, email, now).0, now)
  {
    if email in t.logs {
      DeleteWellKept(t, email, now);
      var live := DropExpired(t.logs[email], now - WINDOW_SECONDS);
      if live != [] {
        PruneWellKept(t, email, now - WINDOW_SECONDS, now);
        DeleteWellKept(t.(logs := t.logs[email := live]), email, now);
      }
    }
  }

  lemma AppendKept(log: seq<real>, now: real)
    requires log == [] || Kept(log, now)
    ensures Kept(log + [now], now)
  {
    assert (log + [now])[..|log|] == log;
  }

  lemma MoveWellKept(t: Tracker, email: Key, now: real)
    requires WellKept(t, now) && email in t.logs
    ensures WellKept(MoveToEnd(t, email, t.logs[email] + [now]), now)
  {
    var rest, logs := Without(t.order, email), t.logs[email := t.logs[email] + [now]];
    AppendKept(t.logs[email], now);
    WithoutDistinct(t.order, email);
    WithoutMembers(t.order, email);
    DistinctAppend(rest, [email]);
    ByLatestWithout(t.order, t.logs, email);
    ByLatestSame(rest, t.logs, logs);
    ByLatestAppend(rest, logs, email);
  }

  lemma InsertWellKept(t: Tracker, email: Key, now: real)
    requires WellKept(t, now) && email !in t.logs
    ensures WellKept(InsertCapped(t, email, [now], MAX_TRACKED_EMAILS), now)
  {
    var order, logs := t.order + [email], t.logs[email := [now]];
    DistinctAppend(t.order, [email]);
    ByLatestSame(t.order, t.logs, logs);
    ByLatestAppend(t.order, logs, email);
    assert forall x :: x in order <==> x in t.order || x == email;
    DropFirstWellKept(order, logs);
  }

  lemma DropFirstWellKept(order: seq<Key>, logs: map<Key, seq<real>>)
    requires order != [] && Distinct(order) && (forall k :: k in order <==> k in logs)
    requires (forall k :: k in order ==> logs[k] != []) && ByLatest(order, logs)
    ensures Tracker(order[1..], logs - {order[0]}).Valid()
    ensures forall k :: k in order[1..] ==> k in logs && logs[k] != []
    ensures ByLatest(order[1..], logs - {order[0]})
  {
    assert order == [order[0]] + order[1..];
    ByLatestSame(order[1..], logs, logs - {order[0]});
  }

  /** In every run the tracker is sorted by latest failure, and within its cap. */
  lemma {:induction false} RunWellKept(events: seq<Event>, now: real)
    requires ClockedBy(events, now)
    ensures WellKept(Run(events).tracker, now)
  {
    if events != [] {
      var p, e := events[..|events| - 1], events[|events| - 1];
      RunWellKept(p, e.at);
      var s := Run(p);
      match e {
        case Begin(_, email, at) => CheckWellKept(s.tracker, email, at);
        case Fail(id, at) =>
          if id in s.inFlight {
            if s.inFlight[id].email in s.tracker.logs {
              MoveWellKept(s.tracker, s.inFlight[id].email, at);
            } else {
              InsertWellKept(s.tracker, s.inFlight[id].email, at);
            }
          }
        case Succeed(id, at) =>
          if id in s.inFlight { DeleteWellKept(s.tracker, s.inFlight[id].email, at); }
        case Abandon(_, _) =>
      }
    }
  }

  /** A full tracker makes room by dropping exactly the email whose latest failure is the oldest. */
  lemma EvictionDropsOldestLatest(events: seq<Event>, email: Key, now: real, other: Key)
    requires ClockedBy(events, now)
    requires email !in Run(events).tracker.logs && |Run(events).tracker.order| == 10_000
    requires other in Run(events).tracker.logs
    ensures var t := Run(events).tracker;
            var victim := t.order[0];
            && Record(t, email, now).logs.Keys == t.logs.Keys - {victim} + {email}
            && victim in t.logs && t.logs[victim] != [] && t.logs[other] != []
            && Latest(t.logs[victim]) <= Latest(t.logs[other])
  {
    RunWellKept(events, now);
    var t := Run(events).tracker;
    assert t.order == [t.order[0]] + t.order[1..];
    assert t.order[0] in t.order;
  }

  /**
    A success takes the email out of its place `i` and reopens it at once; every
    other email keeps its failures and its place in the order.
  */
  lemma SuccessForgetsOneEmail(t: Tracker, i: nat, now: real)
    requires t.Valid() && i < |t.order|
    ensures var t' := Clear(t, t.order[i]);
            && t'.order == t.order[..i] + t.order[i + 1..]
            && t'.logs.Keys == t.logs.Keys - {t.order[i]}
            && (forall k :: k in t'.logs ==> t'.logs[k] == t.logs[k])
            && Check(t', t.order[i], now) == (t', Proceed)
  {
    WithoutRemoves(t.order, i);
  }

  /** A failure goes to the end of its email's log, and the email to the end of the order. */
  lemma FailureGoesLast(t: Tracker, email: Key, now: real)
    requires t.Valid() && |t.order| <= MAX_TRACKED_EMAILS
    ensures var t' := Record(t, email, now);
            && LogOf(t'.logs, email) == LogOf(t.logs, email) + [now]
            && t'.order != [] && t'.order[|t'.order| - 1] == email
            && (forall k :: k in t'.logs && k != email ==> k in t.logs && t'.logs[k] == t.logs[k])
            && (email in t.logs || |t.order| < MAX_TRACKED_EMAILS ==> t'.logs.Keys == t.logs.Keys + {email})
  {
    assert [] + [now] == [now];
    if t.order != [] {
      assert t.order[0] in t.order;
    }
  }

  // ----- how many failures get through -----

  /** Beyond `since`, the tracker still holds every recorded failure. */
  lemma CheckKeepsRecent(t: Tracker, email: Key, now: real, other: Key, since: real)
    requires WellKept(t, now) && now - WINDOW_SECONDS <= since
    ensures CountAfter(LogOf(Check(t, email, now).0.logs, other), since) == CountAfter(LogOf(t.logs, other), since)
  {
    if email == other && email in t.logs {
      var log := t.logs[email];
      var live := DropExpired(log, now - WINDOW_SECONDS);
      CountAfterLive(log, since, now - WINDOW_SECONDS);
      if |live| >= MAX_FAILED_ATTEMPTS && Latest(live) + LOCKOUT_SECONDS - now <= 0.0 {
        DropExpiredSuffix(log, now - WINDOW_SECONDS);
        SortedSuffix(log, |log| - |live|);
        CountAfterNone(live, since);
      }
    }
  }

  lemma RecordKeepsRecent(s: State, id: nat, at: real, other: Key, since: real)
    requires s.tracker.Valid() && id in s.inFlight
    requires CountAfter(LogOf(s.recorded, other), since) == CountAfter(LogOf(s.tracker.logs, other), since)
    ensures var s' := Step(s, Fail(id, at));
            CountAfter(LogOf(s'.recorded, other), since) == CountAfter(LogOf(s'.tracker.logs, other), since)
  {
    FailRecords(s, id, at, other);
    CountAfterAppend(LogOf(s.recorded, other), at, since);
    CountAfterAppend(LogOf(s.tracker.logs, other), at, since);
  }

  /** A failure is added to its own log, on file and in history alike; an evicted log is forgotten in both. */
  lemma FailRecords(s: State, id: nat, at: real, other: Key)
    requires s.tracker.Valid() && id in s.inFlight
    ensures var email, s' := s.inFlight[id].email, Step(s, Fail(id, at));
            var was, now := LogOf(s.tracker.logs, other), LogOf(s'.tracker.logs, other);
            var wasRecorded, recorded := LogOf(s.recorded, other), LogOf(s'.recorded, other);
            if other == email then now == was + [at] && recorded == wasRecorded + [at]
            else if other in Evicted(s.tracker, email) then now == [] && recorded == []
            else now == was && recorded == wasRecorded
  {
    var t := s.tracker;
    assert [] + [at] == [at];
    if t.order != [] {
      assert t.order[0] in t.order;
      assert (t.order + [s.inFlight[id].email])[0] == t.order[0];
    }
  }

  lemma {:induction false} TrackerHoldsRecent(events: seq<Event>, email: Key, now: real, since: real)
    requires ClockedBy(events, now) && now - WINDOW_SECONDS <= since
    ensures CountAfter(LogOf(Run(events).recorded, email), since) == CountAfter(LogOf(Run(events).tracker.logs, email), since)
  {
    if events != [] {
      var p, e := events[..|events| - 1], events[|events| - 1];
      TrackerHoldsRecent(p, email, e.at, since);
      RunWellKept(p, e.at);
      var s := Run(p);
      match e {
        case Begin(_, other, at) => CheckKeepsRecent(s.tracker, other, at, email, since);
        case Fail(id, at) => if id in s.inFlight { RecordKeepsRecent(s, id, at, email, since); }
        case Succeed(_, _) =>
        case Abandon(_, _) =>
      }
    }
  }

  /** An attempt is let through only with fewer than five failures in the last 15 minutes. */
  lemma ProceedMeansFewRecent(t: Tracker, email: Key, now: real)
    requires WellKept(t, now) && Check(t, email, now).1.Proceed?
    ensures CountAfter(LogOf(t.logs, email), now - WINDOW_SECONDS) < MAX_FAILED_ATTEMPTS
  {
    if email in t.logs {
      CheckKeepsRecent(t, email, now, email, now - WINDOW_SECONDS);
      CountAfterAtMost(LogOf(Check(t, email, now).0.logs, email), now - WINDOW_SECONDS);
    }
  }

  lemma {:induction false} SubsetCardinality(a: set<nat>, b: set<nat>)
    requires a <= b
    ensures |a| <= |b|
  {
    if a != {} {
      var x :| x in a;
      SubsetCardinality(a - {x}, b - {x});
    }
  }

  /** What is counted in the interval, plus whoever may still add to it, never exceeds `4 + k`. */
  ghost predicate Bounded(s: State, email: Key, k: nat, lo: real) {
    CountHalfOpen(LogOf(s.recorded, email), lo, lo + WINDOW_SECONDS)
    + |InFlightBefore(s, email, lo + WINDOW_SECONDS)| <= MAX_FAILED_ATTEMPTS - 1 + k
  }

  /** Just after an attempt for `email` got through, the interval holds at most four failures. */
  lemma ProceedLeavesRoom(events: seq<Event>, e: Event, lo: real)
    requires e.Begin? && ClockedBy(events, e.at) && e.at < lo + WINDOW_SECONDS
    requires Check(Run(events).tracker, e.email, e.at).1.Proceed?
    ensures CountHalfOpen(LogOf(Run(events).recorded, e.email), lo, lo + WINDOW_SECONDS) < MAX_FAILED_ATTEMPTS
  {
    RunWellKept(events, e.at);
    ProceedMeansFewRecent(Run(events).tracker, e.email, e.at);
    TrackerHoldsRecent(events, e.email, e.at, e.at - WINDOW_SECONDS);
    HalfOpenWithinAfter(LogOf(Run(events).recorded, e.email), lo, lo + WINDOW_SECONDS, e.at - WINDOW_SECONDS);
  }

  lemma BeginBounded(events: seq<Event>, e: Event, email: Key, k: nat, lo: real)
    requires e.Begin? && ClockedBy(events, e.at) && Bounded(Run(events), email, k, lo)
    requires |InFlightFor(Step(Run(events), e), email)| <= k
    ensures Bounded(Step(Run(events), e), email, k, lo)
  {
    var s, s' := Run(events), Step(Run(events), e);
    var hi := lo + WINDOW_SECONDS;
    var admitted := e.id !in s.inFlight && Check(s.tracker, e.email, e.at).1.Proceed?;
    if admitted && e.email == email && e.at < hi {
      ProceedLeavesRoom(events, e, lo);
      SubsetCardinality(InFlightBefore(s', email, hi), InFlightFor(s', email));
    } else {
      assert InFlightBefore(s', email, hi) == InFlightBefore(s, email, hi);
    }
  }

  lemma {:induction false} CheckedBefore(events: seq<Event>, id: nat, now: real)
    requires ClockedBy(events, now) && id in Run(events).inFlight
    ensures Run(events).inFlight[id].checkedAt <= now
  {
    var p, e := events[..|events| - 1], events[|events| - 1];
    if id in Run(p).inFlight {
      CheckedBefore(p, id, e.at);
    }
  }

  lemma OutcomeBounded(events: seq<Event>, e: Event, email: Key, k: nat, lo: real)
    requires !e.Begin? && ClockedBy(events, e.at) && Bounded(Run(events), email, k, lo)
    ensures Bounded(Step(Run(events), e), email, k, lo)
  {
    var s, s' := Run(events), Step(Run(events), e);
    var hi := lo + WINDOW_SECONDS;
    var before, after := InFlightBefore(s, email, hi), InFlightBefore(s', email, hi);
    assert after == before - {e.id};
    SubsetCardinality(after, before);
    OutcomeRecords(s, e, email);
    if LogOf(s'.recorded, email) == LogOf(s.recorded, email) + [e.at] {
      CountHalfOpenAppend(LogOf(s.recorded, email), e.at, lo, hi);
      CheckedBefore(events, e.id, e.at);
      if e.at < hi {
        assert e.id in before && |before - {e.id}| == |before| - 1;
      }
    }
  }

  /** An outcome leaves the record of an email alone, empties it, or adds the failure of an attempt in flight. */
  lemma OutcomeRecords(s: State, e: Event, email: Key)
    requires !e.Begin?
    ensures var was, now := LogOf(s.recorded, email), LogOf(Step(s, e).recorded, email);
            || now == was
            || now == []
            || (e.id in s.inFlight && s.inFlight[e.id].email == email && now == was + [e.at])
  {}

  lemma CountHalfOpenAppend(log: seq<real>, x: real, lo: real, hi: real)
    ensures CountHalfOpen(log + [x], lo, hi) == CountHalfOpen(log, lo, hi) + if lo <= x < hi then 1 else 0
  {
    assert (log + [x])[..|log|] == log;
  }

  /**
    Main result. With at most `k` attempts for an email in flight at once, any
    half-open 15 minutes hold at most 4 + k of the failures recorded since its
    last successful login, for as long as it stays tracked.
  */
  lemma {:induction false} FailuresBounded(events: seq<Event>, email: Key, k: nat, lo: real, now: real)
    requires ClockedBy(events, now) && AtMostInFlight(events, email, k)
    ensures CountHalfOpen(LogOf(Run(events).recorded, email), lo, lo + WINDOW_SECONDS) <= MAX_FAILED_ATTEMPTS - 1 + k
    ensures Bounded(Run(events), email, k, lo)
  {
    if events == [] {
      assert InFlightBefore(START, email, lo + WINDOW_SECONDS) == {};
    } else {
      var p, e := events[..|events| - 1], events[|events| - 1];
      FailuresBounded(p, email, k, lo, e.at);
      if e.Begin? {
        BeginBounded(p, e, email, k, lo);
      } else {
        OutcomeBounded(p, e, email, k, lo);
      }
    }
  }

  // ----- the bound is reached -----

  function Flight(email: Key, at: real, from: nat, to: nat): map<nat, Attempt> {
    if to <= from then map[] else Flight(email, at, from, to - 1)[to - 1 := Attempt(email, at)]
  }

  lemma {:induction false} FlightIds(email: Key, at: real, from: nat, to: nat)
    ensures forall id :: id in Flight(email, at, from, to) <==> from <= id < to
    ensures forall id :: id in Flight(email, at, from, to) ==> Flight(email, at, from, to)[id] == Attempt(email, at)
  {
    if from < to {
      FlightIds(email, at, from, to - 1);
    }
  }

  /** Only `email` on file, with the failures `log`; its attempts `from` up to `to`, begun at `at`, are in flight. */
  function Filed(email: Key, log: seq<real>, at: real, from: nat, to: nat): State {
    State(if log == [] then EMPTY else Tracker([email], map[email := log]),
          Flight(email, at, from, to),
          if log == [] then map[] else map[email := log])
  }

  /** One failed attempt after the other, at these times. */
  function Serial(email: Key, times: seq<real>): seq<Event> {
    if times == [] then []
    else Serial(email, times[..|times| - 1]) + [Begin(0, email, Latest(times))] + [Fail(0, Latest(times))]
  }

  /** Four of them at time 0; then `begun` attempts let through together, of which `failed` have come back. */
  function Burst(email: Key, begun: nat, failed: nat): seq<Event> {
    if failed > 0 then Burst(email, begun, failed - 1) + [Fail(failed - 1, 0.0)]
    else if begun > 0 then Burst(email, begun - 1, 0) + [Begin(begun - 1, email, 0.0)]
    else Serial(email, Zeros(4))
  }

  function Zeros(n: nat): seq<real> {
    seq(n, _ => 0.0)
  }

  lemma {:induction false} ZerosAreLive(n: nat)
    ensures Sorted(Zeros(n)) && CountHalfOpen(Zeros(n), 0.0, WINDOW_SECONDS) == n
  {
    if n > 0 {
      ZerosAreLive(n - 1);
      ZerosSnoc(n - 1);
      OneMoreZero(Zeros(n - 1));
    }
  }

  lemma OneMoreZero(zeros: seq<real>)
    requires (forall i :: 0 <= i < |zeros| ==> zeros[i] == 0.0) && Sorted(zeros)
    ensures (forall i :: 0 <= i <= |zeros| ==> (zeros + [0.0])[i] == 0.0) && Sorted(zeros + [0.0])
    ensures CountHalfOpen(zeros + [0.0], 0.0, WINDOW_SECONDS) == CountHalfOpen(zeros, 0.0, WINDOW_SECONDS) + 1
  {
    assert (zeros + [0.0])[..|zeros|] == zeros;
  }

  /** Events that lead to `s` by the time `now`, with at most `k` attempts in flight on the way. */
  predicate Leads(events: seq<Event>, email: Key, k: nat, s: State, now: real) {
    Run(events) == s && ClockedBy(events, now) && AtMostInFlight(events, email, k)
  }

  lemma OneMore(events: seq<Event>, e: Event, email: Key, k: nat, s: State)
    requires Leads(events, email, k, s, e.at)
    requires |InFlightFor(Step(s, e), email)| <= k
    ensures Leads(events + [e], email, k, Step(s, e), e.at)
  {
    assert (events + [e])[..|events|] == events;
  }

  lemma {:induction false} IdsBelow(n: nat) returns (ids: set<nat>)
    ensures |ids| == n && forall id: nat :: id in ids <==> id < n
  {
    if n == 0 {
      ids := {};
    } else {
      var fewer := IdsBelow(n - 1);
      ids := fewer + {n - 1};
    }
  }

  lemma FewInFlight(email: Key, log: seq<real>, at: real, from: nat, to: nat)
    ensures |InFlightFor(Filed(email, log, at, from, to), email)| <= to
  {
    var ids := IdsBelow(to);
    FlightIds(email, at, from, to);
    SubsetCardinality(InFlightFor(Filed(email, log, at, from, to), email), ids);
  }

  predicate AllLive(log: seq<real>, now: real) {
    log == [] || log[0] >= now - WINDOW_SECONDS
  }

  lemma OneMoreBegin(events: seq<Event>, email: Key, log: seq<real>, at: real, to: nat, k: nat)
    requires |log| < MAX_FAILED_ATTEMPTS && AllLive(log, at) && to < k
    requires Leads(events, email, k, Filed(email, log, at, 0, to), at)
    ensures Leads(events + [Begin(to, email, at)], email, k, Filed(email, log, at, 0, to + 1), at)
  {
    FlightIds(email, at, 0, to);
    assert DropExpired(log, at - WINDOW_SECONDS) == log;
    assert Step(Filed(email, log, at, 0, to), Begin(to, email, at)) == Filed(email, log, at, 0, to + 1);
    FewInFlight(email, log, at, 0, to + 1);
    OneMore(events, Begin(to, email, at), email, k, Filed(email, log, at, 0, to));
  }

  lemma FailFiled(email: Key, log: seq<real>, at: real, from: nat, to: nat)
    requires from < to
    ensures Step(Filed(email, log, at, from, to), Fail(from, at)) == Filed(email, log + [at], at, from + 1, to)
  {
    assert Without([email], email) == [];
    FlightIds(email, at, from, to);
    FlightIds(email, at, from + 1, to);
    assert Flight(email, at, from, to) - {from} == Flight(email, at, from + 1, to);
    assert [] + [at] == [at] && [] + [email] == [email];
  }

  lemma OneMoreFail(events: seq<Event>, email: Key, log: seq<real>, at: real, from: nat, to: nat, k: nat)
    requires from < to <= k && Leads(events, email, k, Filed(email, log, at, from, to), at)
    ensures Leads(events + [Fail(from, at)], email, k, Filed(email, log + [at], at, from + 1, to), at)
  {
    FailFiled(email, log, at, from, to);
    FewInFlight(email, log + [at], at, from + 1, to);
    OneMore(events, Fail(from, at), email, k, Filed(email, log, at, from, to));
  }

  lemma LaterClock(events: seq<Event>, email: Key, k: nat, s: State, now: real, later: real)
    requires Leads(events, email, k, s, now) && now <= later
    ensures Leads(events, email, k, s, later)
  {}

  /** Up to five attempts within one window, one after the other, all fail and are all on file. */
  lemma {:induction false} SerialRun(email: Key, times: seq<real>, k: nat)
    requires times != [] && |times| <= MAX_FAILED_ATTEMPTS && Sorted(times) && AllLive(times, Latest(times)) && 1 <= k
    ensures Leads(Serial(email, times), email, k, Filed(email, times, Latest(times), 0, 0), Latest(times))
  {
    var p, at := times[..|times| - 1], Latest(times);
    assert times == p + [at];
    SortedBounds(times, 0, |p|);
    if p == [] {
      FewInFlight(email, [], at, 0, 0);
    } else {
      SortedBounds(times, |p| - 1, |p|);
      SortedBounds(times, 0, |p| - 1);
      SerialRun(email, p, k);
      LaterClock(Serial(email, p), email, k, Filed(email, p, Latest(p), 0, 0), Latest(p), at);
    }
    OneMoreBegin(Serial(email, p), email, p, at, 0, k);
    OneMoreFail(Serial(email, p) + [Begin(0, email, at)], email, p, at, 0, 1, k);
    assert Filed(email, times, at, 1, 1) == Filed(email, times, at, 0, 0);
  }

  lemma ZerosSnoc(n: nat)
    ensures Zeros(n + 1) == Zeros(n) + [0.0]
  {}

  /** `begun` of the burst let through, `failed` of them back. */
  predicate BurstLeads(email: Key, begun: nat, failed: nat, k: nat) {
    Leads(Burst(email, begun, failed), email, k, Filed(email, Zeros(4 + failed), 0.0, failed, begun), 0.0)
  }

  lemma BurstFails(email: Key, begun: nat, failed: nat, k: nat)
    requires failed < begun <= k && BurstLeads(email, begun, failed, k)
    ensures BurstLeads(email, begun, failed + 1, k)
  {
    ZerosSnoc(4 + failed);
    OneMoreFail(Burst(email, begun, failed), email, Zeros(4 + failed), 0.0, failed, begun, k);
  }

  lemma BurstBegins(email: Key, begun: nat, k: nat)
    requires begun < k && BurstLeads(email, begun, 0, k)
    ensures BurstLeads(email, begun + 1, 0, k)
  {
    OneMoreBegin(Burst(email, begun, 0), email, Zeros(4), 0.0, begun, k);
  }

  lemma BurstStarts(email: Key, k: nat)
    requires 1 <= k
    ensures BurstLeads(email, 0, 0, k)
  {
    ZerosAreLive(4);
    SerialRun(email, Zeros(4), k);
  }

  lemma {:induction false} BurstRun(email: Key, begun: nat, failed: nat, k: nat)
    requires failed <= begun <= k && 1 <= k
    ensures BurstLeads(email, begun, failed, k)
    decreases begun, failed
  {
    if failed > 0 {
      BurstRun(email, begun, failed - 1, k);
      BurstFails(email, begun, failed - 1, k);
    } else if begun > 0 {
      BurstRun(email, begun - 1, 0, k);
      BurstBegins(email, begun - 1, k);
    } else {
      BurstStarts(email, k);
    }
  }

  /** With `k` attempts at once, 4 + k failures in 15 minutes do happen. */
  lemma BoundIsReached(email: Key, k: nat)
    requires 1 <= k
    ensures var events := Burst(email, k, k);
            && ClockedBy(events, 0.0) && AtMostInFlight(events, email, k)
            && CountHalfOpen(LogOf(Run(events).recorded, email), 0.0, WINDOW_SECONDS) == MAX_FAILED_ATTEMPTS - 1 + k
  {
    BurstRun(email, k, k, k);
    ZerosAreLive(4 + k);
  }

  // ----- how long a lock lasts -----

  lemma LiveEndsWithLatest(log: seq<real>, cut: real)
    requires Sorted(log)
    ensures var live := DropExpired(log, cut);
            && (|live| >= 5 <==> |log| >= 5 && log[|log| - 5] >= cut)
            && (live != [] ==> Latest(live) == Latest(log))
  {
    DropExpiredSuffix(log, cut);
    var live := DropExpired(log, cut);
    if |live| >= 5 {
      SortedBounds(log, |log| - |live|, |log| - 5);
    } else if |log| >= 5 && log[|log| - 5] >= cut {
      ExpiredPrefix(log, cut, |log| - 5);
    }
  }

  lemma {:induction false} ExpiredPrefix(log: seq<real>, cut: real, i: nat)
    requires i < |log| - |DropExpired(log, cut)|
    ensures log[i] < cut
  {
    if i > 0 {
      ExpiredPrefix(log[1..], cut, i - 1);
    }
  }

  /** Exactly when a check refuses: the fifth latest failure is in the window and the latest is not at its edge. */
  lemma LockedIff(t: Tracker, email: Key, now: real)
    requires email in t.logs && Sorted(t.logs[email])
    ensures var log := t.logs[email];
            Check(t, email, now).1.Locked? <==>
              |log| >= 5 && now <= log[|log| - 5] + WINDOW_SECONDS && now < Latest(log) + LOCKOUT_SECONDS
  {
    LiveEndsWithLatest(t.logs[email], now - WINDOW_SECONDS);
  }

  /**
    A full LOCKOUT_SECONDS from the latest failure, as documented, is what the
    code gives exactly when the last five failures coincide.
  */
  lemma FullLockoutIff(t: Tracker, email: Key)
    requires email in t.logs && Sorted(t.logs[email]) && |t.logs[email]| >= 5
    ensures var log := t.logs[email];
            (forall at :: Latest(log) <= at < Latest(log) + LOCKOUT_SECONDS ==> Check(t, email, at).1.Locked?)
            <==> log[|log| - 5] == Latest(log)
  {
    var log := t.logs[email];
    SortedBounds(log, |log| - 5, |log| - 1);
    if log[|log| - 5] == Latest(log) {
      forall at | Latest(log) <= at < Latest(log) + LOCKOUT_SECONDS ensures Check(t, email, at).1.Locked? {
        LockedIff(t, email, at);
      }
    } else {
      var first := log[|log| - 5] + WINDOW_SECONDS;
      var at := if first < Latest(log) then Latest(log) else (first + Latest(log) + LOCKOUT_SECONDS) / 2.0;
      LockedIff(t, email, at);
      assert !Check(t, email, at).1.Locked?;
    }
  }

  function SpreadTimes(): seq<real> {
    [] + [0.0] + [1.0] + [2.0] + [3.0] + [899.0]
  }

  /** Five failures spread out: the fifth locks the account, and two seconds later it is open again. */
  lemma LockoutEndsEarly(email: Key)
    ensures var events := Serial(email, SpreadTimes());
            && ClockedBy(events, 899.0)
            && Check(Run(events).tracker, email, 899.0).1.Locked?
            && Check(Run(events).tracker, email, 901.0).1.Proceed?
  {
    var times := SpreadTimes();
    assert times[..4] == [] + [0.0] + [1.0] + [2.0] + [3.0] && times[..4][..3] == [] + [0.0] + [1.0] + [2.0];
    assert times[..4][..3][..2] == [] + [0.0] + [1.0] && Sorted(times[..4][..3]);
    SerialRun(email, times, 1);
    LockedIff(Run(Serial(email, times)).tracker, email, 899.0);
    LockedIff(Run(Serial(email, times)).tracker, email, 901.0);
  }

  // ----- waiting is enough -----

  predicate RecordsFailure(s: State, e: Event, email: Key) {
    e.Fail? && e.id in s.inFlight && s.inFlight[e.id].email == email
  }

  /** While `rest` follows `before`, no failure of `email` is recorded. */
  predicate NoNewFailure(before: seq<Event>, rest: seq<Event>, email: Key) {
    rest == [] ||
    (NoNewFailure(before, rest[..|rest| - 1], email)
     && !RecordsFailure(Run(before + rest[..|rest| - 1]), rest[|rest| - 1], email))
  }

  predicate EndsBy(t: Tracker, email: Key, latest: real) {
    email in t.logs ==> t.logs[email] != [] && Sorted(t.logs[email]) && Latest(t.logs[email]) <= latest
  }

  /** Without a new failure a log can only lose its head, or go altogether. */
  lemma StepEndsBy(s: State, e: Event, email: Key, latest: real)
    requires EndsBy(s.tracker, email, latest) && !RecordsFailure(s, e, email)
    ensures EndsBy(Step(s, e).tracker, email, latest)
  {
    if e.Begin? && e.email == email && email in s.tracker.logs {
      PruneEndsBy(s.tracker.logs[email], e.at - WINDOW_SECONDS);
    }
  }

  lemma PruneEndsBy(log: seq<real>, cut: real)
    requires Sorted(log)
    ensures Sorted(DropExpired(log, cut))
    ensures DropExpired(log, cut) != [] ==> log != [] && Latest(DropExpired(log, cut)) == Latest(log)
  {
    DropExpiredSuffix(log, cut);
    SortedSuffix(log, |log| - |DropExpired(log, cut)|);
  }

  lemma {:induction false} RunEndsBy(before: seq<Event>, rest: seq<Event>, email: Key, latest: real)
    requires EndsBy(Run(before).tracker, email, latest) && NoNewFailure(before, rest, email)
    ensures EndsBy(Run(before + rest).tracker, email, latest)
  {
    if rest == [] {
      assert before + rest == before;
    } else {
      var p := rest[..|rest| - 1];
      assert (before + rest)[..|before + rest| - 1] == before + p;
      RunEndsBy(before, p, email, latest);
      StepEndsBy(Run(before + p), rest[|rest| - 1], email, latest);
    }
  }

  /**
    A refusal reports the seconds until 15 minutes after the latest failure, rounded
    up by at most one. The account itself reopens when the fifth latest failure
    leaves the window, so the report is late by the time between those two
    failures, and at most a second more.
  */
  predicate ReportsWait(log: seq<real>, now: real, retryAfter: int)
    requires |log| >= 5
  {
    var latest, fifth, reported := log[|log| - 1], log[|log| - 5], now + retryAfter as real;
    && latest + 900.0 < reported <= latest + 900.0 + 1.0
    && latest - fifth < reported - (fifth + 900.0) <= latest - fifth + 1.0
  }

  /** From a refusal on, without a new failure, an email stays locked exactly up to that moment. */
  predicate LockedAt(log: seq<real>, at: real)
    requires |log| >= 5
  {
    at <= log[|log| - 5] + 900.0 && at < log[|log| - 1] + 900.0
  }

  lemma RefusalReports(t: Tracker, email: Key, now: real)
    requires email in t.logs && Sorted(t.logs[email]) && Check(t, email, now).1.Locked?
    ensures |t.logs[email]| >= 5 && ReportsWait(t.logs[email], now, Check(t, email, now).1.retryAfter)
  {
    LockedIff(t, email, now);
    PrunedEndsAlike(t.logs[email], now - WINDOW_SECONDS);
    RoundsUp(t.logs[email][|t.logs[email]| - 1] + LOCKOUT_SECONDS - now);
  }

  lemma RoundsUp(wait: real)
    ensures wait < (wait.Floor + 1) as real <= wait + 1.0
  {}

  /** What a refusal reports after any run, and how long the account then really stays locked. */
  lemma ReportedWait(events: seq<Event>, email: Key, now: real, later: real)
    requires ClockedBy(events, now) && Check(Run(events).tracker, email, now).1.Locked?
    ensures var t := Run(events).tracker;
            && email in t.logs && |t.logs[email]| >= 5
            && ReportsWait(t.logs[email], now, Check(t, email, now).1.retryAfter)
            && (Check(Check(t, email, now).0, email, later).1.Locked? <==> LockedAt(t.logs[email], later))
  {
    RunWellKept(events, now);
    assert Kept(Run(events).tracker.logs[email], now);
    RefusalReports(Run(events).tracker, email, now);
    LockedOnAfterCheck(Run(events).tracker, email, now, later);
  }

  lemma LockedOnAfterCheck(t: Tracker, email: Key, now: real, later: real)
    requires email in t.logs && Sorted(t.logs[email]) && Check(t, email, now).1.Locked?
    ensures var log := t.logs[email];
            && |log| >= 5
            && (Check(Check(t, email, now).0, email, later).1.Locked? <==> LockedAt(log, later))
  {
    LockedIff(t, email, now);
    PrunedEndsAlike(t.logs[email], now - WINDOW_SECONDS);
    LockedIff(Check(t, email, now).0, email, later);
  }

  /** Pruning leaves the latest five failures alone if they are all in the window. */
  lemma PrunedEndsAlike(log: seq<real>, cut: real)
    requires Sorted(log) && |log| >= 5 && log[|log| - 5] >= cut
    ensures var live := DropExpired(log, cut);
            |live| >= 5 && Sorted(live) && live[|live| - 5] == log[|log| - 5] && live[|live| - 1] == log[|log| - 1]
  {
    LiveEndsWithLatest(log, cut);
    DropExpiredSuffix(log, cut);
    SortedSuffix(log, |log| - |DropExpired(log, cut)|);
  }

  /**
    Main result. Whatever happens after a refused check, checks of the same email
    by anybody included: as long as no new failure of that email is recorded, a
    check made after the reported seconds goes through.
  */
  lemma RetryAfterIsSufficient(events: seq<Event>, id: nat, email: Key, now: real, rest: seq<Event>, later: real)
    requires ClockedBy(events, now) && Check(Run(events).tracker, email, now).1.Locked?
    requires NoNewFailure(events + [Begin(id, email, now)], rest, email)
    requires later >= now + Check(Run(events).tracker, email, now).1.retryAfter as real
    ensures Check(Run(events + [Begin(id, email, now)] + rest).tracker, email, later).1.Proceed?
  {
    var t, checked := Run(events).tracker, events + [Begin(id, email, now)];
    RunWellKept(events, now);
    var latest := Latest(t.logs[email]);
    PruneEndsBy(t.logs[email], now - WINDOW_SECONDS);
    assert checked[..|events|] == events;
    StepEndsBy(Run(events), Begin(id, email, now), email, latest);
    RunEndsBy(checked, rest, email, latest);
    var t' := Run(checked + rest).tracker;
    if email in t'.logs {
      LockedIff(t', email, later);
    }
  }
}
