/**
  Versioned cache-aside (core/cache.py) under any interleaving of readers and
  writers. A writer commits, then bumps its counter. A reader takes the versions
  of the counters its answer depends on, looks the key up, queries on a miss,
  and stores what it got under the versions it started with.
*/
module CacheProtocol {
  import CacheKeys
  import Calendar
  import Allocation
  import opened Database

  type Versions = seq<nat>

  /** A stored answer. `seen` (log length) and `at` (clock) of its query are history. */
  datatype Entry = Entry(value: Response, seen: nat, at: int)

  /** A read in flight; `start` is history, the log length when it took its versions. */
  datatype Reader =
    | Versioned(req: Request, versions: Versions, start: nat)
    | Missed(req: Request, versions: Versions, start: nat)
    | Queried(req: Request, versions: Versions, start: nat, value: Response, seen: nat, at: int)
    | Answered(req: Request, versions: Versions, start: nat, value: Response, seen: nat, at: int)

  /**
    `pending` are the commits whose bump has not landed. `bumps` lists, for each
    counter, the commits whose INCR landed, in landing order: the counter's value
    is the length of that list.
  */
  datatype State = State(
    log: Log,
    pending: set<nat>,
    bumps: map<Counter, seq<nat>>,
    store: map<(Request, Versions), Entry>,
    readers: map<nat, Reader>,
    now: int)

  datatype Step =
    | Commits(commit: Commit)
    | Bumps(index: nat)
    | TakesVersions(id: nat, req: Request)
    | Hits(id: nat)
    | Misses(id: nat)
    | Queries(id: nat)
    | Stores(id: nat, accepted: bool)
    | Expires(key: (Request, Versions))
    | Waits(seconds: nat)

  const EMPTY := State([], {}, map[], map[], map[], 0)

  function BumpsOf(bumps: map<Counter, seq<nat>>, c: Counter): seq<nat> {
    if c in bumps then bumps[c] else []
  }

  /** One MGET of version counters; a missing counter reads as 0. */
  function VersionsNow(bumps: map<Counter, seq<nat>>, counters: seq<Counter>): Versions {
    seq(|counters|, i requires 0 <= i < |counters| => |BumpsOf(bumps, counters[i])|)
  }

  /** A step that is not enabled changes nothing. A lookup may miss even a present key. */
  ghost function Next(s: State, step: Step): State {
    match step
    case Commits(c) => s.(log := s.log + [c], pending := s.pending + {|s.log|})
    case Bumps(i) =>
      if i !in s.pending || i >= |s.log| then s
      else
        var c := CounterOf(s.log[i]);
        s.(pending := s.pending - {i}, bumps := s.bumps[c := BumpsOf(s.bumps, c) + [i]])
    case TakesVersions(id, req) =>
      if id in s.readers then s
      else s.(readers := s.readers[id := Versioned(req, VersionsNow(s.bumps, CountersFor(req)), |s.log|)])
    case Hits(id) =>
      if id !in s.readers || !s.readers[id].Versioned? then s
      else
        var r := s.readers[id];
        if (r.req, r.versions) !in s.store then s
        else
          var e := s.store[(r.req, r.versions)];
          s.(readers := s.readers[id := Answered(r.req, r.versions, r.start, e.value, e.seen, e.at)])
    case Misses(id) =>
      if id !in s.readers || !s.readers[id].Versioned? then s
      else
        var r := s.readers[id];
        s.(readers := s.readers[id := Missed(r.req, r.versions, r.start)])
    case Queries(id) =>
      if id !in s.readers || !s.readers[id].Missed? then s
      else
        var r := s.readers[id];
        var value := Execute(r.req, s.log, s.now);
        // A missing item is raised to the caller and never stored.
        s.(readers := s.readers[id :=
             if value == NotFound then Answered(r.req, r.versions, r.start, value, |s.log|, s.now)
             else Queried(r.req, r.versions, r.start, value, |s.log|, s.now)])
    case Stores(id, accepted) =>
      if id !in s.readers || !s.readers[id].Queried? then s
      else
        var r := s.readers[id];
        s.(readers := s.readers[id := Answered(r.req, r.versions, r.start, r.value, r.seen, r.at)],
           store := if accepted then s.store[(r.req, r.versions) := Entry(r.value, r.seen, r.at)] else s.store)
    case Expires(key) => s.(store := s.store - {key})
    case Waits(seconds) => s.(now := s.now + seconds)
  }

  ghost function Run(s: State, steps: seq<Step>): State {
    if steps == [] then s else Next(Run(s, steps[..|steps| - 1]), steps[|steps| - 1])
  }

  // ----- the invariant -----

  /** Every commit among the first `versions[j]` bumps of the `j`th counter lies before position `n` of the log. */
  ghost predicate Covered(bumps: map<Counter, seq<nat>>, counters: seq<Counter>, versions: Versions, n: nat) {
    && |versions| == |counters|
    && forall j :: 0 <= j < |counters| ==>
         && versions[j] <= |BumpsOf(bumps, counters[j])|
         && forall i :: 0 <= i < versions[j] ==> BumpsOf(bumps, counters[j])[i] < n
  }

  /** `value` is what the database answered when its log had length `seen`. */
  ghost predicate FromDatabase(s: State, req: Request, value: Response, seen: nat, at: int) {
    seen <= |s.log| && at <= s.now && value == Execute(req, s.log[..seen], at)
  }

  ghost predicate EntryGood(s: State, req: Request, versions: Versions, e: Entry) {
    FromDatabase(s, req, e.value, e.seen, e.at) && Covered(s.bumps, CountersFor(req), versions, e.seen)
  }

  ghost predicate ReaderGood(s: State, r: Reader) {
    if r.Versioned? || r.Missed?
    then r.start <= |s.log| && Covered(s.bumps, CountersFor(r.req), r.versions, r.start)
    else FromDatabase(s, r.req, r.value, r.seen, r.at) && Covered(s.bumps, CountersFor(r.req), r.versions, r.seen)
  }

  /** Each commit is either waiting for its bump or listed under its own counter. */
  ghost predicate BumpsGood(s: State) {
    && (forall i :: i in s.pending ==> i < |s.log|)
    && (forall c, k :: c in s.bumps && 0 <= k < |s.bumps[c]| ==>
          s.bumps[c][k] < |s.log| && CounterOf(s.log[s.bumps[c][k]]) == c)
    && (forall i :: 0 <= i < |s.log| ==> i in s.pending || i in BumpsOf(s.bumps, CounterOf(s.log[i])))
  }

  ghost predicate Inv(s: State) {
    && BumpsGood(s)
    && (forall key :: key in s.store ==> EntryGood(s, key.0, key.1, s.store[key]))
    && (forall id :: id in s.readers ==> ReaderGood(s, s.readers[id]))
  }

  /** `s'` has seen more commits, bumps and time than `s`, and rewritten none of it. */
  ghost predicate Extends(s: State, s': State) {
    && s.log <= s'.log && s.now <= s'.now
    && forall c :: BumpsOf(s.bumps, c) <= BumpsOf(s'.bumps, c)
  }

  lemma NextExtends(s: State, step: Step)
    ensures Extends(s, Next(s, step))
  {}

  lemma ExtendsTransitive(s: State, s': State, s'': State)
    requires Extends(s, s') && Extends(s', s'')
    ensures Extends(s, s'')
  {}

  lemma GoodStaysGood(s: State, s': State, req: Request, versions: Versions, value: Response, seen: nat, at: int)
    requires Extends(s, s')
    ensures Covered(s.bumps, CountersFor(req), versions, seen) ==> Covered(s'.bumps, CountersFor(req), versions, seen)
    ensures FromDatabase(s, req, value, seen, at) ==> FromDatabase(s', req, value, seen, at)
  {
    if seen <= |s.log| {
      assert s'.log[..seen] == s.log[..seen];
    }
  }

  lemma ReaderStaysGood(s: State, s': State, r: Reader)
    requires Extends(s, s') && ReaderGood(s, r)
    ensures ReaderGood(s', r)
  {
    if r.Versioned? || r.Missed? {
      GoodStaysGood(s, s', r.req, r.versions, NotFound, r.start, 0);
    } else {
      GoodStaysGood(s, s', r.req, r.versions, r.value, r.seen, r.at);
    }
  }

  lemma NextBumpsGood(s: State, step: Step)
    requires BumpsGood(s)
    ensures BumpsGood(Next(s, step))
  {
    var s' := Next(s, step);
    if step.Bumps? && s' != s {
      var c := CounterOf(s.log[step.index]);
      forall i | 0 <= i < |s'.log| ensures i in s'.pending || i in BumpsOf(s'.bumps, CounterOf(s'.log[i])) {
        if i == step.index {
          assert BumpsOf(s'.bumps, c)[|BumpsOf(s.bumps, c)|] == i;
        }
      }
    }
  }

  /** Versions taken now cover exactly what has been bumped, all of it before the end of the log. */
  lemma FreshVersionsCovered(s: State, req: Request)
    requires BumpsGood(s)
    ensures Covered(s.bumps, CountersFor(req), VersionsNow(s.bumps, CountersFor(req)), |s.log|)
  {}

  lemma QueryCovered(s: State, r: Reader)
    requires ReaderGood(s, r) && r.Missed?
    ensures Covered(s.bumps, CountersFor(r.req), r.versions, |s.log|)
    ensures FromDatabase(s, r.req, Execute(r.req, s.log, s.now), |s.log|, s.now)
  {
    assert s.log[..|s.log|] == s.log;
  }

  lemma NextInv(s: State, step: Step)
    requires Inv(s)
    ensures Inv(Next(s, step))
  {
    var s' := Next(s, step);
    NextExtends(s, step);
    NextBumpsGood(s, step);
    forall key | key in s'.store ensures EntryGood(s', key.0, key.1, s'.store[key]) {
      if key in s.store && s'.store[key] == s.store[key] {
        GoodStaysGood(s, s', key.0, key.1, s.store[key].value, s.store[key].seen, s.store[key].at);
      } else {
        ReaderStaysGood(s, s', s.readers[step.id]);
      }
    }
    forall id | id in s'.readers ensures ReaderGood(s', s'.readers[id]) {
      if id in s.readers {
        ReaderStaysGood(s, s', s.readers[id]);
      }
      if id !in s.readers || s'.readers[id] != s.readers[id] {
        StepReaderGood(s, step, id);
      }
    }
  }

  lemma StepReaderGood(s: State, step: Step, id: nat)
    requires Inv(s) && id in Next(s, step).readers
    requires id !in s.readers || Next(s, step).readers[id] != s.readers[id]
    ensures ReaderGood(Next(s, step), Next(s, step).readers[id])
  {
    match step {
      case TakesVersions(_, req) => FreshVersionsCovered(s, req);
      case Hits(_) =>
        var r := s.readers[id];
        assert EntryGood(s, r.req, r.versions, s.store[(r.req, r.versions)]);
      case Queries(_) => QueryCovered(s, s.readers[id]);
      case _ =>
    }
  }

  lemma {:induction false} RunInv(s: State, steps: seq<Step>)
    requires Inv(s)
    ensures Inv(Run(s, steps)) && Extends(s, Run(s, steps))
  {
    if steps != [] {
      RunInv(s, steps[..|steps| - 1]);
      NextInv(Run(s, steps[..|steps| - 1]), steps[|steps| - 1]);
      NextExtends(Run(s, steps[..|steps| - 1]), steps[|steps| - 1]);
    }
  }

  /**
    In every run, each entry answers from a database that held every commit
    among the bumps its version numbers count.
  */
  lemma EntriesContainTheirBumps(steps: seq<Step>, key: (Request, Versions), j: nat, i: nat)
    requires key in Run(EMPTY, steps).store
    ensures var s := Run(EMPTY, steps);
            var e := s.store[key];
            && e.seen <= |s.log| && e.value == Execute(key.0, s.log[..e.seen], e.at)
            && |key.1| == |CountersFor(key.0)|
            && (j < |key.1| && i < key.1[j] ==>
                  && i < |BumpsOf(s.bumps, CountersFor(key.0)[j])|
                  && BumpsOf(s.bumps, CountersFor(key.0)[j])[i] < e.seen)
  {
    RunInv(EMPTY, steps);
    assert EntryGood(Run(EMPTY, steps), key.0, key.1, Run(EMPTY, steps).store[key]);
  }

  // ----- what readers get -----

  /** The state in which a read begins, after any run from the empty system. */
  ghost function Begin(before: seq<Step>): State {
    Run(EMPTY, before)
  }

  /** The state after that read took its versions and anything else happened. */
  ghost function End(before: seq<Step>, id: nat, req: Request, after: seq<Step>): State {
    Run(Next(Begin(before), TakesVersions(id, req)), after)
  }

  ghost predicate Answers(before: seq<Step>, id: nat, req: Request, after: seq<Step>) {
    id !in Begin(before).readers
    && id in End(before, id, req, after).readers
    && End(before, id, req, after).readers[id].Answered?
  }

  lemma {:induction false} ReaderKeepsOrigin(s: State, id: nat, steps: seq<Step>)
    requires id in s.readers
    ensures id in Run(s, steps).readers
    ensures Run(s, steps).readers[id].req == s.readers[id].req
    ensures Run(s, steps).readers[id].versions == s.readers[id].versions
  {
    if steps != [] {
      ReaderKeepsOrigin(s, id, steps[..|steps| - 1]);
    }
  }

  lemma AnswerIsGood(before: seq<Step>, id: nat, req: Request, after: seq<Step>)
    requires Answers(before, id, req, after)
    ensures var s0, s := Begin(before), End(before, id, req, after);
            var r := s.readers[id];
            && Inv(s0) && Inv(s) && Extends(s0, s)
            && r.req == req && r.versions == VersionsNow(s0.bumps, CountersFor(req))
            && FromDatabase(s, req, r.value, r.seen, r.at)
            && Covered(s.bumps, CountersFor(req), r.versions, r.seen)
  {
    var s0, s1 := Begin(before), Next(Begin(before), TakesVersions(id, req));
    RunInv(EMPTY, before);
    NextInv(s0, TakesVersions(id, req));
    NextExtends(s0, TakesVersions(id, req));
    RunInv(s1, after);
    ReaderKeepsOrigin(s1, id, after);
    assert ReaderGood(End(before, id, req, after), End(before, id, req, after).readers[id]);
  }

  /**
    Main result. In every interleaving, a read answers with what the database
    held at some moment, and that moment is after every relevant commit whose
    bump had landed when the read took its versions: no pre-write data.
  */
  lemma ReadsSeeBumpedWrites(before: seq<Step>, id: nat, req: Request, after: seq<Step>, c: Counter, i: nat)
    requires Answers(before, id, req, after)
    requires c in CountersFor(req) && i in BumpsOf(Begin(before).bumps, c)
    ensures var s := End(before, id, req, after);
            var r := s.readers[id];
            i < r.seen <= |s.log| && r.at <= s.now && r.value == Execute(req, s.log[..r.seen], r.at)
  {
    AnswerIsGood(before, id, req, after);
    var s := End(before, id, req, after);
    BumpedIsCovered(Begin(before), s, req, s.readers[id].seen, c, i);
  }

  /** No relevant commit is waiting for its bump. */
  ghost predicate Settled(s: State, counters: seq<Counter>) {
    forall i :: i in s.pending && i < |s.log| ==> CounterOf(s.log[i]) !in counters
  }

  /**
    An answer that covers the versions taken in `s0`, with nothing relevant
    outstanding there, saw every relevant commit `s0` had.
  */
  lemma SettledMeansSeen(s0: State, s: State, req: Request, seen: nat)
    requires BumpsGood(s0) && Extends(s0, s) && Settled(s0, CountersFor(req))
    requires Covered(s.bumps, CountersFor(req), VersionsNow(s0.bumps, CountersFor(req)), seen)
    ensures |s0.log| <= |s.log| && QuietBetween(s.log, CountersFor(req), seen, |s0.log|)
  {
    forall i | seen <= i < |s0.log| ensures CounterOf(s.log[i]) !in CountersFor(req) {
      var c := CounterOf(s0.log[i]);
      if c in CountersFor(req) {
        assert i in BumpsOf(s0.bumps, c);
        BumpedIsCovered(s0, s, req, seen, c, i);
      }
    }
  }

  lemma BumpedIsCovered(s0: State, s: State, req: Request, seen: nat, c: Counter, i: nat)
    requires Extends(s0, s) && c in CountersFor(req) && i in BumpsOf(s0.bumps, c)
    requires Covered(s.bumps, CountersFor(req), VersionsNow(s0.bumps, CountersFor(req)), seen)
    ensures i < seen
  {
    var j :| 0 <= j < |CountersFor(req)| && CountersFor(req)[j] == c;
    var k :| 0 <= k < |BumpsOf(s0.bumps, c)| && BumpsOf(s0.bumps, c)[k] == i;
    assert BumpsOf(s.bumps, c)[k] == i;
  }

  /** So it is a direct read of the database at some moment from `s0` on. */
  lemma SettledAnswerIsDirect(s0: State, s: State, req: Request, value: Response, seen: nat, at: int) returns (n: nat)
    requires BumpsGood(s0) && Extends(s0, s) && Settled(s0, CountersFor(req))
    requires FromDatabase(s, req, value, seen, at)
    requires Covered(s.bumps, CountersFor(req), VersionsNow(s0.bumps, CountersFor(req)), seen)
    ensures |s0.log| <= n <= |s.log| && value == Execute(req, s.log[..n], at)
  {
    SettledMeansSeen(s0, s, req, seen);
    n := seen;
    if n < |s0.log| {
      SameAnswer(req, s.log, n, |s0.log|, at);
      n := |s0.log|;
    }
  }

  /**
    Main result. With no relevant bump outstanding when it begins, a cached read
    answers from the database as it was at some moment of its own duration. For
    everything but a session list that makes it a direct read then; a session list
    also depends on the clock of its query, see CachedWindowAgesGracefully.
  */
  lemma CachedReadIsDirectRead(before: seq<Step>, id: nat, req: Request, after: seq<Step>) returns (n: nat)
    requires Answers(before, id, req, after) && Settled(Begin(before), CountersFor(req))
    ensures var s0, s := Begin(before), End(before, id, req, after);
            && |s0.log| <= n <= |s.log|
            && s.readers[id].value == Execute(req, s.log[..n], s.readers[id].at)
            && (!req.ListStudySessions? ==> s.readers[id].value == Execute(req, s.log[..n], s.now))
  {
    AnswerIsGood(before, id, req, after);
    var s := End(before, id, req, after);
    n := SettledAnswerIsDirect(Begin(before), s, req, s.readers[id].value, s.readers[id].seen, s.readers[id].at);
    if !req.ListStudySessions? {
      OnlyWindowsReadTheClock(req, s.log[..n], s.readers[id].at, s.now);
    }
  }

  /** If moreover no relevant commit falls within the read, it equals a direct read at its end. */
  lemma UndisturbedReadIsCurrent(before: seq<Step>, id: nat, req: Request, after: seq<Step>)
    requires Answers(before, id, req, after) && Settled(Begin(before), CountersFor(req))
    requires var s0, s := Begin(before), End(before, id, req, after);
             |s0.log| <= |s.log| && QuietBetween(s.log, CountersFor(req), |s0.log|, |s.log|)
    ensures var s := End(before, id, req, after);
            && s.readers[id].at <= s.now
            && s.readers[id].value == Execute(req, s.log, s.readers[id].at)
            && (!req.ListStudySessions? ==> s.readers[id].value == Execute(req, s.log, s.now))
  {
    AnswerIsGood(before, id, req, after);
    var n := CachedReadIsDirectRead(before, id, req, after);
    var s := End(before, id, req, after);
    SameAnswer(req, s.log, n, |s.log|, s.readers[id].at);
    assert s.log[..|s.log|] == s.log;
    if !req.ListStudySessions? {
      OnlyWindowsReadTheClock(req, s.log, s.readers[id].at, s.now);
    }
  }

  /** A session list `cached`, queried at `at`, against the window `direct` at `now`: nothing missing, only aged extras. */
  ghost predicate OnlyAgedExtras(cached: seq<Allocation.Session>, direct: seq<Allocation.Session>, width: int, at: int, now: int) {
    && direct == OccurredSince(cached, now - width)
    && forall x :: x in cached && x !in direct ==> at - width <= x.occurredAt < now - width
  }

  lemma WindowAnswerAges(req: Request, log: Log, at: int, now: int)
    requires req.ListStudySessions? && at <= now
    ensures Execute(req, log, at).SessionList?
    ensures OnlyAgedExtras(Execute(req, log, at).sessions, SessionsInWindow(log, req.owner, req.window, now),
                           WindowSeconds(req.window), at, now)
  {
    WindowAgesGracefully(log, req.owner, req.window, at, now);
  }

  /**
    Main result. A cached session list, with no study bump outstanding when the
    read begins, holds every session of the true window at the read's end, in
    order, as the database had them at some moment of the read; its only extras
    left the window since the entry was queried.
  */
  lemma CachedWindowAgesGracefully(before: seq<Step>, id: nat, req: Request, after: seq<Step>) returns (n: nat)
    requires req.ListStudySessions?
    requires Answers(before, id, req, after) && Settled(Begin(before), CountersFor(req))
    ensures var s0, s := Begin(before), End(before, id, req, after);
            && |s0.log| <= n <= |s.log| && s.readers[id].value.SessionList?
            && OnlyAgedExtras(s.readers[id].value.sessions, SessionsInWindow(s.log[..n], req.owner, req.window, s.now),
                              WindowSeconds(req.window), s.readers[id].at, s.now)
  {
    AnswerIsGood(before, id, req, after);
    n := CachedReadIsDirectRead(before, id, req, after);
    var s := End(before, id, req, after);
    WindowAnswerAges(req, s.log[..n], s.readers[id].at, s.now);
  }

  /** If moreover no study commit falls within the read, that is the window at its end. */
  lemma CachedWindowHasOnlyAgedExtras(before: seq<Step>, id: nat, req: Request, after: seq<Step>)
    requires req.ListStudySessions?
    requires Answers(before, id, req, after) && Settled(Begin(before), CountersFor(req))
    requires var s0, s := Begin(before), End(before, id, req, after);
             |s0.log| <= |s.log| && QuietBetween(s.log, CountersFor(req), |s0.log|, |s.log|)
    ensures var s := End(before, id, req, after);
            && s.readers[id].value.SessionList?
            && OnlyAgedExtras(s.readers[id].value.sessions, SessionsInWindow(s.log, req.owner, req.window, s.now),
                              WindowSeconds(req.window), s.readers[id].at, s.now)
  {
    UndisturbedReadIsCurrent(before, id, req, after);
    var s := End(before, id, req, after);
    WindowAnswerAges(req, s.log, s.readers[id].at, s.now);
  }

  /** A read that misses and fills the cache, with nothing else in between. */
  function MissingRead(id: nat, req: Request): seq<Step> {
    [TakesVersions(id, req), Misses(id), Queries(id), Stores(id, true)]
  }

  lemma RunFour(s: State, a: Step, b: Step, c: Step, d: Step)
    ensures Run(s, [a, b, c, d]) == Next(Next(Next(Next(s, a), b), c), d)
  {
    assert [a, b, c, d][..3] == [a, b, c] && [a, b, c][..2] == [a, b] && [a, b][..1] == [a] && [a][..0] == [];
    assert Run(s, [a]) == Next(s, a);
    assert Run(s, [a, b]) == Next(Next(s, a), b);
    assert Run(s, [a, b, c]) == Next(Next(Next(s, a), b), c);
  }

  /** It answers, and stores, what the database holds, under the versions as they stand. */
  lemma MissedRead(s: State, id: nat, req: Request)
    requires id !in s.readers && Execute(req, s.log, s.now) != NotFound
    ensures var versions, value := VersionsNow(s.bumps, CountersFor(req)), Execute(req, s.log, s.now);
            Run(s, MissingRead(id, req)) ==
              s.(readers := s.readers[id := Answered(req, versions, |s.log|, value, |s.log|, s.now)],
                 store := s.store[(req, versions) := Entry(value, |s.log|, s.now)])
  {
    var versions, value := VersionsNow(s.bumps, CountersFor(req)), Execute(req, s.log, s.now);
    RunFour(s, TakesVersions(id, req), Misses(id), Queries(id), Stores(id, true));
    var s1 := WithReader(s, id, Versioned(req, versions, |s.log|));
    var s2 := WithReader(s, id, Missed(req, versions, |s.log|));
    var s3 := WithReader(s, id, Queried(req, versions, |s.log|, value, |s.log|, s.now));
    assert Next(s, TakesVersions(id, req)) == s1;
    assert Next(s1, Misses(id)) == s2 by { Overwrite(s, id, s1.readers[id], s2.readers[id]); }
    assert Next(s2, Queries(id)) == s3 by { Overwrite(s, id, s2.readers[id], s3.readers[id]); }
    Overwrite(s, id, s3.readers[id], Answered(req, versions, |s.log|, value, |s.log|, s.now));
  }

  function WithReader(s: State, id: nat, r: Reader): State {
    s.(readers := s.readers[id := r])
  }

  lemma Overwrite(s: State, id: nat, r: Reader, r': Reader)
    ensures WithReader(WithReader(s, id, r), id, r') == WithReader(s, id, r')
  {}

  // ----- the store's keys as Redis sees them -----

  /** Owners, items and tracks print without a colon, and a streak's day is one Python has. */
  predicate Storable(req: Request) {
    match req
    case ListNotes(owner) => CacheKeys.Plain(owner.text)
    case GetNote(owner, note) => CacheKeys.Plain(owner.text) && CacheKeys.Plain(note.text)
    case ListTasks(owner, _) => CacheKeys.Plain(owner.text)
    case GetTask(owner, task) => CacheKeys.Plain(owner.text) && CacheKeys.Plain(task.text)
    case GetExamConfig(track) => CacheKeys.Plain(track.text)
    case ListSubjects(track) => CacheKeys.Plain(track.text)
    case ListStudySessions(owner, _) => CacheKeys.Plain(owner.text)
    case ComputeStreak(owner, asOf) => CacheKeys.Plain(owner.text) && Calendar.FIRST_DAY <= asOf <= Calendar.LAST_DAY
  }

  /** The key text of an entry. */
  function KeyFor(req: Request, versions: Versions): CacheKeys.Key
    requires Storable(req) && |versions| == |CountersFor(req)|
  {
    match req
    case ListNotes(owner) => CacheKeys.NotesList(owner.text, versions[0])
    case GetNote(owner, note) => CacheKeys.NotesItem(owner.text, versions[0], note.text)
    case ListTasks(owner, status) => CacheKeys.TasksList(owner.text, versions[0], status)
    case GetTask(owner, task) => CacheKeys.TasksItem(owner.text, versions[0], task.text)
    case GetExamConfig(track) => CacheKeys.ExamConfig(track.text, versions[0])
    case ListSubjects(track) => CacheKeys.ExamSubjects(track.text, versions[0])
    case ListStudySessions(owner, window) => CacheKeys.StudySessions(owner.text, versions[0], window)
    case ComputeStreak(owner, asOf) => CacheKeys.Streak(owner.text, Calendar.DateOf(asOf), versions)
  }

  lemma KeyIsValid(req: Request, versions: Versions)
    requires Storable(req) && |versions| == |CountersFor(req)|
    ensures CacheKeys.ValidKey(KeyFor(req, versions))
  {
    if req.ComputeStreak? {
      Calendar.FourDigitYears(req.asOf);
    }
  }

  lemma KeyForInjective(a: Request, v: Versions, b: Request, w: Versions)
    requires Storable(a) && Storable(b) && |v| == |CountersFor(a)| && |w| == |CountersFor(b)|
    requires KeyFor(a, v) == KeyFor(b, w)
    ensures a == b && v == w
  {
    if a.ComputeStreak? && b.ComputeStreak? {
      Calendar.DateOfInjective(a.asOf, b.asOf);
    }
    assert forall i :: 0 <= i < |v| ==> v[i] == w[i];
  }

  /** Entries under different requests or versions are stored under different texts, and never over a counter. */
  lemma StoreKeysNeverCollide(a: Request, v: Versions, b: Request, w: Versions, c: Counter)
    requires Storable(a) && Storable(b) && |v| == |CountersFor(a)| && |w| == |CountersFor(b)|
    requires CacheKeys.Plain(c.subject.text)
    ensures CacheKeys.Print(KeyFor(a, v)) == CacheKeys.Print(KeyFor(b, w)) <==> a == b && v == w
    ensures CacheKeys.Print(KeyFor(a, v)) != CacheKeys.Print(CacheKeys.Version(c.scope, c.subject.text))
  {
    KeyIsValid(a, v);
    KeyIsValid(b, w);
    CacheKeys.KeysAreInjective(KeyFor(a, v), KeyFor(b, w));
    CacheKeys.KeysAreInjective(KeyFor(a, v), CacheKeys.Version(c.scope, c.subject.text));
    if KeyFor(a, v) == KeyFor(b, w) {
      KeyForInjective(a, v, b, w);
    }
  }
}
