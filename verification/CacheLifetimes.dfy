/**
  What entry lifetimes guarantee when everything else fails (core/cache.py).
  Reads here take whatever versions they like: a failed version read yields 0, a
  dropped bump leaves a counter behind, a lost counter starts over. All that is
  left is that an entry expires `ttl` seconds after it was stored.
*/
module CacheLifetimes {
  import opened Options
  import opened Database

  type Versions = seq<nat>

  datatype Entry = Entry(value: Response, seen: nat, queriedAt: int, storedAt: int)

  datatype Reader =
    | Begun(req: Request, versions: Versions)
    | Queried(req: Request, versions: Versions, value: Response, seen: nat, queriedAt: int)
    | Answered(req: Request, value: Response, seen: nat, queriedAt: int, answeredAt: int)

  /** `times` says when each commit of the log was made. */
  datatype State = State(
    log: Log, times: seq<int>, store: map<(Request, Versions), Entry>, readers: map<nat, Reader>, now: int)

  datatype Step =
    | Commits(commit: Commit)
    | Waits(seconds: nat)
    | Begins(id: nat, req: Request, versions: Versions)
    | Hits(id: nat)
    | Queries(id: nat)
    | Stores(id: nat, accepted: bool)
    | Drops(key: (Request, Versions))

  const EMPTY := State([], [], map[], map[], 0)

  ghost function Next(s: State, step: Step, ttl: nat): State {
    match step
    case Commits(c) => s.(log := s.log + [c], times := s.times + [s.now])
    case Waits(seconds) => s.(now := s.now + seconds)
    case Begins(id, req, versions) =>
      if id in s.readers then s else s.(readers := s.readers[id := Begun(req, versions)])
    case Hits(id) =>
      if id !in s.readers || !s.readers[id].Begun? then s
      else
        var r := s.readers[id];
        if (r.req, r.versions) !in s.store || s.now >= s.store[(r.req, r.versions)].storedAt + ttl then s
        else
          var e := s.store[(r.req, r.versions)];
          s.(readers := s.readers[id := Answered(r.req, e.value, e.seen, e.queriedAt, s.now)])
    case Queries(id) =>
      if id !in s.readers || !s.readers[id].Begun? then s
      else
        var r := s.readers[id];
        s.(readers := s.readers[id := Queried(r.req, r.versions, Execute(r.req, s.log, s.now), |s.log|, s.now)])
    case Stores(id, accepted) =>
      if id !in s.readers || !s.readers[id].Queried? then s
      else
        var r := s.readers[id];
        s.(readers := s.readers[id := Answered(r.req, r.value, r.seen, r.queriedAt, s.now)],
           store := if accepted && r.value != NotFound
                    then s.store[(r.req, r.versions) := Entry(r.value, r.seen, r.queriedAt, s.now)] else s.store)
    case Drops(key) => s.(store := s.store - {key})
  }

  ghost function Run(steps: seq<Step>, ttl: nat): State {
    if steps == [] then EMPTY else Next(Run(steps[..|steps| - 1], ttl), steps[|steps| - 1], ttl)
  }

  /** Every read stores, or gives up on storing, within `slow` seconds of its query. */
  ghost predicate StoresWithin(steps: seq<Step>, ttl: nat, slow: nat) {
    steps == [] ||
    (StoresWithin(steps[..|steps| - 1], ttl, slow) && InTime(Run(steps[..|steps| - 1], ttl), steps[|steps| - 1], slow))
  }

  ghost predicate InTime(s: State, step: Step, slow: nat) {
    step.Stores? && step.id in s.readers && s.readers[step.id].Queried? ==> s.now <= s.readers[step.id].queriedAt + slow
  }

  // ----- the invariant -----

  /** `value` is what the database answered at `at`, and only commits from then on were not in it. */
  ghost predicate AnsweredFrom(s: State, req: Request, value: Response, seen: nat, at: int) {
    && seen <= |s.log| == |s.times| && at <= s.now && value == Execute(req, s.log[..seen], at)
    && forall i :: seen <= i < |s.times| ==> at <= s.times[i]
  }

  ghost predicate ReaderGood(s: State, r: Reader, ttl: nat, slow: nat) {
    match r
    case Begun(_, _) => true
    case Queried(req, _, value, seen, at) => AnsweredFrom(s, req, value, seen, at)
    case Answered(req, value, seen, at, answeredAt) =>
      AnsweredFrom(s, req, value, seen, at) && answeredAt <= s.now && answeredAt < at + slow + ttl
  }

  ghost predicate EntryGood(s: State, req: Request, e: Entry, slow: nat) {
    AnsweredFrom(s, req, e.value, e.seen, e.queriedAt) && e.storedAt <= e.queriedAt + slow
  }

  ghost predicate Inv(s: State, ttl: nat, slow: nat) {
    && |s.log| == |s.times|
    && (forall key :: key in s.store ==> EntryGood(s, key.0, s.store[key], slow))
    && (forall id :: id in s.readers ==> ReaderGood(s, s.readers[id], ttl, slow))
  }

  /** More commits, none before now, and more time. */
  ghost predicate Later(s: State, s': State) {
    && s.log <= s'.log && |s.log| == |s.times| && |s'.log| == |s'.times| && s.times <= s'.times && s.now <= s'.now
    && forall i :: |s.times| <= i < |s'.times| ==> s.now <= s'.times[i]
  }

  lemma StaysAnswered(s: State, s': State, req: Request, value: Response, seen: nat, at: int)
    requires Later(s, s') && AnsweredFrom(s, req, value, seen, at)
    ensures AnsweredFrom(s', req, value, seen, at)
  {
    assert s'.log[..seen] == s.log[..seen];
    forall i | seen <= i < |s'.times| ensures at <= s'.times[i] {
      if i < |s.times| {
        assert s'.times[i] == s.times[i];
      }
    }
  }

  lemma ReaderStaysGood(s: State, s': State, r: Reader, ttl: nat, slow: nat)
    requires Later(s, s') && ReaderGood(s, r, ttl, slow)
    ensures ReaderGood(s', r, ttl, slow)
  {
    match r {
      case Begun(_, _) =>
      case Queried(req, _, value, seen, at) => StaysAnswered(s, s', req, value, seen, at);
      case Answered(req, value, seen, at, _) => StaysAnswered(s, s', req, value, seen, at);
    }
  }

  lemma NextLater(s: State, step: Step, ttl: nat)
    requires |s.log| == |s.times|
    ensures Later(s, Next(s, step, ttl))
  {}

  lemma NewReaderGood(s: State, step: Step, id: nat, ttl: nat, slow: nat)
    requires Inv(s, ttl, slow) && InTime(s, step, slow) && ttl >= 1 && id in Next(s, step, ttl).readers
    requires id !in s.readers || Next(s, step, ttl).readers[id] != s.readers[id]
    ensures ReaderGood(s, Next(s, step, ttl).readers[id], ttl, slow)
  {
    if step.Hits? {
      var r := s.readers[id];
      assert EntryGood(s, r.req, s.store[(r.req, r.versions)], slow);
    } else if step.Queries? {
      assert s.log[..|s.log|] == s.log;
    } else if step.Stores? {
      assert ReaderGood(s, s.readers[id], ttl, slow);
    }
  }

  lemma NextInv(s: State, step: Step, ttl: nat, slow: nat)
    requires Inv(s, ttl, slow) && InTime(s, step, slow) && ttl >= 1
    ensures Inv(Next(s, step, ttl), ttl, slow)
  {
    var s' := Next(s, step, ttl);
    NextLater(s, step, ttl);
    forall id | id in s'.readers ensures ReaderGood(s', s'.readers[id], ttl, slow) {
      if id !in s.readers || s'.readers[id] != s.readers[id] {
        NewReaderGood(s, step, id, ttl, slow);
      }
      ReaderStaysGood(s, s', s'.readers[id], ttl, slow);
    }
    forall key | key in s'.store ensures EntryGood(s', key.0, s'.store[key], slow) {
      if key !in s.store || s'.store[key] != s.store[key] {
        assert ReaderGood(s, s.readers[step.id], ttl, slow);
      } else {
        assert EntryGood(s, key.0, s.store[key], slow);
      }
      StaysAnswered(s, s', key.0, s'.store[key].value, s'.store[key].seen, s'.store[key].queriedAt);
    }
  }

  lemma {:induction false} RunInv(steps: seq<Step>, ttl: nat, slow: nat)
    requires StoresWithin(steps, ttl, slow) && ttl >= 1
    ensures Inv(Run(steps, ttl), ttl, slow)
  {
    if steps != [] {
      RunInv(steps[..|steps| - 1], ttl, slow);
      NextInv(Run(steps[..|steps| - 1], ttl), steps[|steps| - 1], ttl, slow);
    }
  }

  /**
    Main result. Whatever became of versions and bumps: a read answers with what
    the database held at some moment, and has seen every commit that was at least
    `ttl + slow` seconds old when it got its answer.
  */
  lemma LifetimesBoundStaleness(steps: seq<Step>, ttl: nat, slow: nat, id: nat, i: nat)
    requires StoresWithin(steps, ttl, slow) && ttl >= 1
    requires var s := Run(steps, ttl); id in s.readers && s.readers[id].Answered?
    ensures var s := Run(steps, ttl);
            var r := s.readers[id];
            && |s.times| == |s.log|
            && r.seen <= |s.log| && r.value == Execute(r.req, s.log[..r.seen], r.queriedAt)
            && (i < |s.log| && s.times[i] + ttl + slow <= r.answeredAt ==> i < r.seen)
  {
    RunInv(steps, ttl, slow);
    assert ReaderGood(Run(steps, ttl), Run(steps, ttl).readers[id], ttl, slow);
  }

  // ----- and the bound is reached -----

  lemma RunAppend(steps: seq<Step>, step: Step, ttl: nat, slow: nat)
    ensures Run(steps + [step], ttl) == Next(Run(steps, ttl), step, ttl)
    ensures StoresWithin(steps + [step], ttl, slow) <==>
              StoresWithin(steps, ttl, slow) && InTime(Run(steps, ttl), step, slow)
  {
    assert (steps + [step])[..|steps|] == steps;
  }

  /** A read queries; a note is written, its bump dropped; the read stores as late as it may. */
  function StoredLate(owner: Id, note: Id, row: Note, slow: nat): seq<Step> {
    [] + [Begins(0, ListNotes(owner), [0])] + [Queries(0)] + [Commits(NoteWritten(owner, note, Some(row)))]
    + [Waits(slow)] + [Stores(0, true)]
  }

  lemma StoredLateState(owner: Id, note: Id, row: Note, ttl: nat, slow: nat)
    ensures StoresWithin(StoredLate(owner, note, row, slow), ttl, slow)
    ensures Run(StoredLate(owner, note, row, slow), ttl) ==
              State([NoteWritten(owner, note, Some(row))], [0],
                    map[(ListNotes(owner), [0]) := Entry(Notes(map[]), 0, 0, slow)],
                    map[0 := Answered(ListNotes(owner), Notes(map[]), 0, 0, slow)], slow)
  {
    var a, b, c, d, e := Begins(0, ListNotes(owner), [0]), Queries(0), Commits(NoteWritten(owner, note, Some(row))), Waits(slow), Stores(0, true);
    RunAppend([], a, ttl, slow);
    RunAppend([] + [a], b, ttl, slow);
    assert Execute(ListNotes(owner), [], 0) == Notes(map[]);
    RunAppend([] + [a] + [b], c, ttl, slow);
    assert [] + [NoteWritten(owner, note, Some(row))] == [NoteWritten(owner, note, Some(row))] && [] + [0] == [0];
    RunAppend([] + [a] + [b] + [c], d, ttl, slow);
    RunAppend([] + [a] + [b] + [c] + [d], e, ttl, slow);
  }

  /** One second before it expires, the entry is looked up once more; its version never moved. */
  function FoundLate(owner: Id, note: Id, row: Note, ttl: nat, slow: nat): seq<Step>
    requires ttl >= 1
  {
    StoredLate(owner, note, row, slow) + [Waits(ttl - 1)] + [Begins(1, ListNotes(owner), [0])] + [Hits(1)]
  }

  lemma FoundLateState(owner: Id, note: Id, row: Note, ttl: nat, slow: nat)
    requires ttl >= 1
    ensures StoresWithin(FoundLate(owner, note, row, ttl, slow), ttl, slow)
    ensures var s := Run(FoundLate(owner, note, row, ttl, slow), ttl);
            && s.log == [NoteWritten(owner, note, Some(row))] && s.times == [0]
            && 1 in s.readers && s.readers[1] == Answered(ListNotes(owner), Notes(map[]), 0, 0, ttl + slow - 1)
  {
    var steps := StoredLate(owner, note, row, slow);
    var a, b, c := Waits(ttl - 1), Begins(1, ListNotes(owner), [0]), Hits(1);
    StoredLateState(owner, note, row, ttl, slow);
    RunAppend(steps, a, ttl, slow);
    RunAppend(steps + [a], b, ttl, slow);
    RunAppend(steps + [a] + [b], c, ttl, slow);
  }

  /** So an answer can miss a commit that is one second short of the bound. */
  lemma StalenessBoundIsReached(owner: Id, note: Id, row: Note, ttl: nat, slow: nat)
    requires ttl >= 1
    ensures var s := Run(FoundLate(owner, note, row, ttl, slow), ttl);
            && StoresWithin(FoundLate(owner, note, row, ttl, slow), ttl, slow) && s.times == [0] && |s.log| == 1
            && 1 in s.readers && s.readers[1].Answered? && s.readers[1].answeredAt == ttl + slow - 1
            && s.readers[1].seen == 0 && s.readers[1].value != Execute(ListNotes(owner), s.log, s.now)
  {
    FoundLateState(owner, note, row, ttl, slow);
    var log := [NoteWritten(owner, note, Some(row))];
    assert log[..0] == [];
    assert note in NotesOf(log, owner);
  }
}
