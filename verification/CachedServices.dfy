/**
  The shape every cached service has (services/note_service.py and its
  siblings), statement by statement: a read takes its versions, looks up,
  queries and stores; a write commits and bumps. Each `await` lets others run.
  They are told apart from the protocol only by what they promise: to keep its
  invariant and rewrite no history. So does the code here.
*/
module CachedServices {
  import opened Database
  import opened CacheProtocol
  import opened Contents
  import opened Options
  import Tasks

  /** What others may do to Postgres and Redis during one `await`. */
  type Others = State -> State

  ghost predicate Harmless(others: Others) {
    forall s :: Inv(s) ==> Inv(others(s)) && Extends(s, others(s))
  }

  /** Any run of other readers and writers is harmless. */
  lemma RunsAreHarmless(steps: seq<Step>)
    ensures Harmless((s: State) => Run(s, steps))
  {
    forall s | Inv(s) ensures Inv(Run(s, steps)) && Extends(s, Run(s, steps)) {
      RunInv(s, steps);
    }
  }

  /** The database answering one request; row order, where unspecified, is its own. */
  type Query = (Log, int) -> Response

  ghost predicate Answering(query: Query, req: Request) {
    forall log, now :: query(log, now) == Execute(req, log, now)
  }

  /** Some moment's answer, no older than the bumps that had landed in `s0`. */
  ghost predicate FreshFrom(s0: State, s: State, req: Request, value: Response) {
    exists seen, at ::
      FromDatabase(s, req, value, seen, at)
      && Covered(s.bumps, CountersFor(req), VersionsNow(s0.bumps, CountersFor(req)), seen)
  }

  /** The cache holds this answer for the next read that takes the same versions. */
  predicate Holds(s: State, req: Request, versions: Versions, value: Response) {
    (req, versions) in s.store && s.store[(req, versions)].value == value
  }

  class Service {
    var s: State

    constructor ()
      ensures s == EMPTY && Inv(s)
    {
      s := EMPTY;
    }

    /** A cached read, awaiting three times. A failing lookup is a miss, a failing store is ignored. */
    method CachedRead(req: Request, query: Query, lookupFails: bool, storeFails: bool, a: Others, b: Others, c: Others)
      returns (value: Response)
      requires Inv(s) && Answering(query, req) && Harmless(a) && Harmless(b) && Harmless(c)
      modifies this
      ensures Inv(s) && Extends(old(s), s)
      ensures FreshFrom(old(s), s, req, value)
      ensures value != NotFound && !storeFails ==> Holds(s, req, VersionsNow(old(s).bumps, CountersFor(req)), value)
    {
      ghost var s0 := s;
      var versions := VersionsNow(s.bumps, CountersFor(req));
      Await(s0, s, a);
      s := a(s);
      if (req, versions) in s.store && !lookupFails {
        HitIsFresh(s0, s, req);
        return s.store[(req, versions)].value;
      }
      Await(s0, s, b);
      s := b(s);
      value := QueryAndStore(s0, req, versions, query, storeFails, c);
    }

    /** What a miss goes on to do; its versions were taken in `s0`. */
    method QueryAndStore(ghost s0: State, req: Request, versions: Versions, query: Query, storeFails: bool, c: Others)
      returns (value: Response)
      requires Inv(s) && Answering(query, req) && Harmless(c)
      requires BumpsGood(s0) && Extends(s0, s) && versions == VersionsNow(s0.bumps, CountersFor(req))
      modifies this
      ensures Inv(s) && Extends(s0, s)
      ensures FreshFrom(s0, s, req, value)
      ensures value != NotFound && !storeFails ==> Holds(s, req, versions, value)
    {
      value := query(s.log, s.now);
      var entry := Entry(value, |s.log|, s.now);
      QueriedIsGood(s0, s, req, entry);
      Await(s0, s, c);
      MissIsFresh(s0, s, c(s), req, entry);
      s := c(s);
      if value != NotFound && !storeFails {
        s := s.(store := s.store[(req, versions) := entry]);
      }
    }

    /** A write: commit, then bump once others have had their turn. */
    method CommitAndBump(commit: Commit, others: Others) returns (index: nat)
      requires Inv(s) && Harmless(others)
      modifies this
      ensures Inv(s) && Extends(old(s), s)
      ensures |old(s).log| <= index < |s.log| && s.log[index] == commit
      ensures index in BumpsOf(s.bumps, CounterOf(commit))
    {
      index := |s.log|;
      ghost var s0 := s;
      NextInv(s, Commits(commit));
      s := s.(log := s.log + [commit], pending := s.pending + {index});
      Await(s0, s, others);
      CommitStays(s0, s, others(s), commit);
      s := others(s);
      BumpingKeepsInv(s, index);
      ExtendsTransitive(s0, s, Bumped(s, index));
      s := Bumped(s, index);
    }
  }

  /** One `await` since `s0`. */
  lemma Await(s0: State, s: State, others: Others)
    requires Inv(s) && Extends(s0, s) && Harmless(others)
    ensures Inv(others(s)) && Extends(s0, others(s)) && Extends(s, others(s))
  {}

  lemma HitIsFresh(s0: State, s: State, req: Request)
    requires Inv(s) && (req, VersionsNow(s0.bumps, CountersFor(req))) in s.store
    ensures FreshFrom(s0, s, req, s.store[(req, VersionsNow(s0.bumps, CountersFor(req)))].value)
  {
    var versions := VersionsNow(s0.bumps, CountersFor(req));
    assert EntryGood(s, req, versions, s.store[(req, versions)]);
  }

  /** What was queried still answers once the next `await` is over, and may be stored then. */
  lemma MissIsFresh(s0: State, queried: State, s: State, req: Request, entry: Entry)
    requires Inv(s) && Extends(s0, s) && Extends(queried, s)
    requires EntryGood(queried, req, VersionsNow(s0.bumps, CountersFor(req)), entry)
    ensures var s' := s.(store := s.store[(req, VersionsNow(s0.bumps, CountersFor(req))) := entry]);
            && Inv(s') && Extends(s0, s')
            && FreshFrom(s0, s, req, entry.value) && FreshFrom(s0, s', req, entry.value)
  {
    var versions := VersionsNow(s0.bumps, CountersFor(req));
    GoodStaysGood(queried, s, req, versions, entry.value, entry.seen, entry.at);
    StoringKeepsInv(s, req, versions, entry);
  }

  lemma CommitStays(s0: State, committed: State, s: State, commit: Commit)
    requires committed.log == s0.log + [commit] && Extends(committed, s)
    ensures |s0.log| < |s.log| && s.log[|s0.log|] == commit
  {
    assert committed.log[|s0.log|] == commit;
  }

  function Bumped(s: State, index: nat): State
    requires index < |s.log|
  {
    var c := CounterOf(s.log[index]);
    s.(pending := s.pending - {index}, bumps := s.bumps[c := BumpsOf(s.bumps, c) + [index]])
  }

  lemma QueriedIsGood(s0: State, s: State, req: Request, entry: Entry)
    requires BumpsGood(s0) && Extends(s0, s)
    requires entry == Entry(Execute(req, s.log, s.now), |s.log|, s.now)
    ensures EntryGood(s, req, VersionsNow(s0.bumps, CountersFor(req)), entry)
  {
    FreshVersionsCovered(s0, req);
    GoodStaysGood(s0, s, req, VersionsNow(s0.bumps, CountersFor(req)), NotFound, |s0.log|, 0);
    assert s.log[..|s.log|] == s.log;
  }

  lemma StoringKeepsInv(s: State, req: Request, versions: Versions, entry: Entry)
    requires Inv(s) && EntryGood(s, req, versions, entry)
    ensures Inv(s.(store := s.store[(req, versions) := entry]))
  {
    KeepsGood(s, s.(store := s.store[(req, versions) := entry]));
  }

  lemma BumpingKeepsInv(s: State, index: nat)
    requires Inv(s) && index < |s.log|
    ensures Inv(Bumped(s, index)) && Extends(s, Bumped(s, index))
    ensures index in BumpsOf(Bumped(s, index).bumps, CounterOf(s.log[index]))
  {
    var s', c := Bumped(s, index), CounterOf(s.log[index]);
    forall i | 0 <= i < |s'.log| ensures i in s'.pending || i in BumpsOf(s'.bumps, CounterOf(s'.log[i])) {
      if i == index {
        assert BumpsOf(s'.bumps, c)[|BumpsOf(s.bumps, c)|] == i;
      }
    }
    KeepsGood(s, s');
  }

  /** Entries and reads that were good stay good in any extension. */
  lemma KeepsGood(s: State, s': State)
    requires Inv(s) && Extends(s, s')
    ensures forall key :: key in s.store ==> EntryGood(s', key.0, key.1, s.store[key])
    ensures forall id :: id in s.readers ==> ReaderGood(s', s.readers[id])
  {
    forall key | key in s.store ensures EntryGood(s', key.0, key.1, s.store[key]) {
      GoodStaysGood(s, s', key.0, key.1, s.store[key].value, s.store[key].seen, s.store[key].at);
    }
    forall id | id in s.readers ensures ReaderGood(s', s.readers[id]) {
      ReaderStaysGood(s, s', s.readers[id]);
    }
  }

  /**
    Main result. A read that starts after a write returned sees it, whoever
    wrote: its answer is the database's at a moment that includes the commit.
  */
  lemma ReadsSeeReturnedWrites(s0: State, s1: State, s2: State, req: Request, value: Response, index: nat)
    returns (seen: nat, at: int)
    requires Inv(s0) && Extends(s0, s1) && Extends(s1, s2) && FreshFrom(s1, s2, req, value)
    requires index < |s0.log| && index in BumpsOf(s0.bumps, CounterOf(s0.log[index]))
    requires CounterOf(s0.log[index]) in CountersFor(req)
    ensures index < seen <= |s2.log| && s2.log[index] == s0.log[index]
    ensures value == Execute(req, s2.log[..seen], at)
  {
    seen, at :|
      FromDatabase(s2, req, value, seen, at)
      && Covered(s2.bumps, CountersFor(req), VersionsNow(s1.bumps, CountersFor(req)), seen);
    var c := CounterOf(s0.log[index]);
    assert BumpsOf(s0.bumps, c) <= BumpsOf(s1.bumps, c);
    var k :| 0 <= k < |BumpsOf(s0.bumps, c)| && BumpsOf(s0.bumps, c)[k] == index;
    assert BumpsOf(s1.bumps, c)[k] == index;
    BumpedIsCovered(s1, s2, req, seen, c, index);
    assert s1.log[index] == s0.log[index];
  }

  /** A write has returned: it is in the log and its bump has landed. */
  ghost predicate Returned(s: State, index: nat) {
    index < |s.log| && index in BumpsOf(s.bumps, CounterOf(s.log[index]))
  }

  /** As long as nobody writes the note again, a read that starts after a write of it returned shows that write. */
  lemma ReadsShowReturnedNote(s0: State, s1: State, s2: State, owner: Id, note: Id, index: nat, one: Response, list: Response)
    requires Inv(s0) && Extends(s0, s1) && Extends(s1, s2) && Returned(s0, index)
    requires LastNoteWrite(s2.log, index, owner, note)
    ensures var row := s2.log[index].row;
            && (FreshFrom(s1, s2, GetNote(owner, note), one) ==> one == if row.Some? then OneNote(row.value) else NotFound)
            && (FreshFrom(s1, s2, ListNotes(owner), list) ==>
                  && list.Notes? && (note in list.notes <==> row.Some?)
                  && (row.Some? ==> list.notes[note] == row.value))
  {
    assert s0.log[index] == s2.log[index];
    if FreshFrom(s1, s2, GetNote(owner, note), one) {
      var seen, at := ReadsSeeReturnedWrites(s0, s1, s2, GetNote(owner, note), one, index);
      NoteShowsLastWrite(s2.log[..seen], index, owner, note, at);
    }
    if FreshFrom(s1, s2, ListNotes(owner), list) {
      var seen, at := ReadsSeeReturnedWrites(s0, s1, s2, ListNotes(owner), list, index);
      NoteShowsLastWrite(s2.log[..seen], index, owner, note, at);
    }
  }

  /** And the same for tasks; a list filtered by status has the task exactly if it was written with that status. */
  lemma ReadsShowReturnedTask(s0: State, s1: State, s2: State, owner: Id, task: Id, status: Tasks.Status, index: nat,
                              one: Response, some: Response)
    requires Inv(s0) && Extends(s0, s1) && Extends(s1, s2) && Returned(s0, index)
    requires LastTaskWrite(s2.log, index, owner, task)
    ensures var state := s2.log[index].state;
            && (FreshFrom(s1, s2, GetTask(owner, task), one) ==>
                  if state.Some? then one.OneTask? && ShowsState(one.task, state.value) else one == NotFound)
            && (FreshFrom(s1, s2, ListTasks(owner, Some(status)), some) ==>
                  && some.TaskTable?
                  && (task in some.tasks <==> state.Some? && state.value.status == status)
                  && (task in some.tasks ==> ShowsState(some.tasks[task], state.value)))
  {
    assert s0.log[index] == s2.log[index];
    if FreshFrom(s1, s2, GetTask(owner, task), one) {
      var seen, at := ReadsSeeReturnedWrites(s0, s1, s2, GetTask(owner, task), one, index);
      TaskShowsLastWrite(s2.log[..seen], index, owner, task, status, at);
    }
    if FreshFrom(s1, s2, ListTasks(owner, Some(status)), some) {
      var seen, at := ReadsSeeReturnedWrites(s0, s1, s2, ListTasks(owner, Some(status)), some, index);
      TaskShowsLastWrite(s2.log[..seen], index, owner, task, status, at);
    }
  }

  /**
    With no relevant bump outstanding when it starts, a read answers from the
    database of a moment of its own; for all but session lists that is a direct
    read, and a session list is the window then, but for sessions aged out since.
  */
  lemma SettledReadIsDirect(s1: State, s2: State, req: Request, value: Response) returns (n: nat, at: int)
    requires Inv(s1) && Extends(s1, s2) && FreshFrom(s1, s2, req, value) && Settled(s1, CountersFor(req))
    ensures |s1.log| <= n <= |s2.log| && at <= s2.now && value == Execute(req, s2.log[..n], at)
    ensures !req.ListStudySessions? ==> value == Execute(req, s2.log[..n], s2.now)
    ensures req.ListStudySessions? ==>
              && value.SessionList?
              && OnlyAgedExtras(value.sessions, SessionsInWindow(s2.log[..n], req.owner, req.window, s2.now),
                                WindowSeconds(req.window), at, s2.now)
  {
    var seen: nat;
    seen, at :|
      FromDatabase(s2, req, value, seen, at)
      && Covered(s2.bumps, CountersFor(req), VersionsNow(s1.bumps, CountersFor(req)), seen);
    n := SettledAnswerIsDirect(s1, s2, req, value, seen, at);
    if req.ListStudySessions? {
      WindowAnswerAges(req, s2.log[..n], at, s2.now);
    } else {
      OnlyWindowsReadTheClock(req, s2.log[..n], at, s2.now);
    }
  }
}
