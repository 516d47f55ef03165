/**
  The database as its log of commits, and every cached read as a query on a
  prefix of that log. A query under READ COMMITTED sees the commits so far.
*/
module Database {
  import opened Options
  import opened CacheKeys
  import Tasks
  import Allocation
  import Streaks

  datatype Id = Id(text: string)

  datatype Note = Note(title: string, content: string)

  /** What reads and streaks see of a task: not its notification stamps, nor `updated_at`. */
  datatype TaskState = TaskState(
    status: Tasks.Status, due: Option<int>, leadMinutes: Option<int>, completedAt: Option<int>)

  /** Exam reference data of a track. */
  datatype Reference = Reference(subjects: seq<Allocation.Subject>, examDay: int)

  /** One committed write; a missing row is a deletion. */
  datatype Commit =
    | NoteWritten(owner: Id, note: Id, row: Option<Note>)
    | TaskWritten(owner: Id, task: Id, state: Option<TaskState>)
    | SessionLogged(owner: Id, session: Allocation.Session)
    | ReferenceSeeded(track: Id, reference: Reference)

  /** A version counter: a scope and the owner or track it belongs to. */
  datatype Counter = Counter(scope: Scope, subject: Id)

  /** The counter the writer bumps after this commit. */
  function CounterOf(c: Commit): Counter {
    match c
    case NoteWritten(owner, _, _) => Counter(NotesScope, owner)
    case TaskWritten(owner, _, _) => Counter(TasksScope, owner)
    case SessionLogged(owner, _) => Counter(StudyScope, owner)
    case ReferenceSeeded(track, _) => Counter(ExamRefScope, track)
  }

  type Log = seq<Commit>

  // ----- tables -----

  function NotesOf(log: Log, owner: Id): map<Id, Note> {
    if log == [] then map[]
    else
      var before, c := NotesOf(log[..|log| - 1], owner), log[|log| - 1];
      if !c.NoteWritten? || c.owner != owner then before
      else if c.row.Some? then before[c.note := c.row.value]
      else before - {c.note}
  }

  function TasksOf(log: Log, owner: Id): map<Id, TaskState> {
    if log == [] then map[]
    else
      var before, c := TasksOf(log[..|log| - 1], owner), log[|log| - 1];
      if !c.TaskWritten? || c.owner != owner then before
      else if c.state.Some? then before[c.task := c.state.value]
      else before - {c.task}
  }

  function SessionsOf(log: Log, owner: Id): seq<Allocation.Session> {
    if log == [] then []
    else
      var before, c := SessionsOf(log[..|log| - 1], owner), log[|log| - 1];
      if c.SessionLogged? && c.owner == owner then before + [c.session] else before
  }

  function ReferenceOf(log: Log, track: Id): Option<Reference> {
    if log == [] then None
    else
      var c := log[|log| - 1];
      if c.ReferenceSeeded? && c.track == track then Some(c.reference) else ReferenceOf(log[..|log| - 1], track)
  }

  // ----- queries -----

  datatype Request =
    | ListNotes(owner: Id)
    | GetNote(owner: Id, note: Id)
    | ListTasks(owner: Id, status: Option<Tasks.Status>)
    | GetTask(owner: Id, task: Id)
    | GetExamConfig(track: Id)
    | ListSubjects(track: Id)
    | ListStudySessions(owner: Id, window: Window)
    | ComputeStreak(owner: Id, asOf: int)

  /** A task as `TaskRead` shows it. */
  datatype TaskRead = TaskRead(status: Tasks.Status, due: Option<int>, leadMinutes: Option<int>)

  datatype Response =
    | NotFound
    | Notes(notes: map<Id, Note>)
    | OneNote(note: Note)
    | TaskTable(tasks: map<Id, TaskRead>)
    | OneTask(task: TaskRead)
    | ExamDay(day: int)
    | SubjectList(subjects: seq<Allocation.Subject>)
    | SessionList(sessions: seq<Allocation.Session>)
    | StreakValue(streak: Streaks.Streak)

  /** The counters whose versions a read puts into its cache key. */
  function CountersFor(req: Request): seq<Counter> {
    match req
    case ListNotes(owner) => [Counter(NotesScope, owner)]
    case GetNote(owner, _) => [Counter(NotesScope, owner)]
    case ListTasks(owner, _) => [Counter(TasksScope, owner)]
    case GetTask(owner, _) => [Counter(TasksScope, owner)]
    case GetExamConfig(track) => [Counter(ExamRefScope, track)]
    case ListSubjects(track) => [Counter(ExamRefScope, track)]
    case ListStudySessions(owner, _) => [Counter(StudyScope, owner)]
    case ComputeStreak(owner, _) => [Counter(TasksScope, owner), Counter(StudyScope, owner)]
  }

  function Shown(t: TaskState): TaskRead {
    TaskRead(t.status, t.due, t.leadMinutes)
  }

  function WindowSeconds(w: Window): int {
    match w
    case Week => 7 * Streaks.SECONDS_PER_DAY
    case Month => 30 * Streaks.SECONDS_PER_DAY
  }

  function OccurredSince(sessions: seq<Allocation.Session>, since: int): seq<Allocation.Session> {
    if sessions == [] then []
    else (if sessions[0].occurredAt >= since then [sessions[0]] else []) + OccurredSince(sessions[1..], since)
  }

  function InsertLatestFirst(x: Allocation.Session, sorted: seq<Allocation.Session>): seq<Allocation.Session> {
    if sorted == [] || sorted[0].occurredAt < x.occurredAt then [x] + sorted
    else [sorted[0]] + InsertLatestFirst(x, sorted[1..])
  }

  /** `ORDER BY occurred_at DESC`, ties in the order of insertion. */
  function LatestFirst(sessions: seq<Allocation.Session>): seq<Allocation.Session> {
    if sessions == [] then []
    else InsertLatestFirst(sessions[|sessions| - 1], LatestFirst(sessions[..|sessions| - 1]))
  }

  function SessionsInWindow(log: Log, owner: Id, w: Window, now: int): seq<Allocation.Session> {
    LatestFirst(OccurredSince(SessionsOf(log, owner), now - WindowSeconds(w)))
  }

  /** Every activity instant of the user: completed tasks and study sessions. */
  function ActivityOf(log: Log, owner: Id): set<int> {
    var tasks := TasksOf(log, owner);
    (set id | id in tasks && tasks[id].completedAt.Some? :: tasks[id].completedAt.value)
    + (set s | s in SessionsOf(log, owner) :: s.occurredAt)
  }

  /** Some listing of a set; streaks do not depend on which. */
  ghost function Listed<T>(s: set<T>): seq<T> {
    if s == {} then [] else var x :| x in s; [x] + Listed(s - {x})
  }

  lemma {:induction false} ListedMembers<T>(s: set<T>)
    ensures forall x :: x in Listed(s) <==> x in s
  {
    if s != {} {
      var x :| x in s && Listed(s) == [x] + Listed(s - {x});
      ListedMembers(s - {x});
    }
  }

  /** The read itself, straight from the database at time `now`. */
  ghost function Execute(req: Request, log: Log, now: int): Response {
    match req
    case ListNotes(owner) => Notes(NotesOf(log, owner))
    case GetNote(owner, note) =>
      if note in NotesOf(log, owner) then OneNote(NotesOf(log, owner)[note]) else NotFound
    case ListTasks(owner, status) =>
      var tasks := TasksOf(log, owner);
      TaskTable(map id | id in tasks && (status.None? || tasks[id].status == status.value) :: Shown(tasks[id]))
    case GetTask(owner, task) =>
      if task in TasksOf(log, owner) then OneTask(Shown(TasksOf(log, owner)[task])) else NotFound
    case GetExamConfig(track) =>
      if ReferenceOf(log, track).Some? then ExamDay(ReferenceOf(log, track).value.examDay) else NotFound
    case ListSubjects(track) =>
      SubjectList(if ReferenceOf(log, track).Some? then ReferenceOf(log, track).value.subjects else [])
    case ListStudySessions(owner, window) => SessionList(SessionsInWindow(log, owner, window, now))
    case ComputeStreak(owner, asOf) =>
      StreakValue(Streaks.StreakOf(Streaks.Since(Listed(ActivityOf(log, owner)), Streaks.WindowStart(asOf)), asOf))
  }

  // ----- a read depends only on the commits its counters cover -----

  function Relevant(log: Log, counters: seq<Counter>): Log {
    if log == [] then []
    else
      var before := Relevant(log[..|log| - 1], counters);
      if CounterOf(log[|log| - 1]) in counters then before + [log[|log| - 1]] else before
  }

  lemma {:induction false} TablesIgnoreOthers(log: Log, counters: seq<Counter>, subject: Id)
    ensures Counter(NotesScope, subject) in counters ==> NotesOf(Relevant(log, counters), subject) == NotesOf(log, subject)
    ensures Counter(TasksScope, subject) in counters ==> TasksOf(Relevant(log, counters), subject) == TasksOf(log, subject)
    ensures Counter(StudyScope, subject) in counters ==> SessionsOf(Relevant(log, counters), subject) == SessionsOf(log, subject)
    ensures Counter(ExamRefScope, subject) in counters ==>
              ReferenceOf(Relevant(log, counters), subject) == ReferenceOf(log, subject)
  {
    if log != [] {
      var p, c := log[..|log| - 1], log[|log| - 1];
      TablesIgnoreOthers(p, counters, subject);
      var before := Relevant(p, counters);
      assert (before + [c])[..|before|] == before;
    }
  }

  /** Every service keys its cache on enough counters: other commits never change the answer. */
  lemma ReadsIgnoreOtherCommits(req: Request, log: Log, now: int)
    ensures Execute(req, Relevant(log, CountersFor(req)), now) == Execute(req, log, now)
  {
    var subject := if req.GetExamConfig? || req.ListSubjects? then req.track else req.owner;
    assert CountersFor(req)[0] in CountersFor(req);
    if req.ComputeStreak? {
      assert CountersFor(req)[1] in CountersFor(req);
    }
    TablesIgnoreOthers(log, CountersFor(req), subject);
  }

  /** No relevant commit between two lengths of the log. */
  ghost predicate QuietBetween(log: Log, counters: seq<Counter>, n: nat, m: nat)
    requires m <= |log|
  {
    forall i :: n <= i < m ==> CounterOf(log[i]) !in counters
  }

  lemma {:induction false} RelevantUnchanged(log: Log, counters: seq<Counter>, n: nat, m: nat)
    requires n <= m <= |log| && QuietBetween(log, counters, n, m)
    ensures Relevant(log[..n], counters) == Relevant(log[..m], counters)
  {
    if n < m {
      RelevantUnchanged(log, counters, n, m - 1);
      assert log[..m][..m - 1] == log[..m - 1];
    }
  }

  lemma SameAnswer(req: Request, log: Log, n: nat, m: nat, now: int)
    requires n <= m <= |log| && QuietBetween(log, CountersFor(req), n, m)
    ensures Execute(req, log[..n], now) == Execute(req, log[..m], now)
  {
    RelevantUnchanged(log, CountersFor(req), n, m);
    ReadsIgnoreOtherCommits(req, log[..n], now);
    ReadsIgnoreOtherCommits(req, log[..m], now);
  }

  lemma SessionsUnchanged(log: Log, owner: Id, n: nat, m: nat)
    requires n <= m <= |log| && QuietBetween(log, [Counter(StudyScope, owner)], n, m)
    ensures SessionsOf(log[..n], owner) == SessionsOf(log[..m], owner)
  {
    var counters := [Counter(StudyScope, owner)];
    RelevantUnchanged(log, counters, n, m);
    assert counters[0] in counters;
    TablesIgnoreOthers(log[..n], counters, owner);
    TablesIgnoreOthers(log[..m], counters, owner);
  }

  lemma OnlyWindowsReadTheClock(req: Request, log: Log, now: int, later: int)
    requires !req.ListStudySessions?
    ensures Execute(req, log, now) == Execute(req, log, later)
  {}

  // ----- sliding windows -----

  predicate LatestFirstOrder(s: seq<Allocation.Session>) {
    s == [] || ((forall x :: x in s[1..] ==> x.occurredAt <= s[0].occurredAt) && LatestFirstOrder(s[1..]))
  }

  lemma {:induction false} InsertKeepsOrder(x: Allocation.Session, s: seq<Allocation.Session>)
    requires LatestFirstOrder(s)
    ensures LatestFirstOrder(InsertLatestFirst(x, s))
    ensures forall y :: y in InsertLatestFirst(x, s) <==> y in s || y == x
  {
    if s == [] || s[0].occurredAt < x.occurredAt {
      assert ([x] + s)[1..] == s;
      forall y | y in s ensures y.occurredAt <= x.occurredAt {
        assert s == [s[0]] + s[1..];
      }
    } else {
      InsertKeepsOrder(x, s[1..]);
      assert s == [s[0]] + s[1..];
      assert InsertLatestFirst(x, s)[1..] == InsertLatestFirst(x, s[1..]);
    }
  }

  lemma {:induction false} LatestFirstSorts(s: seq<Allocation.Session>)
    ensures LatestFirstOrder(LatestFirst(s))
    ensures forall y :: y in LatestFirst(s) <==> y in s
  {
    if s != [] {
      var p := s[..|s| - 1];
      assert s == p + [s[|s| - 1]];
      LatestFirstSorts(p);
      InsertKeepsOrder(s[|s| - 1], LatestFirst(p));
    }
  }

  lemma {:induction false} NoneSince(s: seq<Allocation.Session>, since: int)
    requires forall x :: x in s ==> x.occurredAt < since
    ensures OccurredSince(s, since) == []
  {
    if s != [] {
      assert s[0] in s;
      NoneSince(s[1..], since);
    }
  }

  lemma {:induction false} OccurredSinceAppend(s: seq<Allocation.Session>, t: seq<Allocation.Session>, since: int)
    ensures OccurredSince(s + t, since) == OccurredSince(s, since) + OccurredSince(t, since)
  {
    if s == [] {
      assert s + t == t;
    } else {
      assert (s + t)[0] == s[0] && (s + t)[1..] == s[1..] + t;
      OccurredSinceAppend(s[1..], t, since);
      var head := if s[0].occurredAt >= since then [s[0]] else [];
      assert head + (OccurredSince(s[1..], since) + OccurredSince(t, since))
          == head + OccurredSince(s[1..], since) + OccurredSince(t, since);
    }
  }

  lemma {:induction false} InsertThenCut(x: Allocation.Session, s: seq<Allocation.Session>, since: int)
    requires LatestFirstOrder(s)
    ensures OccurredSince(InsertLatestFirst(x, s), since) ==
              if x.occurredAt >= since then InsertLatestFirst(x, OccurredSince(s, since)) else OccurredSince(s, since)
  {
    if s != [] {
      var rest := s[1..];
      assert s == [s[0]] + rest;
      if s[0].occurredAt < x.occurredAt {
        assert ([x] + s)[1..] == s;
        if s[0].occurredAt < since {
          NoneSince(rest, since);
        }
      } else {
        InsertThenCut(x, rest, since);
        assert ([s[0]] + InsertLatestFirst(x, rest))[1..] == InsertLatestFirst(x, rest);
        if s[0].occurredAt >= since {
          assert OccurredSince(s, since)[1..] == OccurredSince(rest, since);
        }
      }
    }
  }

  /** Ordering and cutting commute. */
  lemma {:induction false} CutOfOrdered(s: seq<Allocation.Session>, since: int)
    ensures OccurredSince(LatestFirst(s), since) == LatestFirst(OccurredSince(s, since))
  {
    if s != [] {
      var p, x := s[..|s| - 1], s[|s| - 1];
      assert s == p + [x];
      CutOfOrdered(p, since);
      LatestFirstSorts(p);
      InsertThenCut(x, LatestFirst(p), since);
      OccurredSinceAppend(p, [x], since);
      var kept := OccurredSince(p, since);
      if x.occurredAt >= since {
        assert (kept + [x])[..|kept|] == kept;
      } else {
        assert kept + [] == kept;
      }
    }
  }

  lemma {:induction false} CutTwice(s: seq<Allocation.Session>, earlier: int, later: int)
    requires earlier <= later
    ensures OccurredSince(OccurredSince(s, earlier), later) == OccurredSince(s, later)
  {
    if s != [] {
      CutTwice(s[1..], earlier, later);
      OccurredSinceAppend(if s[0].occurredAt >= earlier then [s[0]] else [], OccurredSince(s[1..], earlier), later);
    }
  }

  lemma {:induction false} SinceBound(s: seq<Allocation.Session>, since: int)
    ensures forall x :: x in OccurredSince(s, since) ==> x.occurredAt >= since
  {
    if s != [] {
      SinceBound(s[1..], since);
    }
  }

  /**
    What an answer queried at `q` is worth at a later `t`: cutting it at t - W
    gives the true window, so nothing is missing or out of order, and whatever is
    extra lies between q - W and t - W.
  */
  lemma WindowAgesGracefully(log: Log, owner: Id, w: Window, q: int, t: int)
    requires q <= t
    ensures var cached, direct := SessionsInWindow(log, owner, w, q), SessionsInWindow(log, owner, w, t);
            && direct == OccurredSince(cached, t - WindowSeconds(w))
            && forall x :: x in cached && x !in direct ==> q - WindowSeconds(w) <= x.occurredAt < t - WindowSeconds(w)
  {
    var earlier, later := q - WindowSeconds(w), t - WindowSeconds(w);
    assert SessionsInWindow(log, owner, w, q) == LatestFirst(OccurredSince(SessionsOf(log, owner), earlier));
    assert SessionsInWindow(log, owner, w, t) == LatestFirst(OccurredSince(SessionsOf(log, owner), later));
    CutAgesGracefully(SessionsOf(log, owner), earlier, later);
  }

  lemma CutAgesGracefully(all: seq<Allocation.Session>, earlier: int, later: int)
    requires earlier <= later
    ensures var cached, direct := LatestFirst(OccurredSince(all, earlier)), LatestFirst(OccurredSince(all, later));
            && direct == OccurredSince(cached, later)
            && forall x :: x in cached && x !in direct ==> earlier <= x.occurredAt < later
  {
    var kept := OccurredSince(all, earlier);
    CutOfOrdered(kept, later);
    CutTwice(all, earlier, later);
    SinceBound(all, earlier);
    LatestFirstSorts(kept);
    CutKeeps(LatestFirst(kept), later);
  }

  lemma {:induction false} CutKeeps(s: seq<Allocation.Session>, since: int)
    ensures forall x :: x in s && x.occurredAt >= since ==> x in OccurredSince(s, since)
  {
    if s != [] {
      CutKeeps(s[1..], since);
      assert s == [s[0]] + s[1..];
    }
  }
}
