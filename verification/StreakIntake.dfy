/**
  Where streak activity comes from: completed tasks and validated study
  sessions (schemas/exam_prep.py, services/task_service.py,
  services/exam_prep_service.py), and what that means for how long a streak
  anyone can show.
*/
module StreakIntake {
  import opened Options
  import opened Streaks
  import Tasks
  import Allocation
  import Database
  import CacheKeys
  import Contents

  type Log = Database.Log
  type Id = Database.Id

  const MAX_CLOCK_SKEW := 5 * 60
  const MAX_BACKDATE := 2 * SECONDS_PER_DAY

  datatype Rejection = InTheFuture | TooLongAgo
  datatype Validated = Valid(occurredAt: Option<int>) | Invalid(why: Rejection)

  /** `StudySessionCreate.validate_occurred_at` */
  function Validate(occurredAt: Option<int>, now: int): Validated {
    if occurredAt.None? then Valid(None)
    else if occurredAt.value > now + MAX_CLOCK_SKEW then Invalid(InTheFuture)
    else if occurredAt.value < now - MAX_BACKDATE then Invalid(TooLongAgo)
    else Valid(occurredAt)
  }

  /** One user's stored activity. */
  datatype Activity = Activity(tasks: map<nat, Tasks.Row>, sessions: seq<int>)

  datatype Write =
    | CreateTask(id: nat, at: int)
    | UpdateTask(id: nat, patch: Tasks.Patch, at: int)
    | DeleteTask(id: nat, at: int)
    | LogSession(subject: Option<Allocation.Code>, seconds: nat, occurredAt: Option<int>, at: int)

  function Apply(a: Activity, w: Write): Activity {
    match w
    case CreateTask(id, _) =>
      if id in a.tasks then a else a.(tasks := a.tasks[id := Tasks.NewTask(0, None, None)])
    case UpdateTask(id, patch, at) =>
      if id in a.tasks then a.(tasks := a.tasks[id := Tasks.Updated(a.tasks[id], patch, at)]) else a
    case DeleteTask(id, _) => a.(tasks := a.tasks - {id})
    case LogSession(_, _, occurredAt, at) =>
      match Validate(occurredAt, at)
      case Invalid(_) => a
      case Valid(None) => a.(sessions := a.sessions + [at])
      case Valid(Some(t)) => a.(sessions := a.sessions + [t])
  }

  const NOTHING := Activity(map[], [])

  function Run(writes: seq<Write>): Activity {
    if writes == [] then NOTHING else Apply(Run(writes[..|writes| - 1]), writes[|writes| - 1])
  }

  predicate NeverBefore(writes: seq<Write>, start: int) {
    writes == [] || (writes[|writes| - 1].at >= start && NeverBefore(writes[..|writes| - 1], start))
  }

  /** `timestamps` lists what the activity query returns: completions and sessions, in any order. */
  ghost predicate Lists(timestamps: seq<int>, a: Activity) {
    forall t :: t in timestamps <==> t in a.sessions || exists id :: id in a.tasks && a.tasks[id].completedAt == Some(t)
  }

  ghost predicate NothingBefore(a: Activity, floor: int) {
    && (forall t :: t in a.sessions ==> t >= floor)
    && (forall id :: id in a.tasks && a.tasks[id].completedAt.Some? ==> a.tasks[id].completedAt.value >= floor)
  }

  /** Activity never predates the first write by more than the allowed backdating. */
  lemma {:induction false} ActivityAfterStart(writes: seq<Write>, start: int)
    requires NeverBefore(writes, start)
    ensures NothingBefore(Run(writes), start - MAX_BACKDATE)
  {
    if writes != [] {
      ActivityAfterStart(writes[..|writes| - 1], start);
    }
  }

  lemma NoRunBeforeFloor(days: set<int>, last: int, floor: int)
    requires forall d :: d in days ==> d >= floor
    ensures RunLength(days, last) <= if last >= floor then last - floor + 1 else 0
  {
    RunLengthIsMaximal(days, last);
    var n := RunLength(days, last);
    if n > 0 {
      assert last - n + 1 in days;
    }
  }

  /**
    Days cannot be minted. A user whose first write happened on day D0 shows, on
    any day d, a streak of at most d - D0 + 3.
  */
  lemma DaysCannotBeMinted(writes: seq<Write>, start: int, timestamps: seq<int>, asOf: int)
    requires NeverBefore(writes, start) && Lists(timestamps, Run(writes))
    ensures var bound := asOf - DayOf(start) + 3;
            StreakOf(timestamps, asOf).length <= if bound > 0 then bound else 0
  {
    ActivityAfterStart(writes, start);
    var days := ActiveDays(timestamps);
    forall d | d in days ensures d >= DayOf(start) - 2 {
      var t :| t in timestamps && DayOf(t) == d;
      assert t >= start - MAX_BACKDATE;
    }
    NoRunBeforeFloor(days, Anchor(days, asOf), DayOf(start) - 2);
  }

  /** A time is accepted exactly from two days before the clock to five minutes after it; too late is not too early. */
  lemma AcceptedIff(t: int, now: int)
    ensures Validate(Some(t), now) == Valid(Some(t)) <==> now - 2 * 86_400 <= t <= now + 5 * 60
    ensures Validate(Some(t), now) == Invalid(InTheFuture) <==> t > now + 5 * 60
    ensures Validate(Some(t), now) == Invalid(TooLongAgo) <==> t < now - 2 * 86_400
  {}

  predicate NeverAfter(writes: seq<Write>, now: int) {
    writes == [] || (writes[|writes| - 1].at <= now && NeverAfter(writes[..|writes| - 1], now))
  }

  ghost predicate NothingAfter(a: Activity, ceiling: int) {
    && (forall t :: t in a.sessions ==> t <= ceiling)
    && (forall id :: id in a.tasks && a.tasks[id].completedAt.Some? ==> a.tasks[id].completedAt.value <= ceiling)
  }

  /** In every run up to `now`, nothing is stored more than five minutes ahead of it. */
  lemma {:induction false} ActivityBeforeNow(writes: seq<Write>, now: int)
    requires NeverAfter(writes, now)
    ensures NothingAfter(Run(writes), now + 5 * 60)
  {
    if writes != [] {
      ActivityBeforeNow(writes[..|writes| - 1], now);
    }
  }

  // ----- the same writes as commits -----

  function TaskId(id: nat): Id {
    Database.Id(CacheKeys.Decimal(id))
  }

  function StateOf(t: Tasks.Row): Database.TaskState {
    Database.TaskState(t.status, t.due, t.leadMinutes, t.completedAt)
  }

  /** What the write commits for `owner`, if anything. */
  function CommitsFor(a: Activity, w: Write, owner: Id): Log {
    match w
    case CreateTask(id, _) =>
      if id in a.tasks then [] else [Database.TaskWritten(owner, TaskId(id), Some(StateOf(Tasks.NewTask(0, None, None))))]
    case UpdateTask(id, patch, at) =>
      if id in a.tasks then [Database.TaskWritten(owner, TaskId(id), Some(StateOf(Tasks.Updated(a.tasks[id], patch, at))))] else []
    case DeleteTask(id, _) => if id in a.tasks then [Database.TaskWritten(owner, TaskId(id), None)] else []
    case LogSession(subject, seconds, occurredAt, at) =>
      match Validate(occurredAt, at)
      case Invalid(_) => []
      case Valid(None) => [Database.SessionLogged(owner, Allocation.Session(subject, seconds, at))]
      case Valid(Some(t)) => [Database.SessionLogged(owner, Allocation.Session(subject, seconds, t))]
  }

  function CommitsOf(writes: seq<Write>, owner: Id): Log {
    if writes == [] then []
    else
      var p := writes[..|writes| - 1];
      CommitsOf(p, owner) + CommitsFor(Run(p), writes[|writes| - 1], owner)
  }

  /** The tables behind these commits hold what the run stored. */
  ghost predicate Stored(log: Log, owner: Id, a: Activity) {
    SameTasks(Database.TasksOf(log, owner), a.tasks) && InstantsOf(Database.SessionsOf(log, owner)) == a.sessions
  }

  ghost predicate SameTasks(table: map<Id, Database.TaskState>, rows: map<nat, Tasks.Row>) {
    && (forall id :: id in rows ==> TaskId(id) in table && table[TaskId(id)] == StateOf(rows[id]))
    && (forall task :: task in table ==> exists id :: id in rows && task == TaskId(id))
  }

  function InstantsOf(sessions: seq<Allocation.Session>): seq<int> {
    seq(|sessions|, i requires 0 <= i < |sessions| => sessions[i].occurredAt)
  }

  lemma TaskIdInjective(a: nat, b: nat)
    requires TaskId(a) == TaskId(b)
    ensures a == b
  {
    CacheKeys.DecimalInjective(a, b);
  }

  lemma SameTasksPut(table: map<Id, Database.TaskState>, rows: map<nat, Tasks.Row>, id: nat, row: Tasks.Row)
    requires SameTasks(table, rows)
    ensures SameTasks(table[TaskId(id) := StateOf(row)], rows[id := row])
  {
    var table', rows' := table[TaskId(id) := StateOf(row)], rows[id := row];
    forall other | other in rows' ensures TaskId(other) in table' && table'[TaskId(other)] == StateOf(rows'[other]) {
      if TaskId(other) == TaskId(id) {
        TaskIdInjective(other, id);
      }
    }
    forall task | task in table' ensures exists other :: other in rows' && task == TaskId(other) {
      if task in table {
        var other :| other in rows && task == TaskId(other);
        assert other in rows';
      } else {
        assert id in rows';
      }
    }
  }

  lemma SameTasksRemoved(table: map<Id, Database.TaskState>, rows: map<nat, Tasks.Row>, id: nat)
    requires SameTasks(table, rows)
    ensures SameTasks(table - {TaskId(id)}, rows - {id})
  {
    forall other | other in rows - {id} ensures TaskId(other) != TaskId(id) {
      if TaskId(other) == TaskId(id) {
        TaskIdInjective(other, id);
      }
    }
    forall task | task in table - {TaskId(id)} ensures exists other :: other in rows - {id} && task == TaskId(other) {
      var other :| other in rows && task == TaskId(other);
      assert other in rows - {id};
    }
  }

  lemma TaskCommitStored(log: Log, owner: Id, a: Activity, task: Id, state: Option<Database.TaskState>, rows: map<nat, Tasks.Row>)
    requires Stored(log, owner, a)
    requires var table := Database.TasksOf(log, owner);
             SameTasks(if state.Some? then table[task := state.value] else table - {task}, rows)
    ensures Stored(log + [Database.TaskWritten(owner, task, state)], owner, a.(tasks := rows))
  {
    var c := Database.TaskWritten(owner, task, state);
    assert (log + [c])[..|log|] == log;
  }

  lemma SessionCommitStored(log: Log, owner: Id, a: Activity, session: Allocation.Session)
    requires Stored(log, owner, a)
    ensures Stored(log + [Database.SessionLogged(owner, session)], owner, a.(sessions := a.sessions + [session.occurredAt]))
  {
    var c := Database.SessionLogged(owner, session);
    assert (log + [c])[..|log|] == log;
    InstantsAppend(Database.SessionsOf(log, owner), session);
  }

  lemma StoredOneMore(log: Log, owner: Id, a: Activity, w: Write)
    requires Stored(log, owner, a)
    ensures Stored(log + CommitsFor(a, w, owner), owner, Apply(a, w))
  {
    var cs, table := CommitsFor(a, w, owner), Database.TasksOf(log, owner);
    if cs == [] {
      assert log + cs == log;
    } else if w.LogSession? {
      SessionCommitStored(log, owner, a, cs[0].session);
    } else {
      match w {
        case CreateTask(id, _) => SameTasksPut(table, a.tasks, id, Tasks.NewTask(0, None, None));
        case UpdateTask(id, patch, at) => SameTasksPut(table, a.tasks, id, Tasks.Updated(a.tasks[id], patch, at));
        case DeleteTask(id, _) => SameTasksRemoved(table, a.tasks, id);
      }
      TaskCommitStored(log, owner, a, cs[0].task, cs[0].state, Apply(a, w).tasks);
    }
  }

  lemma InstantsAppend(sessions: seq<Allocation.Session>, x: Allocation.Session)
    ensures InstantsOf(sessions + [x]) == InstantsOf(sessions) + [x.occurredAt]
  {}

  lemma {:induction false} RunIsStored(writes: seq<Write>, owner: Id)
    ensures Stored(CommitsOf(writes, owner), owner, Run(writes))
  {
    if writes != [] {
      RunIsStored(writes[..|writes| - 1], owner);
      StoredOneMore(CommitsOf(writes[..|writes| - 1], owner), owner, Run(writes[..|writes| - 1]), writes[|writes| - 1]);
    }
  }

  /** So the activity query finds exactly the run's activity. */
  lemma CommitsCarryActivity(writes: seq<Write>, owner: Id)
    ensures Lists(Database.Listed(Database.ActivityOf(CommitsOf(writes, owner), owner)), Run(writes))
  {
    var log, a := CommitsOf(writes, owner), Run(writes);
    RunIsStored(writes, owner);
    Database.ListedMembers(Database.ActivityOf(log, owner));
    StoredActivity(log, owner, a);
  }

  lemma StoredActivity(log: Log, owner: Id, a: Activity)
    requires Stored(log, owner, a)
    ensures forall t :: t in Database.ActivityOf(log, owner) <==>
              t in a.sessions || exists id :: id in a.tasks && a.tasks[id].completedAt == Some(t)
  {
    var tasks, sessions := Database.TasksOf(log, owner), Database.SessionsOf(log, owner);
    forall t ensures t in Database.ActivityOf(log, owner) <==>
                       t in a.sessions || exists id :: id in a.tasks && a.tasks[id].completedAt == Some(t)
    {
      if t in a.sessions {
        var i :| 0 <= i < |a.sessions| && a.sessions[i] == t;
        assert sessions[i] in sessions && sessions[i].occurredAt == t;
      }
      if x :| x in sessions && x.occurredAt == t {
        var i :| 0 <= i < |sessions| && sessions[i] == x;
        assert InstantsOf(sessions)[i] == t;
      }
      if id :| id in a.tasks && a.tasks[id].completedAt == Some(t) {
        assert tasks[TaskId(id)].completedAt == Some(t);
      }
      if task :| task in tasks && tasks[task].completedAt == Some(t) {
        var id :| id in a.tasks && task == TaskId(id);
        assert a.tasks[id].completedAt == Some(t);
      }
    }
  }

  /**
    Main result. Whatever else the database holds: if the commits a user's streak
    depends on are those of such a run, then the uncached streak, which is what
    the batch answers with, is at most d - D0 + 3.
  */
  lemma ServedStreakIsBounded(log: Log, owner: Id, writes: seq<Write>, start: int, asOf: int, now: int)
    requires NeverBefore(writes, start)
    requires Database.Relevant(log, Database.CountersFor(Database.ComputeStreak(owner, asOf))) == CommitsOf(writes, owner)
    ensures var answer := Database.Execute(Database.ComputeStreak(owner, asOf), log, now);
            var bound := asOf - DayOf(start) + 3;
            answer.StreakValue? && answer.streak.length <= if bound > 0 then bound else 0
  {
    var req := Database.ComputeStreak(owner, asOf);
    var all := Database.Listed(Database.ActivityOf(CommitsOf(writes, owner), owner));
    Database.ReadsIgnoreOtherCommits(req, log, now);
    CommitsCarryActivity(writes, owner);
    WindowLosesNothing(all, asOf);
    DaysCannotBeMinted(writes, start, all, asOf);
  }

  // ----- and the bound is reached -----

  function Noon(day: int): int {
    Midnight(day) + SECONDS_PER_DAY / 2
  }

  /** On the first day two backdated sessions and one for today; then one session a day. */
  function EagerWrites(day: int, more: nat): seq<Write> {
    if more == 0 then
      [] + [LogSession(None, 60, Some(Noon(day - 2)), Noon(day))] + [LogSession(None, 60, Some(Noon(day - 1)), Noon(day))]
      + [LogSession(None, 60, None, Noon(day))]
    else
      EagerWrites(day, more - 1) + [LogSession(None, 60, None, Noon(day + more))]
  }

  /** Writes in which only sessions for the days `lo` to `hi` were stored, none before `start`. */
  ghost predicate Covers(writes: seq<Write>, start: int, lo: int, hi: int) {
    && NeverBefore(writes, start)
    && Run(writes).tasks == map[]
    && forall d :: d in ActiveDays(Run(writes).sessions) <==> lo <= d <= hi
  }

  lemma OneMoreDay(sessions: seq<int>, at: int, lo: int, hi: int)
    requires forall d :: d in ActiveDays(sessions) <==> lo <= d <= hi
    requires DayOf(at) == hi + 1 && lo <= hi + 1
    ensures forall d :: d in ActiveDays(sessions + [at]) <==> lo <= d <= hi + 1
  {
    ActiveDaysAppend(sessions, at);
  }

  lemma {:induction false} CoversOneMore(writes: seq<Write>, start: int, lo: int, hi: int, w: Write)
    requires Covers(writes, start, lo, hi) && lo <= hi + 1
    requires w.LogSession? && w.at >= start && Validate(w.occurredAt, w.at).Valid?
    requires DayOf(StoredAt(w)) == hi + 1
    ensures Covers(writes + [w], start, lo, hi + 1)
  {
    RunOneMore(writes, w, start);
    SessionIsStored(Run(writes), w);
    OneMoreDay(Run(writes).sessions, StoredAt(w), lo, hi);
  }

  function StoredAt(w: Write): int
    requires w.LogSession?
  {
    if w.occurredAt.Some? then w.occurredAt.value else w.at
  }

  lemma SessionIsStored(a: Activity, w: Write)
    requires w.LogSession? && Validate(w.occurredAt, w.at).Valid?
    ensures Apply(a, w) == a.(sessions := a.sessions + [StoredAt(w)])
  {}

  lemma RunOneMore(writes: seq<Write>, w: Write, start: int)
    ensures Run(writes + [w]) == Apply(Run(writes), w)
    ensures NeverBefore(writes + [w], start) <==> w.at >= start && NeverBefore(writes, start)
  {
    assert (writes + [w])[..|writes|] == writes;
  }

  lemma {:induction false} EagerCovers(day: int, more: nat)
    ensures Covers(EagerWrites(day, more), Noon(day), day - 2, day + more)
  {
    if more == 0 {
      var first, second := LogSession(None, 60, Some(Noon(day - 2)), Noon(day)), LogSession(None, 60, Some(Noon(day - 1)), Noon(day));
      CoversOneMore([], Noon(day), day - 2, day - 3, first);
      CoversOneMore([] + [first], Noon(day), day - 2, day - 2, second);
      CoversOneMore([] + [first] + [second], Noon(day), day - 2, day - 1, LogSession(None, 60, None, Noon(day)));
    } else {
      EagerCovers(day, more - 1);
      CoversOneMore(EagerWrites(day, more - 1), Noon(day), day - 2, day + more - 1, LogSession(None, 60, None, Noon(day + more)));
    }
  }

  /** The bound is exact: some writes starting on day D0 do show d - D0 + 3, on every day up to the cap. */
  lemma MintingBoundIsReached(day: int, more: nat)
    ensures var a := Run(EagerWrites(day, more));
            && NeverBefore(EagerWrites(day, more), Noon(day))
            && Lists(a.sessions, a)
            && StreakOf(a.sessions, day + more).length == Min(more + 3, LOOKBACK_DAYS)
  {
    EagerCovers(day, more);
    MaximalRunIsUnique(ActiveDays(Run(EagerWrites(day, more)).sessions), day + more, more + 3);
  }
}
