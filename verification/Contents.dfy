/**
  What a read of the database shows, in terms of the commits alone: for each item
  the last write decides; for a session list, what was logged inside the window;
  for a streak, the days on which anything happened.
*/
module Contents {
  import opened Options
  import opened Database
  import CacheKeys
  import Allocation
  import Streaks
  import Tasks

  // ----- notes -----

  predicate WritesNote(c: Commit, owner: Id, note: Id) {
    c.NoteWritten? && c.owner == owner && c.note == note
  }

  ghost predicate LastNoteWrite(log: Log, i: nat, owner: Id, note: Id) {
    i < |log| && WritesNote(log[i], owner, note) && forall j :: i < j < |log| ==> !WritesNote(log[j], owner, note)
  }

  lemma {:induction false} LastNoteDecides(log: Log, i: nat, owner: Id, note: Id)
    requires LastNoteWrite(log, i, owner, note)
    ensures note in NotesOf(log, owner) <==> log[i].row.Some?
    ensures log[i].row.Some? ==> NotesOf(log, owner)[note] == log[i].row.value
  {
    var p := log[..|log| - 1];
    if i < |p| {
      assert !WritesNote(log[|p|], owner, note);
      LastNoteDecides(p, i, owner, note);
    }
  }

  /** A read of a note answers with its last write: the row, or not found after a deletion. The list agrees. */
  lemma NoteShowsLastWrite(log: Log, i: nat, owner: Id, note: Id, now: int)
    requires LastNoteWrite(log, i, owner, note)
    ensures Execute(GetNote(owner, note), log, now) == if log[i].row.Some? then OneNote(log[i].row.value) else NotFound
    ensures var list := Execute(ListNotes(owner), log, now);
            && list.Notes?
            && (note in list.notes <==> log[i].row.Some?)
            && (log[i].row.Some? ==> list.notes[note] == log[i].row.value)
  {
    LastNoteDecides(log, i, owner, note);
  }

  /** A note never written is nowhere. */
  lemma {:induction false} UnwrittenNoteIsAbsent(log: Log, owner: Id, note: Id, now: int)
    requires forall i :: 0 <= i < |log| ==> !WritesNote(log[i], owner, note)
    ensures Execute(GetNote(owner, note), log, now) == NotFound
    ensures note !in Execute(ListNotes(owner), log, now).notes
  {
    if log != [] {
      assert !WritesNote(log[|log| - 1], owner, note);
      UnwrittenNoteIsAbsent(log[..|log| - 1], owner, note, now);
    }
  }

  // ----- tasks -----

  predicate WritesTask(c: Commit, owner: Id, task: Id) {
    c.TaskWritten? && c.owner == owner && c.task == task
  }

  ghost predicate LastTaskWrite(log: Log, i: nat, owner: Id, task: Id) {
    i < |log| && WritesTask(log[i], owner, task) && forall j :: i < j < |log| ==> !WritesTask(log[j], owner, task)
  }

  lemma {:induction false} LastTaskDecides(log: Log, i: nat, owner: Id, task: Id)
    requires LastTaskWrite(log, i, owner, task)
    ensures task in TasksOf(log, owner) <==> log[i].state.Some?
    ensures log[i].state.Some? ==> TasksOf(log, owner)[task] == log[i].state.value
  {
    var p := log[..|log| - 1];
    if i < |p| {
      assert !WritesTask(log[|p|], owner, task);
      LastTaskDecides(p, i, owner, task);
    }
  }

  lemma {:induction false} ListedTaskWasWritten(log: Log, owner: Id, task: Id) returns (i: nat)
    requires task in TasksOf(log, owner)
    ensures LastTaskWrite(log, i, owner, task) && log[i].state == Some(TasksOf(log, owner)[task])
  {
    var p, c := log[..|log| - 1], log[|log| - 1];
    if WritesTask(c, owner, task) {
      i := |p|;
    } else {
      i := ListedTaskWasWritten(p, owner, task);
    }
  }

  /** The fields a task read carries are those of the state written. */
  predicate ShowsState(read: TaskRead, state: TaskState) {
    read.status == state.status && read.due == state.due && read.leadMinutes == state.leadMinutes
  }

  /** A read of a task shows its last write, field by field; so does the full list; a filtered list has it if the status fits. */
  lemma TaskShowsLastWrite(log: Log, i: nat, owner: Id, task: Id, status: Tasks.Status, now: int)
    requires LastTaskWrite(log, i, owner, task)
    ensures var one, all, some := Execute(GetTask(owner, task), log, now), Execute(ListTasks(owner, None), log, now),
                                  Execute(ListTasks(owner, Some(status)), log, now);
            && all.TaskTable? && some.TaskTable?
            && (log[i].state.None? ==> one == NotFound && task !in all.tasks && task !in some.tasks)
            && (log[i].state.Some? ==>
                  var state := log[i].state.value;
                  && one.OneTask? && ShowsState(one.task, state)
                  && task in all.tasks && all.tasks[task] == one.task
                  && (task in some.tasks <==> state.status == status)
                  && (task in some.tasks ==> some.tasks[task] == one.task))
  {
    LastTaskDecides(log, i, owner, task);
  }

  /** A task never written is nowhere. */
  lemma {:induction false} UnwrittenTaskIsAbsent(log: Log, owner: Id, task: Id, status: Option<Tasks.Status>, now: int)
    requires forall i :: 0 <= i < |log| ==> !WritesTask(log[i], owner, task)
    ensures task !in TasksOf(log, owner)
    ensures Execute(GetTask(owner, task), log, now) == NotFound
    ensures task !in Execute(ListTasks(owner, status), log, now).tasks
  {
    if log != [] {
      assert !WritesTask(log[|log| - 1], owner, task);
      UnwrittenTaskIsAbsent(log[..|log| - 1], owner, task, status, now);
    }
  }

  // ----- exam reference data -----

  ghost predicate LastSeeding(log: Log, i: nat, track: Id) {
    && i < |log| && log[i].ReferenceSeeded? && log[i].track == track
    && forall j :: i < j < |log| ==> !(log[j].ReferenceSeeded? && log[j].track == track)
  }

  /** The last seeding of a track decides its date and its subjects. */
  lemma {:induction false} ReferenceShowsLastSeeding(log: Log, i: nat, track: Id, now: int)
    requires LastSeeding(log, i, track)
    ensures Execute(GetExamConfig(track), log, now) == ExamDay(log[i].reference.examDay)
    ensures Execute(ListSubjects(track), log, now) == SubjectList(log[i].reference.subjects)
  {
    if i < |log| - 1 {
      assert !(log[|log| - 1].ReferenceSeeded? && log[|log| - 1].track == track);
      ReferenceShowsLastSeeding(log[..|log| - 1], i, track, now);
    }
  }

  lemma {:induction false} UnseededTrackIsUnknown(log: Log, track: Id, now: int)
    requires forall i :: 0 <= i < |log| ==> !(log[i].ReferenceSeeded? && log[i].track == track)
    ensures Execute(GetExamConfig(track), log, now) == NotFound
    ensures Execute(ListSubjects(track), log, now) == SubjectList([])
  {
    if log != [] {
      UnseededTrackIsUnknown(log[..|log| - 1], track, now);
    }
  }

  // ----- session lists -----

  /** How often the owner logged exactly this session. */
  function TimesLogged(log: Log, owner: Id, x: Allocation.Session): nat {
    if log == [] then 0
    else TimesLogged(log[..|log| - 1], owner, x) + if log[|log| - 1] == SessionLogged(owner, x) then 1 else 0
  }

  lemma {:induction false} SessionsAreLogged(log: Log, owner: Id, x: Allocation.Session)
    ensures multiset(SessionsOf(log, owner))[x] == TimesLogged(log, owner, x)
  {
    if log != [] {
      SessionsAreLogged(log[..|log| - 1], owner, x);
    }
  }

  lemma {:induction false} SinceCounts(s: seq<Allocation.Session>, since: int, x: Allocation.Session)
    ensures multiset(OccurredSince(s, since))[x] == if x.occurredAt >= since then multiset(s)[x] else 0
  {
    if s != [] {
      SinceCounts(s[1..], since, x);
      assert s == [s[0]] + s[1..];
    }
  }

  lemma {:induction false} InsertCounts(y: Allocation.Session, s: seq<Allocation.Session>)
    ensures multiset(InsertLatestFirst(y, s)) == multiset(s) + multiset{y}
  {
    if s != [] {
      assert s == [s[0]] + s[1..];
      if s[0].occurredAt >= y.occurredAt {
        InsertCounts(y, s[1..]);
      }
    }
  }

  lemma {:induction false} LatestFirstCounts(s: seq<Allocation.Session>)
    ensures multiset(LatestFirst(s)) == multiset(s)
  {
    if s != [] {
      var p := s[..|s| - 1];
      LatestFirstCounts(p);
      InsertCounts(s[|s| - 1], LatestFirst(p));
      assert s == p + [s[|s| - 1]];
    }
  }

  /** Days a window reaches back. */
  function WindowDays(w: CacheKeys.Window): int {
    match w
    case Week => 7
    case Month => 30
  }

  /** The list has the session as often as it was logged, if it is not from before `since`. */
  ghost predicate ListsAsLogged(list: seq<Allocation.Session>, log: Log, owner: Id, since: int, x: Allocation.Session) {
    multiset(list)[x] == if x.occurredAt >= since then TimesLogged(log, owner, x) else 0
  }

  lemma CutListsAsLogged(log: Log, owner: Id, since: int, x: Allocation.Session)
    ensures LatestFirstOrder(LatestFirst(OccurredSince(SessionsOf(log, owner), since)))
    ensures ListsAsLogged(LatestFirst(OccurredSince(SessionsOf(log, owner), since)), log, owner, since, x)
  {
    var kept := OccurredSince(SessionsOf(log, owner), since);
    SessionsAreLogged(log, owner, x);
    SinceCounts(SessionsOf(log, owner), since, x);
    LatestFirstCounts(kept);
    LatestFirstSorts(kept);
  }

  /**
    A session list holds what the owner logged in the last 7 or 30 days, each
    session as often as it was logged, the latest first, and nothing else.
  */
  lemma WindowHoldsLoggedSessions(log: Log, owner: Id, w: CacheKeys.Window, now: int, x: Allocation.Session)
    ensures var list := Execute(ListStudySessions(owner, w), log, now);
            && list.SessionList? && LatestFirstOrder(list.sessions)
            && ListsAsLogged(list.sessions, log, owner, now - WindowDays(w) * 86_400, x)
  {
    WindowOpens(log, owner, w, now);
    CutListsAsLogged(log, owner, now - WindowDays(w) * 86_400, x);
  }

  lemma WindowOpens(log: Log, owner: Id, w: CacheKeys.Window, now: int)
    ensures Execute(ListStudySessions(owner, w), log, now) ==
              SessionList(LatestFirst(OccurredSince(SessionsOf(log, owner), now - WindowDays(w) * 86_400)))
  {
    assert now - WindowSeconds(w) == now - WindowDays(w) * 86_400;
  }

  /** A month's list holds everything a week's does. */
  lemma MonthHoldsWeek(log: Log, owner: Id, now: int, x: Allocation.Session)
    ensures x in SessionsInWindow(log, owner, CacheKeys.Week, now) ==> x in SessionsInWindow(log, owner, CacheKeys.Month, now)
  {
    WindowHoldsLoggedSessions(log, owner, CacheKeys.Week, now, x);
    WindowHoldsLoggedSessions(log, owner, CacheKeys.Month, now, x);
  }

  // ----- streaks -----

  /** The owner logged a session at `t`, or has a task that stands completed at `t`. */
  ghost predicate Happened(log: Log, owner: Id, t: int) {
    || (exists i :: 0 <= i < |log| && log[i].SessionLogged? && log[i].owner == owner && log[i].session.occurredAt == t)
    || (exists i: nat, task :: LastTaskWrite(log, i, owner, task) && log[i].state.Some? && log[i].state.value.completedAt == Some(t))
  }

  lemma {:induction false} SessionsWereLogged(log: Log, owner: Id, x: Allocation.Session)
    ensures x in SessionsOf(log, owner) <==> exists i :: 0 <= i < |log| && log[i] == SessionLogged(owner, x)
  {
    if log != [] {
      var p := log[..|log| - 1];
      SessionsWereLogged(p, owner, x);
      if i :| 0 <= i < |p| && p[i] == SessionLogged(owner, x) {
        assert log[i] == SessionLogged(owner, x);
      }
    }
  }

  lemma HappenedIsActivity(log: Log, owner: Id, t: int)
    ensures t in ActivityOf(log, owner) <==> Happened(log, owner, t)
  {
    var tasks := TasksOf(log, owner);
    if task :| task in tasks && tasks[task].completedAt == Some(t) {
      var i := ListedTaskWasWritten(log, owner, task);
    }
    if x :| x in SessionsOf(log, owner) && x.occurredAt == t {
      SessionsWereLogged(log, owner, x);
    }
    if i :| 0 <= i < |log| && log[i].SessionLogged? && log[i].owner == owner && log[i].session.occurredAt == t {
      SessionsWereLogged(log, owner, log[i].session);
    }
    if i: nat, task :| LastTaskWrite(log, i, owner, task) && log[i].state.Some? && log[i].state.value.completedAt == Some(t) {
      LastTaskDecides(log, i, owner, task);
    }
  }

  ghost predicate ActiveOn(log: Log, owner: Id, day: int) {
    exists t :: Happened(log, owner, t) && Streaks.DayOf(t) == day
  }

  lemma ActiveDaysAreActive(log: Log, owner: Id, day: int)
    ensures day in Streaks.ActiveDays(Listed(ActivityOf(log, owner))) <==> ActiveOn(log, owner, day)
  {
    var all := ActivityOf(log, owner);
    ListedMembers(all);
    if t :| t in all && Streaks.DayOf(t) == day {
      HappenedIsActivity(log, owner, t);
    }
    if t :| Happened(log, owner, t) && Streaks.DayOf(t) == day {
      HappenedIsActivity(log, owner, t);
      assert t in Listed(all);
    }
  }

  /** The `n` days up to `last` were active, and the one before them was not. */
  ghost predicate ActiveRun(log: Log, owner: Id, last: int, n: nat) {
    (forall d :: last - n < d <= last ==> ActiveOn(log, owner, d)) && !ActiveOn(log, owner, last - n)
  }

  /**
    The uncached streak, from the commits: today counts as active if something
    happened today; the length is that of the run of active days ending today, or
    yesterday if nothing happened yet, up to 400; the last activity is the latest
    instant of the last 400 days and today.
  */
  lemma StreakFromCommits(log: Log, owner: Id, asOf: int, now: int, n: nat)
    requires ActiveRun(log, owner, if ActiveOn(log, owner, asOf) then asOf else asOf - 1, n)
    ensures var answer := Execute(ComputeStreak(owner, asOf), log, now);
            && answer.StreakValue?
            && (answer.streak.activeToday <==> ActiveOn(log, owner, asOf))
            && answer.streak.length == if n <= 400 then n else 400
  {
    var all := Listed(ActivityOf(log, owner));
    var days := Streaks.ActiveDays(all);
    forall d ensures d in days <==> ActiveOn(log, owner, d) {
      ActiveDaysAreActive(log, owner, d);
    }
    Streaks.WindowLosesNothing(all, asOf);
    Streaks.StreakIsCappedMaximalRun(all, asOf, n);
  }

  /** Every set of commits has such a run, so the streak is always that. */
  lemma ActiveRunExists(log: Log, owner: Id, last: int) returns (n: nat)
    ensures ActiveRun(log, owner, last, n)
  {
    var days := Streaks.ActiveDays(Listed(ActivityOf(log, owner)));
    n := Streaks.RunLength(days, last);
    Streaks.RunLengthIsMaximal(days, last);
    forall d ensures d in days <==> ActiveOn(log, owner, d) {
      ActiveDaysAreActive(log, owner, d);
    }
  }

  /** The last activity: the latest instant since midnight 400 days ago, if there is one. */
  lemma LastActivityFromCommits(log: Log, owner: Id, asOf: int, now: int, t: int)
    requires Happened(log, owner, t) && t >= 86_400 * (asOf - 400)
    ensures var answer := Execute(ComputeStreak(owner, asOf), log, now);
            && answer.StreakValue? && answer.streak.lastActive.Some?
            && Happened(log, owner, answer.streak.lastActive.value) && t <= answer.streak.lastActive.value
  {
    var since := Streaks.WindowStart(asOf);
    var kept := Streaks.Since(Listed(ActivityOf(log, owner)), since);
    HappenedIsActivity(log, owner, t);
    ListedMembers(ActivityOf(log, owner));
    Streaks.SinceMembers(Listed(ActivityOf(log, owner)), since);
    assert t in kept;
    Streaks.LatestIsMaximum(kept);
    HappenedIsActivity(log, owner, Streaks.Latest(kept));
  }

  lemma NoRecentActivity(log: Log, owner: Id, asOf: int, now: int)
    requires forall t :: Happened(log, owner, t) ==> t < 86_400 * (asOf - 400)
    ensures Execute(ComputeStreak(owner, asOf), log, now) == StreakValue(Streaks.Streak(0, false, None))
  {
    var since := Streaks.WindowStart(asOf);
    var kept := Streaks.Since(Listed(ActivityOf(log, owner)), since);
    ListedMembers(ActivityOf(log, owner));
    Streaks.SinceMembers(Listed(ActivityOf(log, owner)), since);
    forall t ensures t !in kept {
      HappenedIsActivity(log, owner, t);
    }
    Streaks.EmptyIffNoMember(kept);
  }
}
