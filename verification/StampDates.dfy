/**
  Whether a due stamp means that the date a task has was announced
  (services/notification_service.py, services/task_service.py).
*/
module StampDates {
  import opened Options
  import opened Tasks
  import opened DueReminders
  import opened ReminderRuns

  /** The job under way commits a due stamp on task `id`. */
  predicate StampsDue(s: State, e: Event, id: nat) {
    && e.JobCommits? && s.job.Some? && id in s.tasks && id in s.trails
    && Stamps(DueNotice, id, s.job.value, e.accepted) && !RollsBack(s, s.job.value, e.accepted)
  }

  /** The edit about to commit moves the due date of task `id` away from what it loaded. */
  predicate MovesDueOf(s: State, e: Event, id: nat) {
    && e.EditCommits? && e.edit in s.edits && s.edits[e.edit].task == id && id in s.tasks && id in s.trails
    && MovesDue(s.edits[e.edit].loaded, s.edits[e.edit].patch)
  }

  /** The due date of task `id` as the job that stamped it last had read it. */
  function DateRead(events: seq<Event>, id: nat): Option<int> {
    if events == [] then None
    else
      var s, e := Run(events[..|events| - 1]), events[|events| - 1];
      if StampsDue(s, e, id) then s.job.value.candidates[id].due else DateRead(events[..|events| - 1], id)
  }

  /**
    The due date of task `id` was moved under a stamp. Either the job that set the
    latest one had read another date than it found when it committed; or an edit,
    loaded before the stamp landed, moved the date away from the one that job had
    read and left the stamp alone. It lasts until the next stamp or such edit.
  */
  predicate Swallowed(events: seq<Event>, id: nat) {
    events != [] &&
    var p := events[..|events| - 1];
    SwallowedAfter(Run(p), events[|events| - 1], id, Swallowed(p, id), DateRead(p, id))
  }

  predicate SwallowedAfter(s: State, e: Event, id: nat, before: bool, read: Option<int>) {
    if StampsDue(s, e, id) then s.job.value.candidates[id].due != s.tasks[id].due
    else if MovesDueOf(s, e, id) then
      s.edits[e.edit].loaded.notifiedAt.None? && s.tasks[id].notifiedAt.Some? && s.edits[e.edit].patch.due.value != read
    else before
  }

  /** What the condition says of state `s` is what the announced date shows there. */
  ghost predicate Shows(s: State, id: nat, swallowed: bool, read: Option<int>) {
    && read == (if id in s.trails then s.trails[id].announced else None)
    && (id in s.tasks && s.tasks[id].notifiedAt.Some? ==> (read == s.tasks[id].due <==> !swallowed))
  }

  /**
    Main result. A task carrying a due stamp was announced with the date it has,
    exactly when its date was not moved under that stamp.
  */
  lemma {:induction false} StampIsCurrentIff(events: seq<Event>, id: nat)
    ensures var s := Run(events);
            id in s.tasks && s.tasks[id].notifiedAt.Some? ==>
              id in s.trails && (s.trails[id].announced == s.tasks[id].due <==> !Swallowed(events, id))
    ensures Shows(Run(events), id, Swallowed(events, id), DateRead(events, id))
  {
    RunInv(events);
    if events != [] {
      var p, e := events[..|events| - 1], events[|events| - 1];
      StampIsCurrentIff(p, id);
      RunInv(p);
      StepShows(Run(p), e, id, Swallowed(p, id), DateRead(p, id));
    }
  }

  function ReadAfter(s: State, e: Event, id: nat, read: Option<int>): Option<int> {
    if StampsDue(s, e, id) then s.job.value.candidates[id].due else read
  }

  lemma StepShows(s: State, e: Event, id: nat, swallowed: bool, read: Option<int>)
    requires Inv(s) && Shows(s, id, swallowed, read)
    ensures Shows(Step(s, e), id, SwallowedAfter(s, e, id, swallowed, read), ReadAfter(s, e, id, read))
  {
    if e.JobCommits? {
      CommitShows(s, e, id, swallowed, read);
    } else if e.EditCommits? && e.edit in s.edits && s.edits[e.edit].task == id && id in s.tasks {
      EditMovesOrKeeps(s.tasks[id], s.edits[e.edit], e.at);
    }
  }

  lemma CommitShows(s: State, e: Event, id: nat, swallowed: bool, read: Option<int>)
    requires Inv(s) && e.JobCommits? && Shows(s, id, swallowed, read)
    ensures Shows(Step(s, e), id, SwallowedAfter(s, e, id, swallowed, read), ReadAfter(s, e, id, read))
  {}

  lemma EditMovesOrKeeps(t: Row, e: Editing, at: int)
    ensures !MovesDue(e.loaded, e.patch) ==> Edited(t, e, at).due == t.due && Edited(t, e, at).notifiedAt == t.notifiedAt
    ensures MovesDue(e.loaded, e.patch) ==> Edited(t, e, at).due == e.patch.due.value
    ensures MovesDue(e.loaded, e.patch) ==>
              Edited(t, e, at).notifiedAt == if e.loaded.notifiedAt.Some? then None else t.notifiedAt
  {}

  /**
    No edit moves the due date of a task that a running job is about to announce,
    or that was stamped since the edit loaded it.
  */
  predicate DatesRestDuringJobs(events: seq<Event>) {
    events == [] ||
    (DatesRestDuringJobs(events[..|events| - 1]) && DateRests(Run(events[..|events| - 1]), events[|events| - 1]))
  }

  predicate DateRests(s: State, e: Event) {
    e.EditCommits? && e.edit in s.edits && MovesDueOf(s, e, s.edits[e.edit].task) ==>
      var id := s.edits[e.edit].task;
      && !(s.job.Some? && id in s.job.value.candidates)
      && s.tasks[id].notifiedAt == s.edits[e.edit].loaded.notifiedAt
  }

  ghost predicate CandidatesUnmoved(s: State) {
    s.job.Some? ==> forall id :: id in s.job.value.candidates && id in s.tasks ==>
      s.job.value.candidates[id].due == s.tasks[id].due
  }

  lemma {:induction false} NothingSwallowed(events: seq<Event>, id: nat)
    requires DatesRestDuringJobs(events)
    ensures CandidatesUnmoved(Run(events)) && !Swallowed(events, id)
  {
    if events != [] {
      var p, e := events[..|events| - 1], events[|events| - 1];
      NothingSwallowed(p, id);
      RunInv(p);
      StepUnmoved(Run(p), e);
    }
  }

  lemma StepUnmoved(s: State, e: Event)
    requires Inv(s) && CandidatesUnmoved(s) && DateRests(s, e)
    ensures CandidatesUnmoved(Step(s, e))
  {
    if e.EditCommits? && e.edit in s.edits && s.edits[e.edit].task in s.tasks {
      EditMovesOrKeeps(s.tasks[s.edits[e.edit].task], s.edits[e.edit], e.at);
    }
  }

  /** In particular, if the dates a job has read rest until it commits, every due stamp belongs to the date its task has. */
  lemma StampsAreCurrent(events: seq<Event>, id: nat)
    requires DatesRestDuringJobs(events)
    ensures var s := Run(events);
            id in s.tasks && s.tasks[id].notifiedAt.Some? ==> id in s.trails && s.trails[id].announced == s.tasks[id].due
  {
    NothingSwallowed(events, id);
    StampIsCurrentIff(events, id);
  }

  // ----- it does happen -----

  /** Task 0 is stamped for a date nobody was told about, and no job will ever select it as it is. */
  ghost predicate SwallowedForGood(events: seq<Event>, later: int) {
    var s := Run(events);
    && 0 in s.tasks && 0 in s.trails
    && s.tasks[0].due == Some(500) && s.tasks[0].notifiedAt == Some(100) && s.trails[0].announced == Some(100)
    && Swallowed(events, 0)
    && Where(s.tasks[0], later) != True
  }

  /** A run that ends in such a state was swallowed. */
  lemma EndsSwallowed(events: seq<Event>, trail: Trail, later: int)
    requires trail.announced == Some(100)
    requires Run(events) == State(map[0 := NewTask(0, Some(500), None).(notifiedAt := Some(100))], map[], None, map[0 := trail])
    ensures SwallowedForGood(events, later)
  {
    StampIsCurrentIff(events, 0);
  }

  /**
    The job picks up task 0, due at 100; before it commits the user moves the date
    to 500; the stamp then lands on the new date.
  */
  function MoveMidJob(): seq<Event> {
    [] + [Create(0, 0, Some(100), None)] + [JobStarts(100)] + [EditLoads(0, 0, TO_500)] + [EditCommits(0, 101)]
  }

  function Picked(): Job {
    Job(100, map[0 := NewTask(0, Some(100), None)])
  }

  lemma MovedState()
    ensures Run(MoveMidJob()) == State(map[0 := NewTask(0, Some(500), None)], map[], Some(Picked()),
                                       map[0 := Trail(History(1, []), History(1, []), None)])
  {
    var e0, e1, e2, e3 := Create(0, 0, Some(100), None), JobStarts(100), EditLoads(0, 0, TO_500), EditCommits(0, 101);
    RunAppend([], e0);
    RunAppend([] + [e0], e1);
    OneTaskStarts(NewTask(0, Some(100), None), map[], NO_TRAIL, 100);
    RunAppend([] + [e0] + [e1], e2);
    RunAppend([] + [e0] + [e1] + [e2], e3);
  }

  lemma MoveDuringJobIsSwallowed(later: int)
    ensures SwallowedForGood(MoveMidJob() + [JobCommits({(DueNotice, 0)})], later)
  {
    MovedState();
    var e := JobCommits({(DueNotice, 0)});
    RunAppend(MoveMidJob(), e);
    OneTaskCommits(NewTask(0, Some(500), None), NewTask(0, Some(100), None), map[],
                   Trail(History(1, []), History(1, []), None), 100);
    assert [] + [1] == [1];
    EndsSwallowed(MoveMidJob() + [e], Trail(History(1, [1]), History(1, []), Some(100)), later);
  }

  /**
    So it does without any edit during the job: here the edit loads the task
    before the job starts, and commits after it.
  */
  function JobWithinEdit(): seq<Event> {
    [] + [Create(0, 0, Some(100), None)] + [EditLoads(0, 0, TO_500)] + [JobStarts(100)] + [JobCommits({(DueNotice, 0)})]
  }

  lemma StampedState()
    ensures Run(JobWithinEdit()) ==
              State(map[0 := NewTask(0, Some(100), None).(notifiedAt := Some(100))],
                    map[0 := Editing(0, NewTask(0, Some(100), None), TO_500)], None,
                    map[0 := Trail(History(0, [0]), History(0, []), Some(100))])
  {
    var e0, e1, e2, e3 := Create(0, 0, Some(100), None), EditLoads(0, 0, TO_500), JobStarts(100), JobCommits({(DueNotice, 0)});
    RunAppend([], e0);
    RunAppend([] + [e0], e1);
    RunAppend([] + [e0] + [e1], e2);
    RunAppend([] + [e0] + [e1] + [e2], e3);
    var t := NewTask(0, Some(100), None);
    OneTaskStarts(t, map[0 := Editing(0, t, TO_500)], NO_TRAIL, 100);
    OneTaskCommits(t, t, map[0 := Editing(0, t, TO_500)], NO_TRAIL, 100);
    assert [] + [0] == [0];
  }

  lemma MoveAroundJobIsSwallowed(later: int)
    ensures SwallowedForGood(JobWithinEdit() + [EditCommits(0, 101)], later)
  {
    StampedState();
    RunAppend(JobWithinEdit(), EditCommits(0, 101));
    EndsSwallowed(JobWithinEdit() + [EditCommits(0, 101)], Trail(History(1, [0]), History(1, []), Some(100)), later);
  }
}
