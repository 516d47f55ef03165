/**
  The due-task job (services/notification_service.py) against task edits
  (services/task_service.py). The job reads its candidates, awaits the push
  service for each, and only then commits its stamps; an edit loads its row and
  commits later. The advisory lock admits one job at a time.
*/
module ReminderRuns {
  import opened Options
  import opened Tasks
  import opened DueReminders
  import Push

  /** A job between its query and its commit. */
  datatype Job = Job(at: int, candidates: map<nat, Row>)

  /** An update between loading its row and committing. */
  datatype Editing = Editing(task: nat, loaded: Row, patch: Patch)

  /** For one kind of notice: how often what it goes by changed in the stored row, and that count at each stamp. */
  datatype History = History(moves: nat, stamps: seq<nat>)

  /** History of one task, with the due date announced last. */
  datatype Trail = Trail(due: History, lead: History, announced: Option<int>)

  const NO_TRAIL := Trail(History(0, []), History(0, []), None)

  datatype State = State(tasks: map<nat, Row>, edits: map<nat, Editing>, job: Option<Job>, trails: map<nat, Trail>)

  const START := State(map[], map[], None, map[])

  datatype Event =
    | Create(id: nat, owner: nat, due: Option<int>, leadMinutes: Option<int>)
    | EditLoads(edit: nat, id: nat, patch: Patch)
    | EditCommits(edit: nat, at: int)
    | Delete(id: nat)
    | JobStarts(at: int)
    | JobCommits(accepted: set<(Kind, nat)>)
    | JobFails

  /** What a notice goes by: the due date, and for a lead notice the lead time too. */
  function Setting(kind: Kind, t: Row): (Option<int>, Option<int>) {
    (t.due, if kind == LeadNotice then t.leadMinutes else None)
  }

  function StampOf(kind: Kind, t: Row): Option<int> {
    match kind
    case DueNotice => t.notifiedAt
    case LeadNotice => t.leadNotifiedAt
  }

  function HistoryOf(kind: Kind, trail: Trail): History {
    match kind
    case DueNotice => trail.due
    case LeadNotice => trail.lead
  }

  function Wanted(e: Editing, at: int): Row {
    Updated(e.loaded, e.patch, at)
  }

  function Edited(current: Row, e: Editing, at: int): Row {
    Written(current, e.loaded, Wanted(e, at))
  }

  function Moved(kind: Kind, h: History, before: Row, after: Row): History {
    if Setting(kind, before) == Setting(kind, after) then h else h.(moves := h.moves + 1)
  }

  function Marked(h: History, stamped: bool): History {
    if stamped then h.(stamps := h.stamps + [h.moves]) else h
  }

  predicate Stamps(kind: Kind, id: nat, job: Job, accepted: set<(Kind, nat)>) {
    id in job.candidates && Fires(kind, job.candidates[id], job.at) && (kind, id) in accepted
  }

  /** A row to be stamped was deleted meanwhile: the UPDATE misses it and nothing is committed. */
  predicate RollsBack(s: State, job: Job, accepted: set<(Kind, nat)>) {
    exists id | id in job.candidates ::
      id !in s.tasks && (Stamps(DueNotice, id, job, accepted) || Stamps(LeadNotice, id, job, accepted))
  }

  function TrailAfter(trail: Trail, id: nat, job: Job, accepted: set<(Kind, nat)>): Trail {
    var due, lead := Stamps(DueNotice, id, job, accepted), Stamps(LeadNotice, id, job, accepted);
    Trail(Marked(trail.due, due), Marked(trail.lead, lead), if due then job.candidates[id].due else trail.announced)
  }

  function RowAfter(t: Row, id: nat, job: Job, accepted: set<(Kind, nat)>): Row {
    Stamp(t, Stamps(DueNotice, id, job, accepted), Stamps(LeadNotice, id, job, accepted), job.at)
  }

  /** The commit writes the stamped columns only. */
  function Commit(s: State, job: Job, accepted: set<(Kind, nat)>): State {
    if RollsBack(s, job, accepted) then s.(job := None)
    else State(
      map id | id in s.tasks :: RowAfter(s.tasks[id], id, job, accepted),
      s.edits,
      None,
      map id | id in s.trails :: if id in s.tasks then TrailAfter(s.trails[id], id, job, accepted) else s.trails[id])
  }

  function CommitEdit(s: State, edit: nat, at: int): State
    requires edit in s.edits
  {
    var e := s.edits[edit];
    if e.task !in s.tasks || e.task !in s.trails then s.(edits := s.edits - {edit})
    else
      var before, trail := s.tasks[e.task], s.trails[e.task];
      var after := Edited(before, e, at);
      State(s.tasks[e.task := after], s.edits - {edit}, s.job,
            s.trails[e.task := trail.(due := Moved(DueNotice, trail.due, before, after),
                                      lead := Moved(LeadNotice, trail.lead, before, after))])
  }

  function Step(s: State, e: Event): State {
    match e
    case Create(id, owner, due, lead) =>
      if id in s.trails then s
      else s.(tasks := s.tasks[id := NewTask(owner, due, lead)], trails := s.trails[id := NO_TRAIL])
    case EditLoads(edit, id, patch) =>
      if edit in s.edits || id !in s.tasks then s else s.(edits := s.edits[edit := Editing(id, s.tasks[id], patch)])
    case EditCommits(edit, at) => if edit in s.edits then CommitEdit(s, edit, at) else s
    case Delete(id) => s.(tasks := s.tasks - {id})
    case JobStarts(at) => if s.job.Some? then s else s.(job := Some(Job(at, Candidates(s.tasks, at))))
    case JobCommits(accepted) => if s.job.None? then s else Commit(s, s.job.value, accepted)
    case JobFails => s.(job := None)
  }

  function Run(events: seq<Event>): State {
    if events == [] then START else Step(Run(events[..|events| - 1]), events[|events| - 1])
  }

  lemma RunAppend(events: seq<Event>, e: Event)
    ensures Run(events + [e]) == Step(Run(events), e)
  {
    assert (events + [e])[..|events|] == events;
  }

  /** With no edit in between, query and commit together do what SendDueTaskNotifications does. */
  lemma JobWithoutEdits(s: State, now: int, table: Push.Table, deliver: Deliveries, accepted: set<(Kind, nat)>)
    requires s.job.None?
    requires forall id, kind :: id in s.tasks ==>
               ((kind, id) in accepted <==> Delivered(kind, id, s.tasks[id], table, now, deliver))
    ensures Step(Step(s, JobStarts(now)), JobCommits(accepted)).tasks ==
              map id | id in s.tasks ::
                if id in Candidates(s.tasks, now) then Stamped(id, s.tasks[id], table, now, deliver) else s.tasks[id]
  {}

  // ----- what every run keeps -----

  /** Only the job stamps, so what it saw unstamped stays unstamped until it commits. */
  predicate StillUnstamped(seen: Row, now: Row) {
    && (seen.notifiedAt.None? ==> now.notifiedAt.None?)
    && (seen.leadNotifiedAt.None? ==> now.leadNotifiedAt.None?)
  }

  ghost predicate Inv(s: State) {
    && s.tasks.Keys <= s.trails.Keys
    && (s.job.Some? ==> s.job.value.candidates.Keys <= s.trails.Keys)
    && (s.job.Some? ==> forall id :: id in s.job.value.candidates && id in s.tasks ==>
          StillUnstamped(s.job.value.candidates[id], s.tasks[id]))
  }

  /** An edit never sets a stamp. It clears one exactly if it loaded one and moves what the notice goes by. */
  lemma EditClears(t: Row, e: Editing, at: int, kind: Kind)
    ensures StampOf(kind, Edited(t, e, at)) ==
              if StampOf(kind, e.loaded).Some? && Setting(kind, Wanted(e, at)) != Setting(kind, e.loaded) then None
              else StampOf(kind, t)
    ensures Setting(kind, Wanted(e, at)) == Setting(kind, e.loaded) ==> Setting(kind, Edited(t, e, at)) == Setting(kind, t)
  {}

  lemma StepInv(s: State, e: Event)
    requires Inv(s)
    ensures Inv(Step(s, e))
  {
    if e.EditCommits? && e.edit in s.edits && s.edits[e.edit].task in s.tasks {
      EditClears(s.tasks[s.edits[e.edit].task], s.edits[e.edit], e.at, DueNotice);
      EditClears(s.tasks[s.edits[e.edit].task], s.edits[e.edit], e.at, LeadNotice);
    }
  }

  lemma {:induction false} RunInv(events: seq<Event>)
    ensures Inv(Run(events))
  {
    if events != [] {
      RunInv(events[..|events| - 1]);
      StepInv(Run(events[..|events| - 1]), events[|events| - 1]);
    }
  }

  // ----- one notice for one date, and when not -----

  /**
    The edit is about to take the stamp of a notice although it leaves the stored
    row as it is: it loaded the row stamped, moves what it loaded, and moves it to
    what is stored already.
  */
  predicate Rewrites(kind: Kind, s: State, edit: nat) {
    && edit in s.edits && s.edits[edit].task in s.tasks
    && var e, t := s.edits[edit], s.tasks[s.edits[edit].task];
       && StampOf(kind, t).Some? && StampOf(kind, e.loaded).Some?
       && Setting(kind, Wanted(e, 0)) != Setting(kind, e.loaded)
       && Setting(kind, Edited(t, e, 0)) == Setting(kind, t)
  }

  /** In the row's own fields: for a due notice, the date; for a lead notice, the date and the lead time. */
  lemma RewritesIff(s: State, edit: nat)
    requires edit in s.edits && s.edits[edit].task in s.tasks
    ensures var loaded, p, t := s.edits[edit].loaded, s.edits[edit].patch, s.tasks[s.edits[edit].task];
            && (Rewrites(DueNotice, s, edit) <==>
                  t.notifiedAt.Some? && loaded.notifiedAt.Some? && MovesDue(loaded, p) && p.due.value == t.due)
            && (Rewrites(LeadNotice, s, edit) <==>
                  && t.leadNotifiedAt.Some? && loaded.leadNotifiedAt.Some? && (MovesDue(loaded, p) || MovesLead(loaded, p))
                  && (MovesDue(loaded, p) ==> p.due.value == t.due)
                  && (MovesLead(loaded, p) ==> p.leadMinutes.value == t.leadMinutes))
  {}

  predicate NoRewrites(events: seq<Event>, kind: Kind) {
    events == [] ||
    (NoRewrites(events[..|events| - 1], kind)
     && (events[|events| - 1].EditCommits? ==> !Rewrites(kind, Run(events[..|events| - 1]), events[|events| - 1].edit)))
  }

  predicate Increasing(s: seq<nat>) {
    |s| < 2 || (s[|s| - 2] < s[|s| - 1] && Increasing(s[..|s| - 1]))
  }

  predicate Below(s: seq<nat>, n: nat) {
    s == [] || s[|s| - 1] < n
  }

  /** Stamps at different counts; and without a stamp, what the notice goes by changed since the last one. */
  predicate Paced(h: History, stamped: bool) {
    Increasing(h.stamps) && Below(h.stamps, if stamped then h.moves + 1 else h.moves)
  }

  ghost predicate AllPaced(s: State, kind: Kind) {
    forall id :: id in s.trails ==>
      Paced(HistoryOf(kind, s.trails[id]), id !in s.tasks || StampOf(kind, s.tasks[id]).Some?)
  }

  lemma MarkedIsPaced(h: History, stamped: bool, stamp: bool)
    requires Paced(h, stamped) && (stamp ==> !stamped)
    ensures Paced(Marked(h, stamp), stamped || stamp)
  {
    assert (h.stamps + [h.moves])[..|h.stamps|] == h.stamps;
  }

  lemma CommitPaced(s: State, accepted: set<(Kind, nat)>, kind: Kind)
    requires Inv(s) && AllPaced(s, kind) && s.job.Some?
    ensures AllPaced(Commit(s, s.job.value, accepted), kind)
  {
    var s' := Commit(s, s.job.value, accepted);
    forall id | id in s'.trails
      ensures Paced(HistoryOf(kind, s'.trails[id]), id !in s'.tasks || StampOf(kind, s'.tasks[id]).Some?)
    {
      if id in s.tasks && s'.trails != s.trails {
        MarkedIsPaced(HistoryOf(kind, s.trails[id]), StampOf(kind, s.tasks[id]).Some?, Stamps(kind, id, s.job.value, accepted));
      }
    }
  }

  lemma EditPaced(s: State, edit: nat, at: int, kind: Kind)
    requires Inv(s) && AllPaced(s, kind) && edit in s.edits && !Rewrites(kind, s, edit)
    ensures AllPaced(CommitEdit(s, edit, at), kind)
  {
    var e := s.edits[edit];
    if e.task in s.tasks {
      EditClears(s.tasks[e.task], e, at, kind);
    }
  }

  lemma StepPaced(s: State, e: Event, kind: Kind)
    requires Inv(s) && AllPaced(s, kind) && (e.EditCommits? ==> !Rewrites(kind, s, e.edit))
    ensures AllPaced(Step(s, e), kind)
  {
    match e {
      case EditCommits(edit, at) => if edit in s.edits { EditPaced(s, edit, at, kind); }
      case JobCommits(accepted) => if s.job.Some? { CommitPaced(s, accepted, kind); }
      case _ =>
    }
  }

  lemma {:induction false} RunPaced(events: seq<Event>, kind: Kind)
    requires NoRewrites(events, kind)
    ensures AllPaced(Run(events), kind)
  {
    if events != [] {
      RunPaced(events[..|events| - 1], kind);
      RunInv(events[..|events| - 1]);
      StepPaced(Run(events[..|events| - 1]), events[|events| - 1], kind);
    }
  }

  lemma {:induction false} IncreasingApart(s: seq<nat>, i: nat, j: nat)
    requires Increasing(s) && i < j < |s|
    ensures s[i] < s[j]
  {
    if j < |s| - 1 {
      IncreasingApart(s[..|s| - 1], i, j);
    } else if i < j - 1 {
      IncreasingApart(s[..|s| - 1], i, j - 1);
    }
  }

  /**
    Main result. Unless some edit rewrote what was stored already, between any two
    stamped due notices for a task its stored due date changed, and between any two
    stamped lead notices its stored due date or lead time.
  */
  lemma EachNoticeOncePerDate(events: seq<Event>, id: nat, kind: Kind, i: nat, j: nat)
    requires NoRewrites(events, kind) && id in Run(events).trails
    requires i < j < |HistoryOf(kind, Run(events).trails[id]).stamps|
    ensures HistoryOf(kind, Run(events).trails[id]).stamps[i] < HistoryOf(kind, Run(events).trails[id]).stamps[j]
  {
    RunPaced(events, kind);
    IncreasingApart(HistoryOf(kind, Run(events).trails[id]).stamps, i, j);
  }

  /** Every edit finds the row it loaded when it commits. */
  predicate EditsFindWhatTheyLoaded(events: seq<Event>) {
    events == [] ||
    (EditsFindWhatTheyLoaded(events[..|events| - 1])
     && (var s, e := Run(events[..|events| - 1]), events[|events| - 1];
         e.EditCommits? && e.edit in s.edits && s.edits[e.edit].task in s.tasks ==>
           s.tasks[s.edits[e.edit].task] == s.edits[e.edit].loaded))
  }

  /** In particular, edits that do not overlap with anything rewrite nothing. */
  lemma {:induction false} LoneEditsRewriteNothing(events: seq<Event>, kind: Kind)
    requires EditsFindWhatTheyLoaded(events)
    ensures NoRewrites(events, kind)
  {
    if events != [] {
      LoneEditsRewriteNothing(events[..|events| - 1], kind);
      var s, e := Run(events[..|events| - 1]), events[|events| - 1];
      if e.EditCommits? && e.edit in s.edits && s.edits[e.edit].task in s.tasks {
        WrittenAlone(s.edits[e.edit].loaded, s.edits[e.edit].patch, 0);
      }
    }
  }

  // ----- every date is announced -----

  /** The notice was stamped since what it goes by changed last. */
  predicate Announced(h: History) {
    h.stamps != [] && h.stamps[|h.stamps| - 1] == h.moves
  }

  ghost predicate StampsTellHistory(s: State, kind: Kind) {
    forall id :: id in s.tasks && id in s.trails ==>
      (StampOf(kind, s.tasks[id]).Some? <==> Announced(HistoryOf(kind, s.trails[id])))
  }

  lemma StepTellsHistory(s: State, e: Event, kind: Kind)
    requires Inv(s) && AllPaced(s, kind) && StampsTellHistory(s, kind)
    requires e.EditCommits? && e.edit in s.edits && s.edits[e.edit].task in s.tasks ==>
               s.tasks[s.edits[e.edit].task] == s.edits[e.edit].loaded
    ensures StampsTellHistory(Step(s, e), kind)
  {
    match e {
      case EditCommits(edit, at) => if edit in s.edits && s.edits[edit].task in s.tasks { EditTellsHistory(s, edit, at, kind); }
      case JobCommits(accepted) => if s.job.Some? { CommitTellsHistory(s, accepted, kind); }
      case _ =>
    }
  }

  lemma EditTellsHistory(s: State, edit: nat, at: int, kind: Kind)
    requires Inv(s) && AllPaced(s, kind) && StampsTellHistory(s, kind)
    requires edit in s.edits && s.edits[edit].task in s.tasks && s.tasks[s.edits[edit].task] == s.edits[edit].loaded
    ensures StampsTellHistory(CommitEdit(s, edit, at), kind)
  {
    var e := s.edits[edit];
    WrittenAlone(e.loaded, e.patch, at);
    EditClears(e.loaded, e, at, kind);
    assert Paced(HistoryOf(kind, s.trails[e.task]), StampOf(kind, e.loaded).Some?);
  }

  lemma CommitTellsHistory(s: State, accepted: set<(Kind, nat)>, kind: Kind)
    requires Inv(s) && StampsTellHistory(s, kind) && s.job.Some?
    ensures StampsTellHistory(Commit(s, s.job.value, accepted), kind)
  {}

  lemma {:induction false} RunTellsHistory(events: seq<Event>, kind: Kind)
    requires EditsFindWhatTheyLoaded(events)
    ensures StampsTellHistory(Run(events), kind)
  {
    if events != [] {
      var p := events[..|events| - 1];
      RunTellsHistory(p, kind);
      RunInv(p);
      LoneEditsRewriteNothing(p, kind);
      RunPaced(p, kind);
      StepTellsHistory(Run(p), events[|events| - 1], kind);
    }
  }

  /** A notice of task `id` is owed at `now`: its time has come, and it was not stamped since what it goes by changed. */
  predicate Owed(s: State, kind: Kind, id: nat, now: int)
    requires id in s.tasks && id in s.trails
  {
    && CanFire(kind, s.tasks[id]) && FiringTime(kind, s.tasks[id]) <= now
    && !Announced(HistoryOf(kind, s.trails[id]))
  }

  /**
    Main result. After any run of edits that do not overlap with anything, a job
    selects exactly the open tasks to which a due or lead notice is owed.
  */
  lemma SelectedIffOwed(events: seq<Event>, id: nat, now: int)
    requires EditsFindWhatTheyLoaded(events) && id in Run(events).tasks
    ensures id in Run(events).trails
    ensures var s := Run(events);
            id in Candidates(s.tasks, now) <==>
              s.tasks[id].status != Done && (Owed(s, DueNotice, id, now) || Owed(s, LeadNotice, id, now))
  {
    RunInv(events);
    RunTellsHistory(events, DueNotice);
    RunTellsHistory(events, LeadNotice);
    FilterIsFires(Run(events).tasks[id], now);
  }

  /** What the notice goes by is complete, so it will fire some day. */
  predicate CanFire(kind: Kind, t: Row) {
    t.due.Some? && (kind == LeadNotice ==> t.leadMinutes.Some?)
  }

  /** When the notice of task `t` fires: at its due date, or that many minutes before. */
  function FiringTime(kind: Kind, t: Row): int
    requires CanFire(kind, t)
  {
    match kind
    case DueNotice => t.due.value
    case LeadNotice => t.due.value - 60 * t.leadMinutes.value
  }

  /** A new task is selected as soon as it is due, or within its lead time of that. */
  lemma NewTaskIsSelectedInTime(events: seq<Event>, id: nat, owner: nat, due: Option<int>, lead: Option<int>, now: int)
    requires id !in Run(events).trails
    ensures var s := Run(events + [Create(id, owner, due, lead)]);
            id in s.tasks && (id in Candidates(s.tasks, now) <==>
              due.Some? && (due.value <= now || (lead.Some? && due.value - 60 * lead.value <= now)))
  {
    RunAppend(events, Create(id, owner, due, lead));
    FilterIsFires(NewTask(owner, due, lead), now);
  }

  // ----- exactly when a date at rest is announced again -----

  function StampCount(s: State, kind: Kind, id: nat): nat {
    if id in s.trails then |HistoryOf(kind, s.trails[id]).stamps| else 0
  }

  predicate SameSetting(s: State, s': State, kind: Kind, id: nat) {
    id in s.tasks && id in s'.tasks && Setting(kind, s'.tasks[id]) == Setting(kind, s.tasks[id])
  }

  /** While `rest` follows, what the notice goes by never changes. */
  predicate Rests(events: seq<Event>, rest: seq<Event>, kind: Kind, id: nat) {
    rest == [] ||
    (Rests(events, rest[..|rest| - 1], kind, id) && SameSetting(Run(events), Run(events + rest), kind, id))
  }

  ghost predicate CanBeStampedAgain(events: seq<Event>, kind: Kind, id: nat) {
    exists rest :: Rests(events, rest, kind, id)
                   && StampCount(Run(events + rest), kind, id) > StampCount(Run(events), kind, id)
  }

  /** Stamped, and no edit in flight is about to take the stamp without a change. */
  ghost predicate Safe(s: State, kind: Kind, id: nat) {
    && id in s.tasks && StampOf(kind, s.tasks[id]).Some?
    && forall edit :: edit in s.edits && s.edits[edit].task == id ==> !Rewrites(kind, s, edit)
  }

  lemma RewritesGoesBySetting(kind: Kind, s: State, s': State, id: nat, edit: nat)
    requires SameSetting(s, s', kind, id) && StampOf(kind, s.tasks[id]).Some? && StampOf(kind, s'.tasks[id]).Some?
    requires edit in s.edits && edit in s'.edits && s.edits[edit] == s'.edits[edit] && s.edits[edit].task == id
    ensures Rewrites(kind, s, edit) <==> Rewrites(kind, s', edit)
  {}

  /** A safe stamp outlives every event that leaves its date alone, and no job adds another. */
  lemma StaysSafe(s: State, e: Event, kind: Kind, id: nat)
    requires Inv(s) && Safe(s, kind, id) && SameSetting(s, Step(s, e), kind, id)
    ensures Safe(Step(s, e), kind, id) && StampCount(Step(s, e), kind, id) == StampCount(s, kind, id)
  {
    StampStays(s, e, kind, id);
    var s' := Step(s, e);
    forall edit | edit in s'.edits && s'.edits[edit].task == id ensures !Rewrites(kind, s', edit) {
      if edit in s.edits {
        RewritesGoesBySetting(kind, s, s', id, edit);
      }
    }
  }

  lemma StampStays(s: State, e: Event, kind: Kind, id: nat)
    requires Inv(s) && Safe(s, kind, id) && SameSetting(s, Step(s, e), kind, id)
    ensures StampOf(kind, Step(s, e).tasks[id]).Some? && StampCount(Step(s, e), kind, id) == StampCount(s, kind, id)
  {
    match e {
      case EditCommits(edit, at) =>
        if edit in s.edits && s.edits[edit].task == id {
          EditClears(s.tasks[id], s.edits[edit], at, kind);
        }
      case JobCommits(accepted) =>
        if s.job.Some? && id in s.job.value.candidates {
          assert StillUnstamped(s.job.value.candidates[id], s.tasks[id]);
        }
      case _ =>
    }
  }

  lemma {:induction false} SafeWhileResting(events: seq<Event>, rest: seq<Event>, kind: Kind, id: nat)
    requires Safe(Run(events), kind, id) && Rests(events, rest, kind, id)
    ensures Safe(Run(events + rest), kind, id)
    ensures SameSetting(Run(events), Run(events + rest), kind, id)
    ensures StampCount(Run(events + rest), kind, id) == StampCount(Run(events), kind, id)
  {
    if rest == [] {
      assert events + rest == events;
    } else {
      var p := rest[..|rest| - 1];
      SafeWhileResting(events, p, kind, id);
      assert (events + rest)[..|events + rest| - 1] == events + p;
      RunInv(events + p);
      StaysSafe(Run(events + p), rest[|rest| - 1], kind, id);
    }
  }

  // The way there: let the edit commit, reopen the task, and run a job.

  /** `rest` leads from the run so far to `s`, and what the notice goes by never changed. */
  predicate RestsTo(events: seq<Event>, rest: seq<Event>, kind: Kind, id: nat, s: State) {
    id in Run(events).tasks && Rests(events, rest, kind, id) && Run(events + rest) == s
  }

  lemma RestsMore(events: seq<Event>, rest: seq<Event>, e: Event, kind: Kind, id: nat, s: State)
    requires RestsTo(events, rest, kind, id, s) && SameSetting(Run(events), Step(s, e), kind, id)
    ensures RestsTo(events, rest + [e], kind, id, Step(s, e))
  {
    assert (rest + [e])[..|rest|] == rest;
    assert events + (rest + [e]) == events + rest + [e];
    RunAppend(events + rest, e);
  }

  const REOPEN := Patch(Set(Todo), Unset, Unset)

  /** The task is open and unstamped, with no job under way and what the notice goes by unchanged. */
  predicate Ready(s0: State, s: State, kind: Kind, id: nat) {
    SameSetting(s0, s, kind, id) && s.job.None? && id in s.trails
    && StampOf(kind, s.tasks[id]).None? && s.tasks[id].status != Done && StampCount(s, kind, id) == StampCount(s0, kind, id)
  }

  lemma ClearAndReopen(events: seq<Event>, kind: Kind, id: nat, edit: nat) returns (rest: seq<Event>, s: State)
    requires Rewrites(kind, Run(events), edit) && Run(events).edits[edit].task == id
    ensures RestsTo(events, rest, kind, id, s) && Ready(Run(events), s, kind, id)
  {
    var s0 := Run(events);
    RunInv(events);
    assert events + [] == events;
    var s1 := Step(s0, JobFails);
    RestsMore(events, [], JobFails, kind, id, s0);
    var s2 := Cleared(s1, kind, id, edit);
    RestsMore(events, [] + [JobFails], EditCommits(edit, 0), kind, id, s1);
    var loads, commits := EditLoads(edit, id, REOPEN), EditCommits(edit, 0);
    var s3 := Reopening(s0, s2, kind, id, edit);
    RestsMore(events, [] + [JobFails] + [EditCommits(edit, 0)], loads, kind, id, s2);
    RestsMore(events, [] + [JobFails] + [EditCommits(edit, 0)] + [loads], commits, kind, id, Step(s2, loads));
    rest, s := [] + [JobFails] + [EditCommits(edit, 0)] + [loads] + [commits], s3;
  }

  lemma Cleared(s: State, kind: Kind, id: nat, edit: nat) returns (s': State)
    requires Inv(s) && s.job.None? && Rewrites(kind, s, edit) && s.edits[edit].task == id
    ensures s' == Step(s, EditCommits(edit, 0)) && SameSetting(s, s', kind, id) && s'.job.None? && edit !in s'.edits
    ensures id in s'.trails && StampOf(kind, s'.tasks[id]).None? && StampCount(s', kind, id) == StampCount(s, kind, id)
  {
    EditClears(s.tasks[id], s.edits[edit], 0, kind);
    s' := Step(s, EditCommits(edit, 0));
  }

  lemma Reopening(s0: State, s: State, kind: Kind, id: nat, edit: nat) returns (s': State)
    requires SameSetting(s0, s, kind, id) && s.job.None? && edit !in s.edits && id in s.trails
    requires StampOf(kind, s.tasks[id]).None? && StampCount(s, kind, id) == StampCount(s0, kind, id)
    ensures SameSetting(s0, Step(s, EditLoads(edit, id, REOPEN)), kind, id)
    ensures s' == Step(Step(s, EditLoads(edit, id, REOPEN)), EditCommits(edit, 0)) && Ready(s0, s', kind, id)
  {
    s' := Step(Step(s, EditLoads(edit, id, REOPEN)), EditCommits(edit, 0));
    WrittenAlone(s.tasks[id], REOPEN, 0);
  }

  lemma StampedOnceMore(s0: State, s: State, kind: Kind, id: nat)
    requires Ready(s0, s, kind, id) && CanFire(kind, s.tasks[id])
    ensures var started := Step(s, JobStarts(FiringTime(kind, s.tasks[id])));
            var s' := Step(started, JobCommits({(kind, id)}));
            && SameSetting(s0, started, kind, id) && SameSetting(s0, s', kind, id)
            && StampCount(s', kind, id) > StampCount(s0, kind, id)
  {
    FilterIsFires(s.tasks[id], FiringTime(kind, s.tasks[id]));
    var job := Job(FiringTime(kind, s.tasks[id]), Candidates(s.tasks, FiringTime(kind, s.tasks[id])));
    assert Stamps(kind, id, job, {(kind, id)});
  }

  lemma RewriteRepeatsNotice(events: seq<Event>, kind: Kind, id: nat, edit: nat)
    requires Rewrites(kind, Run(events), edit) && Run(events).edits[edit].task == id
    requires CanFire(kind, Run(events).tasks[id])
    ensures CanBeStampedAgain(events, kind, id)
  {
    var rest, s := ClearAndReopen(events, kind, id, edit);
    var starts, commits := JobStarts(FiringTime(kind, s.tasks[id])), JobCommits({(kind, id)});
    StampedOnceMore(Run(events), s, kind, id);
    RestsMore(events, rest, starts, kind, id, s);
    RestsMore(events, rest + [starts], commits, kind, id, Step(s, starts));
    RestsToMoreStamps(events, rest + [starts] + [commits], kind, id, Step(Step(s, starts), commits));
  }

  lemma RestsToMoreStamps(events: seq<Event>, rest: seq<Event>, kind: Kind, id: nat, s: State)
    requires RestsTo(events, rest, kind, id, s) && StampCount(s, kind, id) > StampCount(Run(events), kind, id)
    ensures CanBeStampedAgain(events, kind, id)
  {}

  /** If the notice can never fire as things are, no job under way is about to stamp it. */
  ghost predicate Mute(s: State, kind: Kind, id: nat) {
    id in s.tasks && !CanFire(kind, s.tasks[id])
    && (s.job.Some? && id in s.job.value.candidates ==> !Fires(kind, s.job.value.candidates[id], s.job.value.at))
  }

  lemma {:induction false} MuteWhileResting(events: seq<Event>, rest: seq<Event>, kind: Kind, id: nat)
    requires Mute(Run(events), kind, id) && Rests(events, rest, kind, id)
    ensures Mute(Run(events + rest), kind, id)
    ensures StampCount(Run(events + rest), kind, id) == StampCount(Run(events), kind, id)
  {
    if rest == [] {
      assert events + rest == events;
    } else {
      var p := rest[..|rest| - 1];
      MuteWhileResting(events, p, kind, id);
      assert (events + rest)[..|events + rest| - 1] == events + p;
      RunInv(events + p);
      StaysMute(Run(events + p), rest[|rest| - 1], kind, id);
    }
  }

  lemma StaysMute(s: State, e: Event, kind: Kind, id: nat)
    requires Inv(s) && Mute(s, kind, id)
    requires id in Step(s, e).tasks && !CanFire(kind, Step(s, e).tasks[id])
    ensures Mute(Step(s, e), kind, id) && StampCount(Step(s, e), kind, id) == StampCount(s, kind, id)
  {}

  /**
    Main result. After any run, a notice stamped for a task can be stamped once
    more while the date it goes by stays as it is, exactly when that date can fire
    and an edit in flight loaded the task stamped, moves the date it loaded, and
    moves it to the date already stored.
  */
  lemma StampedAgainIff(events: seq<Event>, kind: Kind, id: nat)
    requires id in Run(events).tasks && StampOf(kind, Run(events).tasks[id]).Some?
    ensures CanBeStampedAgain(events, kind, id) <==>
              CanFire(kind, Run(events).tasks[id])
              && exists edit :: edit in Run(events).edits && Run(events).edits[edit].task == id && Rewrites(kind, Run(events), edit)
  {
    RunInv(events);
    if !CanFire(kind, Run(events).tasks[id]) {
      forall rest | Rests(events, rest, kind, id)
        ensures StampCount(Run(events + rest), kind, id) == StampCount(Run(events), kind, id)
      {
        MuteWhileResting(events, rest, kind, id);
      }
    } else if edit :| edit in Run(events).edits && Run(events).edits[edit].task == id && Rewrites(kind, Run(events), edit) {
      RewriteRepeatsNotice(events, kind, id, edit);
    } else {
      forall rest | Rests(events, rest, kind, id)
        ensures StampCount(Run(events + rest), kind, id) == StampCount(Run(events), kind, id)
      {
        SafeWhileResting(events, rest, kind, id);
      }
    }
  }

  // ----- it does happen -----

  /** A job starts on a database of one task that is due. */
  lemma OneTaskStarts(t: Row, edits: map<nat, Editing>, trail: Trail, at: int)
    requires t.status != Done && Fires(DueNotice, t, at)
    ensures Step(State(map[0 := t], edits, None, map[0 := trail]), JobStarts(at)) ==
              State(map[0 := t], edits, Some(Job(at, map[0 := t])), map[0 := trail])
  {
    FilterIsFires(t, at);
    assert Candidates(map[0 := t], at) == map[0 := t];
  }

  /** And commits its due stamp on whatever that task is by then. */
  lemma OneTaskCommits(t: Row, seen: Row, edits: map<nat, Editing>, trail: Trail, at: int)
    requires Fires(DueNotice, seen, at)
    ensures Step(State(map[0 := t], edits, Some(Job(at, map[0 := seen])), map[0 := trail]), JobCommits({(DueNotice, 0)})) ==
              State(map[0 := t.(notifiedAt := Some(at))], edits, None,
                    map[0 := trail.(due := Marked(trail.due, true), announced := seen.due)])
  {
    var job := Job(at, map[0 := seen]);
    assert Stamps(DueNotice, 0, job, {(DueNotice, 0)}) && !Stamps(LeadNotice, 0, job, {(DueNotice, 0)});
  }

  const TO_500 := Patch(Unset, Set(Some(500)), Unset)

  /** Task 0, due at 100, is announced; two edits to 500, one the other's retry, load it; the first commits. */
  function RetriedEdit(): seq<Event> {
    AnnouncedAt100() + [EditLoads(0, 0, TO_500)] + [EditLoads(1, 0, TO_500)] + [EditCommits(0, 101)]
  }

  function AnnouncedAt100(): seq<Event> {
    [] + [Create(0, 0, Some(100), None)] + [JobStarts(100)] + [JobCommits({(DueNotice, 0)})]
  }

  lemma AnnouncedState()
    ensures Run(AnnouncedAt100()) ==
              State(map[0 := NewTask(0, Some(100), None).(notifiedAt := Some(100))], map[], None,
                    map[0 := NO_TRAIL.(due := History(0, [0]), announced := Some(100))])
  {
    var e0, e1, e2 := Create(0, 0, Some(100), None), JobStarts(100), JobCommits({(DueNotice, 0)});
    var t := NewTask(0, Some(100), None);
    RunAppend([], e0);
    RunAppend([] + [e0], e1);
    OneTaskStarts(t, map[], NO_TRAIL, 100);
    RunAppend([] + [e0] + [e1], e2);
    OneTaskCommits(t, t, map[], NO_TRAIL, 100);
    assert [] + [0] == [0];
  }

  lemma RetriedState()
    ensures Run(RetriedEdit()) ==
              State(map[0 := NewTask(0, Some(500), None)],
                    map[1 := Editing(0, NewTask(0, Some(100), None).(notifiedAt := Some(100)), TO_500)], None,
                    map[0 := Trail(History(1, [0]), History(1, []), Some(100))])
  {
    var before := AnnouncedAt100();
    AnnouncedState();
    var t := NewTask(0, Some(100), None).(notifiedAt := Some(100));
    RunAppend(before, EditLoads(0, 0, TO_500));
    RunAppend(before + [EditLoads(0, 0, TO_500)], EditLoads(1, 0, TO_500));
    assert Run(before + [EditLoads(0, 0, TO_500)] + [EditLoads(1, 0, TO_500)]).edits
           == map[0 := Editing(0, t, TO_500), 1 := Editing(0, t, TO_500)];
    RunAppend(before + [EditLoads(0, 0, TO_500)] + [EditLoads(1, 0, TO_500)], EditCommits(0, 101));
  }

  /** A job announces the new date; then the retry commits 500 over 500, and takes the stamp with it. */
  function AnnouncedAt500(): seq<Event> {
    RetriedEdit() + [JobStarts(500)] + [JobCommits({(DueNotice, 0)})]
  }

  lemma AnnouncedAt500State()
    ensures Run(AnnouncedAt500()) ==
              State(map[0 := NewTask(0, Some(500), None).(notifiedAt := Some(500))],
                    map[1 := Editing(0, NewTask(0, Some(100), None).(notifiedAt := Some(100)), TO_500)], None,
                    map[0 := Trail(History(1, [0, 1]), History(1, []), Some(500))])
  {
    var t, trail := NewTask(0, Some(500), None), Trail(History(1, [0]), History(1, []), Some(100));
    var edits := Run(RetriedEdit()).edits;
    RetriedState();
    RunAppend(RetriedEdit(), JobStarts(500));
    OneTaskStarts(t, edits, trail, 500);
    RunAppend(RetriedEdit() + [JobStarts(500)], JobCommits({(DueNotice, 0)}));
    OneTaskCommits(t, t, edits, trail, 500);
    assert [0] + [1] == [0, 1];
  }

  /** So a retried edit can make one unchanged date be announced twice. */
  lemma RetriedEditRepeatsNotice()
    ensures var s := Run(AnnouncedAt500());
            && 0 in s.tasks && 0 in s.trails && s.tasks[0].due == Some(500) && s.tasks[0].notifiedAt.Some? && s.trails[0].announced == Some(500)
            && CanBeStampedAgain(AnnouncedAt500(), DueNotice, 0)
  {
    AnnouncedAt500State();
    RewriteRepeatsNotice(AnnouncedAt500(), DueNotice, 0, 1);
  }

  // ----- completion under overlapping edits -----

  /** The edit moves a task it loaded open to another open status, while the stored one is done by now. */
  predicate ReopensBlindly(s: State, edit: nat) {
    && edit in s.edits && s.edits[edit].task in s.tasks
    && OpensOverDone(s.tasks[s.edits[edit].task], s.edits[edit].loaded, s.edits[edit].patch)
  }

  predicate NoBlindReopening(events: seq<Event>) {
    events == [] ||
    (NoBlindReopening(events[..|events| - 1])
     && (events[|events| - 1].EditCommits? ==> !ReopensBlindly(Run(events[..|events| - 1]), events[|events| - 1].edit)))
  }

  ghost predicate AllConsistent(s: State) {
    && (forall id :: id in s.tasks ==> CompletionConsistent(s.tasks[id]))
    && (forall edit :: edit in s.edits ==> CompletionConsistent(s.edits[edit].loaded))
  }

  /** Over every run in which no edit reopens blindly, a task carries a completion time exactly when it is done. */
  lemma {:induction false} CompletionOverRuns(events: seq<Event>)
    requires NoBlindReopening(events)
    ensures AllConsistent(Run(events))
  {
    if events != [] {
      CompletionOverRuns(events[..|events| - 1]);
      StepConsistent(Run(events[..|events| - 1]), events[|events| - 1]);
    }
  }

  lemma StepConsistent(s: State, e: Event)
    requires AllConsistent(s) && (e.EditCommits? ==> !ReopensBlindly(s, e.edit))
    ensures AllConsistent(Step(s, e))
  {
    if e.EditCommits? && e.edit in s.edits && s.edits[e.edit].task in s.tasks {
      var edit := s.edits[e.edit];
      OverlapKeepsCompletionIff(s.tasks[edit.task], edit.loaded, edit.patch, e.at);
    }
  }

  /** Two edits load an open task; one finishes it, and then the other starts it. */
  function FinishedThenStarted(): seq<Event> {
    [] + [Create(0, 0, None, None)] + [EditLoads(0, 0, Patch(Set(Done), Unset, Unset))]
    + [EditLoads(1, 0, Patch(Set(InProgress), Unset, Unset))] + [EditCommits(0, 7)] + [EditCommits(1, 8)]
  }

  /** The task ends up in progress, and still counts as completed at 7. */
  lemma OverlapLeavesCompletion()
    ensures var s := Run(FinishedThenStarted());
            0 in s.tasks && s.tasks[0].status == InProgress && s.tasks[0].completedAt == Some(7)
  {
    var p0, p1 := Patch(Set(Done), Unset, Unset), Patch(Set(InProgress), Unset, Unset);
    var t := NewTask(0, None, None);
    var e0, e1, e2, e3, e4 := Create(0, 0, None, None), EditLoads(0, 0, p0), EditLoads(1, 0, p1), EditCommits(0, 7), EditCommits(1, 8);
    RunAppend([], e0);
    RunAppend([] + [e0], e1);
    RunAppend([] + [e0] + [e1], e2);
    assert Run([] + [e0] + [e1] + [e2]).edits == map[0 := Editing(0, t, p0), 1 := Editing(0, t, p1)];
    RunAppend([] + [e0] + [e1] + [e2], e3);
    assert Run([] + [e0] + [e1] + [e2] + [e3]).tasks[0] == t.(status := Done, completedAt := Some(7));
    RunAppend([] + [e0] + [e1] + [e2] + [e3], e4);
  }
}
