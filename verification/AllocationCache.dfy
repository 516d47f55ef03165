/**
  The cached allocation report (services/exam_prep_service.py) on top of the
  cache protocol. It loads the subjects first, through their own cached read,
  and only then takes the study version and the reference version of its key.
*/
module AllocationCache {
  import opened Database
  import CacheProtocol
  import Allocation
  import CacheKeys

  datatype Key = Key(owner: Id, track: Id, study: nat, reference: nat, window: CacheKeys.Window)

  /**
    Where the subjects of a report come from (history): the reference version
    their read took, and the log length their query saw.
  */
  datatype Source = Source(version: nat, seen: nat)

  datatype Report = Report(rows: seq<Allocation.Row>, source: Source, seenStudy: nat, at: int)

  datatype Phase =
    | HasSubjects
    | HasStudyVersion(study: nat)
    | HasVersions(study: nat, reference: nat)
    | Missed(study: nat, reference: nat)
    | Queried(study: nat, reference: nat, report: Report)
    | Answered(study: nat, reference: nat, report: Report)

  datatype Reader = Reader(
    owner: Id, track: Id, window: CacheKeys.Window, subjects: seq<Allocation.Subject>, source: Source, phase: Phase)

  datatype State = State(base: CacheProtocol.State, reports: map<Key, Report>, readers: map<nat, Reader>)

  datatype Step =
    | Base(step: CacheProtocol.Step)
    | TakesSubjects(id: nat, subjectsRead: nat, owner: Id, window: CacheKeys.Window)
    | TakesStudyVersion(id: nat)
    | TakesReferenceVersion(id: nat)
    | Hits(id: nat)
    | Misses(id: nat)
    | Queries(id: nat)
    | Stores(id: nat, accepted: bool)
    | Expires(key: Key)

  const EMPTY := State(CacheProtocol.EMPTY, map[], map[])

  function StudyCounter(owner: Id): Counter {
    Counter(CacheKeys.StudyScope, owner)
  }

  function ReferenceCounter(track: Id): Counter {
    Counter(CacheKeys.ExamRefScope, track)
  }

  function Value(s: CacheProtocol.State, c: Counter): nat {
    |CacheProtocol.BumpsOf(s.bumps, c)|
  }

  function ReaderKey(r: Reader): Key
    requires !r.phase.HasSubjects? && !r.phase.HasStudyVersion?
  {
    Key(r.owner, r.track, r.phase.study, r.phase.reference, r.window)
  }

  /** The report a database with this log gives on these subjects. */
  function ReportRows(subjects: seq<Allocation.Subject>, log: Log, owner: Id, w: CacheKeys.Window, now: int): seq<Allocation.Row> {
    Allocation.Allocate(subjects, Allocation.Totals(SessionsOf(log, owner), now - WindowSeconds(w)))
  }

  function SetPhase(s: State, id: nat, phase: Phase): State
    requires id in s.readers
  {
    s.(readers := s.readers[id := s.readers[id].(phase := phase)])
  }

  ghost function Next(s: State, step: Step): State {
    match step
    case Base(b) => s.(base := CacheProtocol.Next(s.base, b))
    case TakesSubjects(id, rid, owner, window) =>
      if id in s.readers || rid !in s.base.readers then s
      else
        var r := s.base.readers[rid];
        if !r.Answered? || !r.req.ListSubjects? || !r.value.SubjectList? || |r.versions| != 1 then s
        // No subjects: the report is empty and nothing is cached.
        else if r.value.subjects == [] then s
        else s.(readers := s.readers[id :=
                  Reader(owner, r.req.track, window, r.value.subjects, Source(r.versions[0], r.seen), HasSubjects)])
    case TakesStudyVersion(id) =>
      if id !in s.readers || !s.readers[id].phase.HasSubjects? then s
      else SetPhase(s, id, HasStudyVersion(Value(s.base, StudyCounter(s.readers[id].owner))))
    case TakesReferenceVersion(id) =>
      if id !in s.readers || !s.readers[id].phase.HasStudyVersion? then s
      else SetPhase(s, id, HasVersions(s.readers[id].phase.study, Value(s.base, ReferenceCounter(s.readers[id].track))))
    case Hits(id) =>
      if id !in s.readers || !s.readers[id].phase.HasVersions? || ReaderKey(s.readers[id]) !in s.reports then s
      else
        var r := s.readers[id];
        SetPhase(s, id, Answered(r.phase.study, r.phase.reference, s.reports[ReaderKey(r)]))
    case Misses(id) =>
      if id !in s.readers || !s.readers[id].phase.HasVersions? then s
      else SetPhase(s, id, Missed(s.readers[id].phase.study, s.readers[id].phase.reference))
    case Queries(id) =>
      if id !in s.readers || !s.readers[id].phase.Missed? then s
      else
        var r := s.readers[id];
        var rows := ReportRows(r.subjects, s.base.log, r.owner, r.window, s.base.now);
        SetPhase(s, id, Queried(r.phase.study, r.phase.reference, Report(rows, r.source, |s.base.log|, s.base.now)))
    case Stores(id, accepted) =>
      if id !in s.readers || !s.readers[id].phase.Queried? then s
      else
        var r := s.readers[id];
        var s' := SetPhase(s, id, Answered(r.phase.study, r.phase.reference, r.phase.report));
        if accepted then s'.(reports := s.reports[ReaderKey(r) := r.phase.report]) else s'
    case Expires(key) => s.(reports := s.reports - {key})
  }

  ghost function Run(s: State, steps: seq<Step>): State {
    if steps == [] then s else Next(Run(s, steps[..|steps| - 1]), steps[|steps| - 1])
  }

  // ----- the invariant -----

  /** The first `version` bumps of the counter all lie before position `n` of the log. */
  ghost predicate Includes(s: CacheProtocol.State, c: Counter, version: nat, n: nat) {
    && n <= |s.log| && version <= Value(s, c)
    && forall i :: 0 <= i < version ==> CacheProtocol.BumpsOf(s.bumps, c)[i] < n
  }

  ghost predicate SubjectsGood(s: CacheProtocol.State, track: Id, subjects: seq<Allocation.Subject>, source: Source) {
    && Includes(s, ReferenceCounter(track), source.version, source.seen)
    && Execute(ListSubjects(track), s.log[..source.seen], 0) == SubjectList(subjects)
  }

  /** The study half is as fresh as its version; the subjects are as fresh as the version their own read took. */
  ghost predicate ReportGood(s: CacheProtocol.State, owner: Id, track: Id, w: CacheKeys.Window, study: nat, reference: nat, r: Report) {
    && Includes(s, StudyCounter(owner), study, r.seenStudy)
    && r.source.version <= reference <= Value(s, ReferenceCounter(track))
    && ComputedFrom(s, owner, track, w, r)
  }

  /** The rows are the allocation of the sessions in one prefix of the log over the subjects in another. */
  ghost predicate ComputedFrom(s: CacheProtocol.State, owner: Id, track: Id, w: CacheKeys.Window, r: Report) {
    && r.seenStudy <= |s.log| && r.at <= s.now
    && exists subjects ::
         && SubjectsGood(s, track, subjects, r.source)
         && r.rows == ReportRows(subjects, s.log[..r.seenStudy], owner, w, r.at)
  }

  ghost predicate ReaderGood(s: CacheProtocol.State, r: Reader) {
    && SubjectsGood(s, r.track, r.subjects, r.source)
    && match r.phase {
         case HasSubjects => true
         case HasStudyVersion(study) => Includes(s, StudyCounter(r.owner), study, |s.log|)
         case HasVersions(study, reference) =>
           Includes(s, StudyCounter(r.owner), study, |s.log|) && r.source.version <= reference <= Value(s, ReferenceCounter(r.track))
         case Missed(study, reference) =>
           Includes(s, StudyCounter(r.owner), study, |s.log|) && r.source.version <= reference <= Value(s, ReferenceCounter(r.track))
         case Queried(study, reference, report) => ReportGood(s, r.owner, r.track, r.window, study, reference, report)
         case Answered(study, reference, report) => ReportGood(s, r.owner, r.track, r.window, study, reference, report)
       }
  }

  ghost predicate Inv(s: State) {
    && CacheProtocol.Inv(s.base)
    && (forall k :: k in s.reports ==> ReportGood(s.base, k.owner, k.track, k.window, k.study, k.reference, s.reports[k]))
    && (forall id :: id in s.readers ==> ReaderGood(s.base, s.readers[id]))
  }

  lemma IncludesStays(s: CacheProtocol.State, s': CacheProtocol.State, c: Counter, version: nat, n: nat)
    requires CacheProtocol.Extends(s, s') && Includes(s, c, version, n)
    ensures Includes(s', c, version, n) && Includes(s', c, version, |s'.log|) && s'.log[..n] == s.log[..n]
  {
    assert CacheProtocol.BumpsOf(s.bumps, c) <= CacheProtocol.BumpsOf(s'.bumps, c);
  }

  lemma SubjectsStay(s: CacheProtocol.State, s': CacheProtocol.State, track: Id, subjects: seq<Allocation.Subject>, source: Source)
    requires CacheProtocol.Extends(s, s') && SubjectsGood(s, track, subjects, source)
    ensures SubjectsGood(s', track, subjects, source)
  {
    IncludesStays(s, s', ReferenceCounter(track), source.version, source.seen);
  }

  lemma ReportStays(s: CacheProtocol.State, s': CacheProtocol.State, owner: Id, track: Id, w: CacheKeys.Window,
                    study: nat, reference: nat, r: Report)
    requires CacheProtocol.Extends(s, s') && ReportGood(s, owner, track, w, study, reference, r)
    ensures ReportGood(s', owner, track, w, study, reference, r)
  {
    IncludesStays(s, s', StudyCounter(owner), study, r.seenStudy);
    assert CacheProtocol.BumpsOf(s.bumps, ReferenceCounter(track)) <= CacheProtocol.BumpsOf(s'.bumps, ReferenceCounter(track));
    var subjects :| SubjectsGood(s, track, subjects, r.source)
                    && r.rows == ReportRows(subjects, s.log[..r.seenStudy], owner, w, r.at);
    SubjectsStay(s, s', track, subjects, r.source);
  }

  lemma ReaderStays(s: CacheProtocol.State, s': CacheProtocol.State, r: Reader)
    requires CacheProtocol.Extends(s, s') && ReaderGood(s, r)
    ensures ReaderGood(s', r)
  {
    SubjectsStay(s, s', r.track, r.subjects, r.source);
    assert CacheProtocol.BumpsOf(s.bumps, ReferenceCounter(r.track)) <= CacheProtocol.BumpsOf(s'.bumps, ReferenceCounter(r.track));
    match r.phase {
      case HasSubjects =>
      case HasStudyVersion(study) => IncludesStays(s, s', StudyCounter(r.owner), study, |s.log|);
      case HasVersions(study, _) => IncludesStays(s, s', StudyCounter(r.owner), study, |s.log|);
      case Missed(study, _) => IncludesStays(s, s', StudyCounter(r.owner), study, |s.log|);
      case Queried(study, reference, report) => ReportStays(s, s', r.owner, r.track, r.window, study, reference, report);
      case Answered(study, reference, report) => ReportStays(s, s', r.owner, r.track, r.window, study, reference, report);
    }
  }

  lemma VersionNowIncluded(s: CacheProtocol.State, c: Counter)
    requires CacheProtocol.BumpsGood(s)
    ensures Includes(s, c, Value(s, c), |s.log|)
  {}

  lemma SubjectsReadIsGood(s: CacheProtocol.State, rid: nat)
    requires CacheProtocol.Inv(s) && rid in s.readers
    requires var r := s.readers[rid];
             r.Answered? && r.req.ListSubjects? && r.value.SubjectList? && |r.versions| == 1
    ensures var r := s.readers[rid];
            SubjectsGood(s, r.req.track, r.value.subjects, Source(r.versions[0], r.seen))
  {
    var r := s.readers[rid];
    assert CacheProtocol.ReaderGood(s, r);
    assert CountersFor(r.req)[0] == ReferenceCounter(r.req.track);
    OnlyWindowsReadTheClock(r.req, s.log[..r.seen], r.at, 0);
  }

  lemma QueryIsGood(s: CacheProtocol.State, r: Reader)
    requires CacheProtocol.BumpsGood(s) && ReaderGood(s, r) && r.phase.Missed?
    ensures ReportGood(s, r.owner, r.track, r.window, r.phase.study, r.phase.reference,
                       Report(ReportRows(r.subjects, s.log, r.owner, r.window, s.now), r.source, |s.log|, s.now))
  {
    assert s.log[..|s.log|] == s.log;
  }

  lemma StepReaderGood(s: State, step: Step, id: nat)
    requires Inv(s) && !step.Base? && id in Next(s, step).readers
    requires id !in s.readers || Next(s, step).readers[id] != s.readers[id]
    ensures ReaderGood(s.base, Next(s, step).readers[id])
  {
    if step.Hits? {
      HitIsGood(s, step, id);
    } else if step.Queries? {
      QueriedIsGood(s, step, id);
    } else if step.Stores? {
      StoredIsGood(s, step, id);
    } else if step.TakesSubjects? {
      SubjectsReadIsGood(s.base, step.subjectsRead);
    } else if step.TakesStudyVersion? {
      VersionNowIncluded(s.base, StudyCounter(s.readers[id].owner));
    }
  }

  lemma HitIsGood(s: State, step: Step, id: nat)
    requires Inv(s) && step.Hits? && id in s.readers && Next(s, step).readers[id] != s.readers[id]
    ensures ReaderGood(s.base, Next(s, step).readers[id])
  {
    var r := s.readers[id];
    var k := ReaderKey(r);
    assert ReportGood(s.base, k.owner, k.track, k.window, k.study, k.reference, s.reports[k]);
    AnsweredIsGood(s.base, r, s.reports[k]);
  }

  lemma QueriedIsGood(s: State, step: Step, id: nat)
    requires Inv(s) && step.Queries? && id in s.readers && Next(s, step).readers[id] != s.readers[id]
    ensures ReaderGood(s.base, Next(s, step).readers[id])
  {
    QueryIsGood(s.base, s.readers[id]);
  }

  lemma StoredIsGood(s: State, step: Step, id: nat)
    requires Inv(s) && step.Stores? && id in s.readers && Next(s, step).readers[id] != s.readers[id]
    ensures ReaderGood(s.base, Next(s, step).readers[id])
  {
    AnsweredIsGood(s.base, s.readers[id], s.readers[id].phase.report);
  }

  lemma AnsweredIsGood(s: CacheProtocol.State, r: Reader, report: Report)
    requires ReaderGood(s, r) && !r.phase.HasSubjects? && !r.phase.HasStudyVersion?
    requires ReportGood(s, r.owner, r.track, r.window, r.phase.study, r.phase.reference, report)
    ensures ReaderGood(s, r.(phase := Answered(r.phase.study, r.phase.reference, report)))
  {}

  lemma BaseStepInv(s: State, step: CacheProtocol.Step)
    requires Inv(s)
    ensures Inv(Next(s, Base(step))) && CacheProtocol.Extends(s.base, Next(s, Base(step)).base)
  {
    var s' := Next(s, Base(step));
    CacheProtocol.NextExtends(s.base, step);
    CacheProtocol.NextInv(s.base, step);
    forall k | k in s'.reports
      ensures ReportGood(s'.base, k.owner, k.track, k.window, k.study, k.reference, s'.reports[k])
    {
      ReportStays(s.base, s'.base, k.owner, k.track, k.window, k.study, k.reference, s.reports[k]);
    }
    forall id | id in s'.readers ensures ReaderGood(s'.base, s'.readers[id]) {
      ReaderStays(s.base, s'.base, s.readers[id]);
    }
  }

  lemma ReadersStayGood(s: State, step: Step)
    requires Inv(s) && !step.Base?
    ensures forall id :: id in Next(s, step).readers ==> ReaderGood(s.base, Next(s, step).readers[id])
  {
    forall id | id in Next(s, step).readers ensures ReaderGood(s.base, Next(s, step).readers[id]) {
      if id !in s.readers || Next(s, step).readers[id] != s.readers[id] {
        StepReaderGood(s, step, id);
      }
    }
  }

  lemma ReportsStayGood(s: State, step: Step)
    requires Inv(s) && !step.Base?
    ensures forall k :: k in Next(s, step).reports ==>
              ReportGood(s.base, k.owner, k.track, k.window, k.study, k.reference, Next(s, step).reports[k])
  {
    var s' := Next(s, step);
    forall k | k in s'.reports
      ensures ReportGood(s.base, k.owner, k.track, k.window, k.study, k.reference, s'.reports[k])
    {
      if k !in s.reports || s'.reports[k] != s.reports[k] {
        var r := NewlyStored(s, step, k);
        assert ReaderGood(s.base, r);
      }
    }
  }

  /** A report appears or changes only when a reader stores what it queried, under its own key. */
  lemma NewlyStored(s: State, step: Step, k: Key) returns (r: Reader)
    requires k in Next(s, step).reports && (k !in s.reports || Next(s, step).reports[k] != s.reports[k])
    ensures step.Stores? && step.id in s.readers && r == s.readers[step.id] && r.phase.Queried?
    ensures k == ReaderKey(r) && Next(s, step).reports[k] == r.phase.report
  {
    r := s.readers[step.id];
  }

  lemma NextInv(s: State, step: Step)
    requires Inv(s)
    ensures Inv(Next(s, step)) && CacheProtocol.Extends(s.base, Next(s, step).base)
  {
    if step.Base? {
      BaseStepInv(s, step.step);
    } else {
      ReadersStayGood(s, step);
      ReportsStayGood(s, step);
      assert Next(s, step).base == s.base;
    }
  }

  lemma {:induction false} RunInv(s: State, steps: seq<Step>)
    requires Inv(s)
    ensures Inv(Run(s, steps)) && CacheProtocol.Extends(s.base, Run(s, steps).base)
  {
    if steps != [] {
      var s0 := Run(s, steps[..|steps| - 1]);
      RunInv(s, steps[..|steps| - 1]);
      NextInv(s0, steps[|steps| - 1]);
      CacheProtocol.ExtendsTransitive(s.base, s0.base, Run(s, steps).base);
    }
  }

  // ----- the study half -----

  lemma {:induction false} ReaderKeepsStudyVersion(s: State, id: nat, steps: seq<Step>)
    requires id in s.readers && !s.readers[id].phase.HasSubjects?
    ensures var s' := Run(s, steps);
            && id in s'.readers && !s'.readers[id].phase.HasSubjects?
            && s'.readers[id].phase.study == s.readers[id].phase.study
            && s'.readers[id].(phase := s.readers[id].phase) == s.readers[id]
  {
    if steps != [] {
      ReaderKeepsStudyVersion(s, id, steps[..|steps| - 1]);
      StepKeepsStudyVersion(Run(s, steps[..|steps| - 1]), id, steps[|steps| - 1]);
    }
  }

  lemma StepKeepsStudyVersion(s: State, id: nat, step: Step)
    requires id in s.readers && !s.readers[id].phase.HasSubjects?
    ensures var s' := Next(s, step);
            && id in s'.readers && !s'.readers[id].phase.HasSubjects?
            && s'.readers[id].phase.study == s.readers[id].phase.study
            && s'.readers[id].(phase := s.readers[id].phase) == s.readers[id]
  {}

  lemma StudyVersionTaken(s: State, id: nat, i: nat)
    requires id in s.readers && s.readers[id].phase.HasSubjects?
    requires i in CacheProtocol.BumpsOf(s.base.bumps, StudyCounter(s.readers[id].owner))
    ensures var s1 := Next(s, TakesStudyVersion(id));
            && id in s1.readers && s1.readers[id].phase.HasStudyVersion? && s1.readers[id].owner == s.readers[id].owner
            && CountsBump(s1.base, StudyCounter(s.readers[id].owner), s1.readers[id].phase.study, i)
  {}

  /** Commit `i` is among the first `version` bumps of the counter. */
  ghost predicate CountsBump(s: CacheProtocol.State, c: Counter, version: nat, i: nat) {
    exists k :: 0 <= k < version && k < Value(s, c) && CacheProtocol.BumpsOf(s.bumps, c)[k] == i
  }

  lemma CountsBumpStays(s: CacheProtocol.State, s': CacheProtocol.State, c: Counter, version: nat, i: nat)
    requires CacheProtocol.Extends(s, s') && CountsBump(s, c, version, i)
    ensures CountsBump(s', c, version, i)
  {
    assert CacheProtocol.BumpsOf(s.bumps, c) <= CacheProtocol.BumpsOf(s'.bumps, c);
    var k :| 0 <= k < version && k < Value(s, c) && CacheProtocol.BumpsOf(s.bumps, c)[k] == i;
    assert CacheProtocol.BumpsOf(s'.bumps, c)[k] == i;
  }

  /**
    Main result. Whatever interleaves, a finished report counts every study
    session whose bump had landed when the report took its study version.
  */
  lemma StudyHalfSeesBumpedWrites(before: seq<Step>, id: nat, after: seq<Step>, i: nat)
    requires var s0 := Run(EMPTY, before);
             && id in s0.readers && s0.readers[id].phase.HasSubjects?
             && i in CacheProtocol.BumpsOf(s0.base.bumps, StudyCounter(s0.readers[id].owner))
    requires var s := Run(Next(Run(EMPTY, before), TakesStudyVersion(id)), after);
             id in s.readers && s.readers[id].phase.Answered?
    ensures var s := Run(Next(Run(EMPTY, before), TakesStudyVersion(id)), after);
            var r, report := s.readers[id], s.readers[id].phase.report;
            i < report.seenStudy && ComputedFrom(s.base, r.owner, r.track, r.window, report)
  {
    var s0 := Run(EMPTY, before);
    var s1 := Next(s0, TakesStudyVersion(id));
    var s := Run(s1, after);
    RunInv(EMPTY, before);
    NextInv(s0, TakesStudyVersion(id));
    StudyVersionTaken(s0, id, i);
    RunInv(s1, after);
    ReaderKeepsStudyVersion(s1, id, after);
    CountsBumpStays(s1.base, s.base, StudyCounter(s0.readers[id].owner), s1.readers[id].phase.study, i);
    AnswerCountsBump(s.base, s.readers[id], i);
  }

  lemma AnswerCountsBump(s: CacheProtocol.State, r: Reader, i: nat)
    requires ReaderGood(s, r) && r.phase.Answered? && CountsBump(s, StudyCounter(r.owner), r.phase.study, i)
    ensures i < r.phase.report.seenStudy && ComputedFrom(s, r.owner, r.track, r.window, r.phase.report)
  {}

  // ----- both halves -----

  lemma {:induction false} ReferenceTakenLater(s: State, id: nat, steps: seq<Step>)
    requires Inv(s) && id in s.readers && s.readers[id].phase.HasStudyVersion?
    ensures var s' := Run(s, steps);
            && id in s'.readers && !s'.readers[id].phase.HasSubjects?
            && s'.readers[id].(phase := s.readers[id].phase) == s.readers[id]
            && (s'.readers[id].phase.HasStudyVersion?
                || s'.readers[id].phase.reference >= Value(s.base, ReferenceCounter(s.readers[id].track)))
  {
    if steps != [] {
      var p := steps[..|steps| - 1];
      ReferenceTakenLater(s, id, p);
      RunInv(s, p);
      StepTakesLater(Run(s, p), id, steps[|steps| - 1], Value(s.base, ReferenceCounter(s.readers[id].track)));
    }
  }

  lemma StepTakesLater(s: State, id: nat, step: Step, least: nat)
    requires id in s.readers && !s.readers[id].phase.HasSubjects? && Value(s.base, ReferenceCounter(s.readers[id].track)) >= least
    requires s.readers[id].phase.HasStudyVersion? || s.readers[id].phase.reference >= least
    ensures var s' := Next(s, step);
            && id in s'.readers && !s'.readers[id].phase.HasSubjects?
            && s'.readers[id].(phase := s.readers[id].phase) == s.readers[id]
            && (s'.readers[id].phase.HasStudyVersion? || s'.readers[id].phase.reference >= least)
  {}

  /** The rows of a report against those of another window: same shares planned, and on top exactly the time in between. */
  ghost predicate PlusAged(rows: seq<Allocation.Row>, direct: seq<Allocation.Row>, sessions: seq<Allocation.Session>, since: int, later: int) {
    && |rows| == |direct|
    && forall i :: 0 <= i < |rows| ==>
         && rows[i].subject == direct[i].subject && rows[i].planned == direct[i].planned
         && rows[i].actualSeconds == direct[i].actualSeconds + Allocation.AgedTime(sessions, since, later, rows[i].subject.code)
  }

  lemma RowsAge(subjects: seq<Allocation.Subject>, log: Log, owner: Id, w: CacheKeys.Window, at: int, now: int)
    requires at <= now
    ensures PlusAged(ReportRows(subjects, log, owner, w, at), ReportRows(subjects, log, owner, w, now),
                     SessionsOf(log, owner), at - WindowSeconds(w), now - WindowSeconds(w))
  {
    forall i | 0 <= i < |subjects| {
      Allocation.AgedTimeIsTheDifference(SessionsOf(log, owner), at - WindowSeconds(w), now - WindowSeconds(w), subjects[i].code);
    }
  }

  /** A month's report has the week's seconds, and exactly the tagged time of the 23 days before on top. */
  lemma MonthReportHoldsWeek(subjects: seq<Allocation.Subject>, log: Log, owner: Id, now: int, i: nat)
    requires i < |subjects|
    ensures var month := ReportRows(subjects, log, owner, CacheKeys.Month, now);
            var week := ReportRows(subjects, log, owner, CacheKeys.Week, now);
            && |month| == |week| == |subjects|
            && month[i].actualSeconds == week[i].actualSeconds
                 + Allocation.AgedTime(SessionsOf(log, owner), now - 30 * 86_400, now - 7 * 86_400, subjects[i].code)
  {
    Allocation.AgedTimeIsTheDifference(SessionsOf(log, owner), now - 30 * 86_400, now - 7 * 86_400, subjects[i].code);
  }

  /** A prefix of the bumps that reaches at least as far as `s0` did. */
  lemma IncludesCovers(s0: CacheProtocol.State, s: CacheProtocol.State, req: Request, version: nat, n: nat)
    requires CacheProtocol.Extends(s0, s) && |CountersFor(req)| == 1
    requires Includes(s, CountersFor(req)[0], version, n) && Value(s0, CountersFor(req)[0]) <= version
    ensures CacheProtocol.Covered(s.bumps, CountersFor(req), CacheProtocol.VersionsNow(s0.bumps, CountersFor(req)), n)
  {
    assert CacheProtocol.BumpsOf(s0.bumps, CountersFor(req)[0]) <= CacheProtocol.BumpsOf(s.bumps, CountersFor(req)[0]);
  }

  /** With no study bump outstanding in `s0`, a report that covers its version counts the sessions of some later moment. */
  lemma StudySettled(s0: CacheProtocol.State, s: CacheProtocol.State, owner: Id, version: nat, seen: nat) returns (n: nat)
    requires CacheProtocol.BumpsGood(s0) && CacheProtocol.Extends(s0, s) && CacheProtocol.Settled(s0, [StudyCounter(owner)])
    requires Includes(s, StudyCounter(owner), version, seen) && Value(s0, StudyCounter(owner)) <= version
    ensures |s0.log| <= n <= |s.log| && SessionsOf(s.log[..seen], owner) == SessionsOf(s.log[..n], owner)
  {
    var req := ListStudySessions(owner, CacheKeys.Week);
    IncludesCovers(s0, s, req, version, seen);
    CacheProtocol.SettledMeansSeen(s0, s, req, seen);
    n := seen;
    if n < |s0.log| {
      n := |s0.log|;
      SessionsUnchanged(s.log, owner, seen, n);
    }
  }

  /** Likewise for the subjects. */
  lemma SubjectsSettled(s0: CacheProtocol.State, s: CacheProtocol.State, track: Id, subjects: seq<Allocation.Subject>, source: Source)
    returns (m: nat)
    requires CacheProtocol.BumpsGood(s0) && CacheProtocol.Extends(s0, s) && CacheProtocol.Settled(s0, [ReferenceCounter(track)])
    requires SubjectsGood(s, track, subjects, source) && Value(s0, ReferenceCounter(track)) <= source.version
    ensures |s0.log| <= m <= |s.log| && Execute(ListSubjects(track), s.log[..m], s.now) == SubjectList(subjects)
  {
    var req := ListSubjects(track);
    IncludesCovers(s0, s, req, source.version, source.seen);
    OnlyWindowsReadTheClock(req, s.log[..source.seen], 0, s.now);
    m := CacheProtocol.SettledAnswerIsDirect(s0, s, req, SubjectList(subjects), source.seen, s.now);
  }

  /** How a finished report relates to direct ones: to subjects and sessions as the database had them at moments of the read. */
  ghost predicate DirectPlusAged(s0: State, s: State, r: Reader, n: nat, m: nat)
    requires r.phase.Answered?
  {
    && |s0.base.log| <= n <= |s.base.log| && |s0.base.log| <= m <= |s.base.log|
    && var current := Execute(ListSubjects(r.track), s.base.log[..m], s.base.now);
       && current.SubjectList?
       && PlusAged(r.phase.report.rows, ReportRows(current.subjects, s.base.log[..n], r.owner, r.window, s.base.now),
                   SessionsOf(s.base.log[..n], r.owner),
                   r.phase.report.at - WindowSeconds(r.window), s.base.now - WindowSeconds(r.window))
  }

  lemma SettledReaderIsDirect(s0: State, s: State, r: Reader) returns (n: nat, m: nat)
    requires CacheProtocol.BumpsGood(s0.base) && CacheProtocol.Extends(s0.base, s.base)
    requires CacheProtocol.Settled(s0.base, [StudyCounter(r.owner)]) && CacheProtocol.Settled(s0.base, [ReferenceCounter(r.track)])
    requires ReaderGood(s.base, r) && r.phase.Answered? && r.phase.report.source.version == r.phase.reference
    requires Value(s0.base, StudyCounter(r.owner)) <= r.phase.study
    requires Value(s0.base, ReferenceCounter(r.track)) <= r.phase.reference
    ensures DirectPlusAged(s0, s, r, n, m)
  {
    var report := r.phase.report;
    var subjects := SourceOf(s.base, r);
    n := StudySettled(s0.base, s.base, r.owner, r.phase.study, report.seenStudy);
    m := SubjectsSettled(s0.base, s.base, r.track, subjects, report.source);
    Assembled(s0, s, r, subjects, n, m);
  }

  lemma Assembled(s0: State, s: State, r: Reader, subjects: seq<Allocation.Subject>, n: nat, m: nat)
    requires r.phase.Answered? && r.phase.report.seenStudy <= |s.base.log| && r.phase.report.at <= s.base.now
    requires r.phase.report.rows ==
               ReportRows(subjects, s.base.log[..r.phase.report.seenStudy], r.owner, r.window, r.phase.report.at)
    requires |s0.base.log| <= n <= |s.base.log| && |s0.base.log| <= m <= |s.base.log|
    requires SessionsOf(s.base.log[..r.phase.report.seenStudy], r.owner) == SessionsOf(s.base.log[..n], r.owner)
    requires Execute(ListSubjects(r.track), s.base.log[..m], s.base.now) == SubjectList(subjects)
    ensures DirectPlusAged(s0, s, r, n, m)
  {
    RowsAge(subjects, s.base.log[..n], r.owner, r.window, r.phase.report.at, s.base.now);
  }

  lemma SourceOf(s: CacheProtocol.State, r: Reader) returns (subjects: seq<Allocation.Subject>)
    requires ReaderGood(s, r) && r.phase.Answered?
    ensures var report := r.phase.report;
            && Includes(s, StudyCounter(r.owner), r.phase.study, report.seenStudy) && report.at <= s.now
            && SubjectsGood(s, r.track, subjects, report.source)
            && report.rows == ReportRows(subjects, s.log[..report.seenStudy], r.owner, r.window, report.at)
  {
    var report := r.phase.report;
    subjects :| SubjectsGood(s, r.track, subjects, report.source)
                && report.rows == ReportRows(subjects, s.log[..report.seenStudy], r.owner, r.window, report.at);
  }

  /**
    Main result. With no bump of the owner's sessions or of the track outstanding
    when it takes its study version, a finished report whose subjects were read
    under the reference version of its key is a direct report at moments of the
    read, plus exactly the time of sessions that aged out since it was computed.
  */
  lemma SettledReportIsDirectPlusAged(before: seq<Step>, id: nat, after: seq<Step>) returns (n: nat, m: nat)
    requires var s0 := Run(EMPTY, before);
             && id in s0.readers && s0.readers[id].phase.HasSubjects?
             && CacheProtocol.Settled(s0.base, [StudyCounter(s0.readers[id].owner)])
             && CacheProtocol.Settled(s0.base, [ReferenceCounter(s0.readers[id].track)])
    requires var s := Run(Next(Run(EMPTY, before), TakesStudyVersion(id)), after);
             && id in s.readers && s.readers[id].phase.Answered?
             && s.readers[id].phase.report.source.version == s.readers[id].phase.reference
    ensures var s := Run(Next(Run(EMPTY, before), TakesStudyVersion(id)), after);
            DirectPlusAged(Run(EMPTY, before), s, s.readers[id], n, m)
  {
    var s0 := Run(EMPTY, before);
    var s1 := Next(s0, TakesStudyVersion(id));
    RunInv(EMPTY, before);
    NextInv(s0, TakesStudyVersion(id));
    RunInv(s1, after);
    ReaderKeepsStudyVersion(s1, id, after);
    ReferenceTakenLater(s1, id, after);
    n, m := SettledReaderIsDirect(s0, Run(s1, after), Run(s1, after).readers[id]);
  }

  // ----- the reference half -----

  ghost predicate Reachable(s: State) {
    exists steps :: Run(EMPTY, steps) == s
  }

  /** The subjects behind a stored report include every seeding its reference version counts. */
  ghost predicate ReferenceFresh(s: State, k: Key)
    requires k in s.reports
  {
    Includes(s.base, ReferenceCounter(k.track), k.reference, s.reports[k].source.seen)
  }

  ghost predicate FiledFor(s: State, k: Key, track: Id, taken: nat, filed: nat)
    requires k in s.reports
  {
    k.track == track && s.reports[k].source.version == taken && k.reference == filed
  }

  /** No report filed under reference version `filed`, on subjects read under version `taken`, is ever stale. */
  ghost predicate AlwaysFresh(track: Id, taken: nat, filed: nat) {
    forall s, k | Reachable(s) && k in s.reports && FiledFor(s, k, track, taken, filed) :: ReferenceFresh(s, k)
  }

  lemma ReachableNext(s: State, step: Step)
    requires Reachable(s)
    ensures Reachable(Next(s, step))
  {
    var steps :| Run(EMPTY, steps) == s;
    assert (steps + [step])[..|steps|] == steps;
    assert Run(EMPTY, steps + [step]) == Next(s, step);
  }

  lemma ReachableStart()
    ensures Reachable(EMPTY)
  {
    assert Run(EMPTY, []) == EMPTY;
  }

  lemma SameVersionIsFresh(s: State, k: Key)
    requires Reachable(s) && k in s.reports && s.reports[k].source.version == k.reference
    ensures ReferenceFresh(s, k)
  {
    var steps :| Run(EMPTY, steps) == s;
    RunInv(EMPTY, steps);
  }

  /** Log positions `from`, `from + 1`, ..., `n` of them. */
  function Positions(from: nat, n: nat): seq<nat> {
    seq(n, i requires 0 <= i < n => from + i)
  }

  /** What seeding leaves alone: reports and readers, and all but the log and the counters below them. */
  ghost predicate OnlySeeded(s: State, s': State) {
    && s'.reports == s.reports && s'.readers == s.readers
    && s'.base.readers == s.base.readers && s.base.log <= s'.base.log
  }

  /** `s'` is `s` after the reference rows were seeded `n` times, each time with its bump. */
  ghost predicate Seeded(s: State, s': State, track: Id, reference: Reference, n: nat) {
    && OnlySeeded(s, s')
    && |s'.base.log| == |s.base.log| + n
    && (n > 0 ==> s'.base.log[|s'.base.log| - 1] == ReferenceSeeded(track, reference))
    && CacheProtocol.BumpsOf(s'.base.bumps, ReferenceCounter(track)) ==
         CacheProtocol.BumpsOf(s.base.bumps, ReferenceCounter(track)) + Positions(|s.base.log|, n)
  }

  lemma SeededOneMore(a: State, b: State, c: State, track: Id, reference: Reference, n: nat)
    requires Seeded(a, b, track, reference, n) && Seeded(b, c, track, reference, 1)
    ensures Seeded(a, c, track, reference, n + 1)
  {
    PositionsSnoc(CacheProtocol.BumpsOf(a.base.bumps, ReferenceCounter(track)), |a.base.log|, n);
  }

  lemma PositionsSnoc(before: seq<nat>, from: nat, n: nat)
    ensures before + Positions(from, n) + Positions(from + n, 1) == before + Positions(from, n + 1)
  {}

  lemma SeedOnce(s: State, track: Id, reference: Reference) returns (s': State)
    requires Reachable(s)
    ensures Reachable(s') && Seeded(s, s', track, reference, 1)
  {
    var committed := Next(s, Base(CacheProtocol.Commits(ReferenceSeeded(track, reference))));
    ReachableNext(s, Base(CacheProtocol.Commits(ReferenceSeeded(track, reference))));
    ReachableNext(committed, Base(CacheProtocol.Bumps(|s.base.log|)));
    s' := Next(committed, Base(CacheProtocol.Bumps(|s.base.log|)));
  }

  lemma {:induction false} SeedMore(s: State, track: Id, reference: Reference, n: nat) returns (s': State)
    requires Reachable(s)
    ensures Reachable(s') && Seeded(s, s', track, reference, n)
  {
    if n == 0 {
      s' := s;
    } else {
      var m := SeedMore(s, track, reference, n - 1);
      s' := SeedOnce(m, track, reference);
      SeededOneMore(s, m, s', track, reference, n - 1);
    }
  }

  /** A subjects read that misses answers from the log as it stands, under the version as it stands. */
  lemma ReadSubjects(s: State, track: Id) returns (s': State)
    requires Reachable(s) && 0 !in s.base.readers
    ensures Reachable(s')
    ensures s'.reports == s.reports && s'.readers == s.readers
    ensures s'.base.log == s.base.log && s'.base.bumps == s.base.bumps
    ensures 0 in s'.base.readers && s'.base.readers[0].Answered?
    ensures var r := s'.base.readers[0];
            && r.req == ListSubjects(track) && r.value == Execute(ListSubjects(track), s.base.log, s.base.now)
            && r.versions == CacheProtocol.VersionsNow(s.base.bumps, [ReferenceCounter(track)])
            && r.seen == |s.base.log|
  {
    CacheProtocol.MissedRead(s.base, 0, ListSubjects(track));
    var steps := CacheProtocol.MissingRead(0, ListSubjects(track));
    s' := BaseSteps(s, steps);
  }

  lemma {:induction false} BaseSteps(s: State, steps: seq<CacheProtocol.Step>) returns (s': State)
    requires Reachable(s)
    ensures Reachable(s') && s' == s.(base := CacheProtocol.Run(s.base, steps))
  {
    if steps == [] {
      s' := s;
    } else {
      var m := BaseSteps(s, steps[..|steps| - 1]);
      ReachableNext(m, Base(steps[|steps| - 1]));
      s' := Next(m, Base(steps[|steps| - 1]));
    }
  }

  lemma StartReport(s: State, owner: Id) returns (s': State)
    requires Reachable(s) && 0 !in s.readers && 0 in s.base.readers
    requires var r := s.base.readers[0];
             r.Answered? && r.req.ListSubjects? && |r.versions| == 1 && r.value.SubjectList? && r.value.subjects != []
    ensures Reachable(s') && s'.base == s.base && 0 in s'.readers
    ensures var r := s.base.readers[0];
            s'.readers[0] == Reader(owner, r.req.track, CacheKeys.Week, r.value.subjects, Source(r.versions[0], r.seen), HasSubjects)
  {
    ReachableNext(s, TakesSubjects(0, 0, owner, CacheKeys.Week));
    s' := Next(s, TakesSubjects(0, 0, owner, CacheKeys.Week));
  }

  lemma TakeVersions(s: State) returns (s': State)
    requires Reachable(s) && 0 in s.readers && s.readers[0].phase.HasSubjects?
    ensures Reachable(s') && s'.base == s.base && 0 in s'.readers
    ensures s'.readers[0] == s.readers[0].(phase := HasVersions(Value(s.base, StudyCounter(s.readers[0].owner)),
                                                                Value(s.base, ReferenceCounter(s.readers[0].track))))
  {
    ReachableNext(s, TakesStudyVersion(0));
    var m := Next(s, TakesStudyVersion(0));
    ReachableNext(m, TakesReferenceVersion(0));
    s' := Next(m, TakesReferenceVersion(0));
  }

  lemma MissAndFile(s: State) returns (s': State)
    requires Reachable(s) && 0 in s.readers && s.readers[0].phase.HasVersions?
    ensures Reachable(s') && s'.base == s.base
    ensures ReaderKey(s.readers[0]) in s'.reports
    ensures var r, report := s.readers[0], s'.reports[ReaderKey(s.readers[0])];
            report.source == r.source && report.rows == ReportRows(r.subjects, s.base.log, r.owner, r.window, report.at)
  {
    var queried := MissAndQuery(s);
    ReachableNext(queried, Stores(0, true));
    s' := Next(queried, Stores(0, true));
  }

  lemma MissAndQuery(s: State) returns (s': State)
    requires Reachable(s) && 0 in s.readers && s.readers[0].phase.HasVersions?
    ensures Reachable(s') && s'.base == s.base && 0 in s'.readers && s'.readers[0].phase.Queried?
    ensures ReaderKey(s'.readers[0]) == ReaderKey(s.readers[0])
    ensures var r, report := s.readers[0], s'.readers[0].phase.report;
            report.source == r.source && report.rows == ReportRows(r.subjects, s.base.log, r.owner, r.window, report.at)
  {
    ReachableNext(s, Misses(0));
    var missed := Next(s, Misses(0));
    ReachableNext(missed, Queries(0));
    s' := Next(missed, Queries(0));
  }

  /**
    Main result. The reference half of a report filed under version `filed` can
    be relied on exactly when its subjects were read under that same version.
    For every smaller version some run files outdated subjects: they were loaded,
    then the track was seeded and its counter bumped, and only then did the
    report take the reference version of its key.
  */
  lemma ReferenceHalfFreshIff(track: Id, taken: nat, filed: nat)
    requires taken <= filed
    ensures AlwaysFresh(track, taken, filed) <==> taken == filed
  {
    if taken == filed {
      forall s, k | Reachable(s) && k in s.reports && FiledFor(s, k, track, taken, filed)
        ensures ReferenceFresh(s, k)
      {
        SameVersionIsFresh(s, k);
      }
    } else {
      var s, k := OutdatedReport(track, taken, filed);
    }
  }

  const MATHS := Allocation.Code("mathimatika")
  const THEORY := Allocation.Code("aoth")

  /** Equal weights, and what the new season makes of them. */
  function OldReference(): Reference {
    Reference([Allocation.Subject(MATHS, 1.0), Allocation.Subject(THEORY, 1.0)], 0)
  }

  function NewReference(): Reference {
    Reference([Allocation.Subject(MATHS, 1.0), Allocation.Subject(THEORY, 3.0)], 0)
  }

  /** A track seeded by a migration, which commits its rows without bumping the counter. */
  lemma MigratedState(track: Id) returns (s: State)
    ensures Reachable(s) && s.reports == map[] && s.readers == map[] && s.base.readers == map[]
    ensures s.base.log == [ReferenceSeeded(track, OldReference())]
    ensures CacheProtocol.BumpsOf(s.base.bumps, ReferenceCounter(track)) == []
  {
    var migrated := CacheProtocol.Commits(ReferenceSeeded(track, OldReference()));
    ReachableStart();
    ReachableNext(EMPTY, Base(migrated));
    s := Next(EMPTY, Base(migrated));
    assert s.base.log == [] + [ReferenceSeeded(track, OldReference())];
  }

  /** It is seeded `taken` times more, and its subjects are read after that. */
  lemma SubjectsAfterSeeding(track: Id, taken: nat) returns (s: State)
    ensures Reachable(s) && s.reports == map[] && s.readers == map[] && |s.base.log| == taken + 1
    ensures CacheProtocol.BumpsOf(s.base.bumps, ReferenceCounter(track)) == Positions(1, taken)
    ensures 0 in s.base.readers && s.base.readers[0].Answered?
    ensures var r := s.base.readers[0];
            && r.req == ListSubjects(track) && r.versions == [taken] && r.seen == taken + 1
            && r.value == SubjectList(OldReference().subjects)
  {
    var s0 := MigratedState(track);
    var s1 := SeedMore(s0, track, OldReference(), taken);
    assert [] + Positions(1, taken) == Positions(1, taken);
    LatestSeeding(s1.base.log, track, OldReference());
    s := ReadSubjects(s1, track);
  }

  lemma LatestSeeding(log: Log, track: Id, reference: Reference)
    requires log != [] && log[|log| - 1] == ReferenceSeeded(track, reference)
    ensures Execute(ListSubjects(track), log, 0) == SubjectList(reference.subjects)
    ensures forall now :: Execute(ListSubjects(track), log, now) == SubjectList(reference.subjects)
  {}

  /** Planned shares move with the weights. */
  lemma PlannedShareMoves(a: Log, b: Log, owner: Id, w: CacheKeys.Window, at: int, at': int)
    ensures ReportRows(OldReference().subjects, a, owner, w, at)[0].planned == 0.5
    ensures ReportRows(NewReference().subjects, b, owner, w, at')[0].planned == 0.25
  {
    var old', new' := OldReference().subjects, NewReference().subjects;
    assert old'[..1][..0] == [] && new'[..1][..0] == [];
    assert Allocation.Weight(old'[..1]) == 1.0 && Allocation.Weight(new'[..1]) == 1.0;
    assert Allocation.Weight(old') == 2.0 && Allocation.Weight(new') == 4.0;
  }

  /** The report filed under `k` plans with other shares than the subjects in the database give. */
  ghost predicate PlansWithOldWeights(s: State, k: Key)
    requires k in s.reports
  {
    var current := Execute(ListSubjects(k.track), s.base.log, s.base.now);
    && current.SubjectList? && current.subjects != [] && s.reports[k].rows != []
    && s.reports[k].rows[0].planned != ReportRows(current.subjects, s.base.log, k.owner, k.window, s.base.now)[0].planned
  }

  lemma OutdatedReport(track: Id, taken: nat, filed: nat) returns (s: State, k: Key)
    requires taken < filed
    ensures Reachable(s) && k in s.reports && FiledFor(s, k, track, taken, filed)
    ensures !ReferenceFresh(s, k) && PlansWithOldWeights(s, k)
  {
    var before := ReaderBetweenSeedings(track, taken, filed);
    s := MissAndFile(before);
    k := ReaderKey(before.readers[0]);
    BumpMissed(s, k, taken, filed);
    LatestSeeding(s.base.log, track, NewReference());
    PlannedShareMoves(before.base.log, s.base.log, k.owner, k.window, s.reports[k].at, s.base.now);
  }

  /** A report reader that took its subjects after `taken` seedings and its versions after `filed` of them. */
  lemma ReaderBetweenSeedings(track: Id, taken: nat, filed: nat) returns (s: State)
    requires taken < filed
    ensures Reachable(s) && 0 in s.readers && s.readers[0].phase.HasVersions?
    ensures var r := s.readers[0];
            && r.track == track && r.subjects == OldReference().subjects && r.source == Source(taken, taken + 1)
            && r.phase.reference == filed
    ensures s.base.log != [] && s.base.log[|s.base.log| - 1] == ReferenceSeeded(track, NewReference())
    ensures CacheProtocol.BumpsOf(s.base.bumps, ReferenceCounter(track)) == Positions(1, taken) + Positions(taken + 1, filed - taken)
  {
    var seeded := SubjectsReadBetweenSeedings(track, taken, filed);
    assert Value(seeded.base, ReferenceCounter(track)) == filed;
    s := StartAndTakeVersions(seeded, track);
  }

  lemma StartAndTakeVersions(s: State, owner: Id) returns (s': State)
    requires Reachable(s) && 0 !in s.readers && 0 in s.base.readers
    requires var r := s.base.readers[0];
             r.Answered? && r.req.ListSubjects? && |r.versions| == 1 && r.value.SubjectList? && r.value.subjects != []
    ensures Reachable(s') && s'.base == s.base && 0 in s'.readers && s'.readers[0].phase.HasVersions?
    ensures var r, r' := s.base.readers[0], s'.readers[0];
            && r'.track == r.req.track && r'.subjects == r.value.subjects && r'.source == Source(r.versions[0], r.seen)
            && r'.phase.reference == Value(s.base, ReferenceCounter(r.req.track))
  {
    var started := StartReport(s, owner);
    s' := TakeVersions(started);
  }

  lemma SubjectsReadBetweenSeedings(track: Id, taken: nat, filed: nat) returns (s: State)
    requires taken < filed
    ensures Reachable(s) && s.readers == map[] && 0 in s.base.readers && s.base.readers[0].Answered?
    ensures var r := s.base.readers[0];
            && r.req == ListSubjects(track) && r.versions == [taken] && r.seen == taken + 1
            && r.value == SubjectList(OldReference().subjects)
    ensures s.base.log != [] && s.base.log[|s.base.log| - 1] == ReferenceSeeded(track, NewReference())
    ensures CacheProtocol.BumpsOf(s.base.bumps, ReferenceCounter(track)) == Positions(1, taken) + Positions(taken + 1, filed - taken)
  {
    var read := SubjectsAfterSeeding(track, taken);
    s := SeedMore(read, track, NewReference(), filed - taken);
  }

  lemma BumpMissed(s: State, k: Key, taken: nat, filed: nat)
    requires k in s.reports && s.reports[k].source == Source(taken, taken + 1) && taken < filed == k.reference
    requires CacheProtocol.BumpsOf(s.base.bumps, ReferenceCounter(k.track)) ==
               Positions(1, taken) + Positions(taken + 1, filed - taken)
    ensures !ReferenceFresh(s, k)
  {
    var bumps := CacheProtocol.BumpsOf(s.base.bumps, ReferenceCounter(k.track));
    assert bumps[taken] == taken + 1;
  }
}
