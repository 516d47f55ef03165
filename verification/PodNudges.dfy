/**
  Inactivity nudges (services/notification_service.py) over pod memberships
  that users may leave and re-create (services/pod_service.py), also while the
  job is sending.
*/
module PodNudges {
  import opened Options
  import Push

  const INACTIVITY_SECONDS := 24 * 3_600
  const COOLDOWN_SECONDS := 24 * 3_600

  /** A row of `pod_memberships`; a row's key is its id. */
  datatype Membership = Membership(pod: nat, user: nat, joinedAt: int, lastNudge: Option<int>)

  type Memberships = map<nat, Membership>

  /** Stored activity, as (user, instant) pairs. */
  type Activity = set<(nat, int)>

  predicate ActiveSince(activity: Activity, user: nat, since: int) {
    exists a | a in activity :: a.0 == user && a.1 >= since
  }

  /** `list_quiet_memberships`: long enough in the pod, off cooldown, and silent since the threshold. */
  predicate Quiet(m: Membership, activity: Activity, now: int) {
    && m.joinedAt < now - INACTIVITY_SECONDS
    && (m.lastNudge.None? || m.lastNudge.value < now - COOLDOWN_SECONDS)
    && !ActiveSince(activity, m.user, now - INACTIVITY_SECONDS)
  }

  function QuietOnes(ms: Memberships, activity: Activity, now: int): set<nat> {
    set id | id in ms && Quiet(ms[id], activity, now)
  }

  /** `list_other_member_ids` */
  function Others(ms: Memberships, pod: nat, user: nat): set<nat> {
    set id | id in ms && ms[id].pod == pod && ms[id].user != user :: ms[id].user
  }

  type Deliveries = (nat, nat) -> Push.Outcome

  /** Every pod-mate's subscription still on file took the nudge about membership `id`. */
  ghost predicate Reached(id: nat, m: Membership, ms: Memberships, table: Push.Table, deliver: Deliveries) {
    Push.NoneFailed(Push.EndpointsOf(table, Others(ms, m.pod, m.user)), (e: nat) => deliver(id, e))
  }

  function WithStamps(ms: Memberships, nudged: set<nat>, now: int): Memberships {
    map id | id in ms :: if id in nudged then ms[id].(lastNudge := Some(now)) else ms[id]
  }

  /**
    Which of the quiet memberships `ids` may end up stamped: all whose pod took
    every push, and none whose pod has a subscription left on file that refused it.
  */
  ghost predicate RightlyStamped(ids: set<nat>, nudged: set<nat>, ms: Memberships,
                                 before: Push.Table, after: Push.Table, deliver: Deliveries)
    requires ids <= ms.Keys
  {
    && nudged <= ids
    && (forall id :: id in ids && Reached(id, ms[id], ms, before, deliver) ==> id in nudged)
    && (forall id :: id in nudged ==> Reached(id, ms[id], ms, after, deliver))
  }

  lemma StampsLeavePodAlone(ms: Memberships, nudged: set<nat>, now: int, pod: nat, user: nat)
    ensures Others(WithStamps(ms, nudged, now), pod, user) == Others(ms, pod, user)
  {
    var ms' := WithStamps(ms, nudged, now);
    forall u ensures u in Others(ms', pod, user) <==> u in Others(ms, pod, user) {
      if id :| id in ms && ms[id].pod == pod && ms[id].user != user && ms[id].user == u {
        assert ms'[id].pod == pod && ms'[id].user == u;
      }
    }
  }

  class PodNudgeJob {
    var memberships: Memberships
    const push: Push.Sender

    constructor (memberships: Memberships, push: Push.Sender)
      ensures this.memberships == memberships && this.push == push
    {
      this.memberships := memberships;
      this.push := push;
    }

    /**
      `send_pod_inactivity_nudges`. Subscriptions are listed afresh for every
      membership, so an endpoint pruned on the way is not tried again.
    */
    method SendPodInactivityNudges(activity: Activity, now: int, deliver: Deliveries)
      modifies this, push
      ensures exists nudged ::
                && memberships == WithStamps(old(memberships), nudged, now)
                && RightlyStamped(QuietOnes(old(memberships), activity, now), nudged, old(memberships),
                                  old(push.table), push.table, deliver)
    {
      var quiet := QuietOnes(memberships, activity, now);
      var todo := quiet;
      ghost var nudged: set<nat> := {};
      while todo != {}
        invariant todo <= quiet
        invariant memberships == WithStamps(old(memberships), nudged, now)
        invariant push.table.Keys <= old(push.table).Keys
        invariant forall e :: e in push.table ==> push.table[e] == old(push.table)[e]
        invariant RightlyStamped(quiet - todo, nudged, old(memberships), old(push.table), push.table, deliver)
        decreases todo
      {
        var id :| id in todo;
        var m := memberships[id];
        StampsLeavePodAlone(old(memberships), nudged, now, m.pod, m.user);
        var stamped := NudgeAbout(id, now, deliver);
        if stamped {
          nudged := nudged + {id};
        }
        todo := todo - {id};
      }
    }

    method NudgeAbout(id: nat, now: int, deliver: Deliveries) returns (stamped: bool)
      requires id in memberships
      modifies this, push
      ensures stamped <==> Reached(id, old(memberships)[id], old(memberships), old(push.table), deliver)
      ensures memberships == if stamped then old(memberships)[id := old(memberships)[id].(lastNudge := Some(now))]
                             else old(memberships)
      ensures push.table.Keys <= old(push.table).Keys
      ensures forall e :: e in push.table ==> push.table[e] == old(push.table)[e]
    {
      var m := memberships[id];
      var recipients := Others(memberships, m.pod, m.user);
      if recipients == {} {
        stamped := true;
      } else {
        stamped := push.SendToSubscriptions(Push.EndpointsOf(push.table, recipients), (e: nat) => deliver(id, e));
      }
      if stamped {
        memberships := memberships[id := m.(lastNudge := Some(now))];
      }
    }
  }

  // ----- runs, with members coming and going while the job sends -----

  /** A job between its query and its commit: the rows it found quiet. */
  datatype Job = Job(at: int, quiet: Memberships)

  datatype Event =
    | Join(id: nat, pod: nat, user: nat, at: int)
    | Leave(id: nat)
    | ActivityChanges(activity: Activity)
    | JobStarts(at: int)
    | JobCommits(delivered: set<nat>)
    | JobFails

  /**
    `used` are the ids handed out so far. `stamps` is history: when nudges about
    a user in a pod were stamped, whatever the membership row.
  */
  datatype State = State(
    memberships: Memberships, used: set<nat>, activity: Activity, job: Option<Job>, stamps: map<(nat, nat), seq<int>>)

  const START := State(map[], {}, {}, None, map[])

  predicate IsMember(ms: Memberships, pod: nat, user: nat) {
    exists id | id in ms :: ms[id].pod == pod && ms[id].user == user
  }

  function PairOf(m: Membership): (nat, nat) {
    (m.pod, m.user)
  }

  function StampsOf(stamps: map<(nat, nat), seq<int>>, pair: (nat, nat)): seq<int> {
    if pair in stamps then stamps[pair] else []
  }

  function StartedJob(s: State, at: int): Job {
    Job(at, map id | id in QuietOnes(s.memberships, s.activity, at) :: s.memberships[id])
  }

  /** The job stamps what it got through; a row deleted meanwhile makes the UPDATE miss and nothing is committed. */
  function Commit(s: State, job: Job, delivered: set<nat>): State {
    var nudged := job.quiet.Keys * delivered;
    if !(nudged <= s.memberships.Keys) then s.(job := None)
    else
      var pairs := set id | id in nudged :: PairOf(s.memberships[id]);
      s.(memberships := WithStamps(s.memberships, nudged, job.at),
         job := None,
         stamps := map p | p in s.stamps.Keys + pairs ::
           if p in pairs then StampsOf(s.stamps, p) + [job.at] else StampsOf(s.stamps, p))
  }

  function Step(s: State, e: Event): State {
    match e
    case Join(id, pod, user, at) =>
      if id in s.used || IsMember(s.memberships, pod, user) then s
      else s.(memberships := s.memberships[id := Membership(pod, user, at, None)], used := s.used + {id})
    case Leave(id) => s.(memberships := s.memberships - {id})
    case ActivityChanges(activity) => s.(activity := activity)
    case JobStarts(at) => if s.job.Some? then s else s.(job := Some(StartedJob(s, at)))
    case JobCommits(delivered) => if s.job.None? then s else Commit(s, s.job.value, delivered)
    case JobFails => s.(job := None)
  }

  function Run(events: seq<Event>): State {
    if events == [] then START else Step(Run(events[..|events| - 1]), events[|events| - 1])
  }

  /** With nothing in between, a job's two events leave the memberships SendPodInactivityNudges leaves. */
  lemma JobIsTwoSteps(s: State, now: int, nudged: set<nat>, before: Push.Table, after: Push.Table, deliver: Deliveries)
    requires s.job.None?
    requires RightlyStamped(QuietOnes(s.memberships, s.activity, now), nudged, s.memberships, before, after, deliver)
    ensures var s' := Step(Step(s, JobStarts(now)), JobCommits(nudged));
            && s'.memberships == WithStamps(s.memberships, nudged, now)
            && forall id :: id in nudged ==>
                 var pair := PairOf(s.memberships[id]);
                 StampsOf(s'.stamps, pair) == StampsOf(s.stamps, pair) + [now]
  {
    assert StartedJob(s, now).quiet.Keys * nudged == nudged;
  }

  function TimeOf(e: Event, otherwise: int): int {
    match e
    case Join(_, _, _, at) => at
    case JobStarts(at) => at
    case _ => otherwise
  }

  /** Joins and jobs read a clock that never goes back. */
  predicate ClockedBy(events: seq<Event>, now: int) {
    events == [] ||
    (TimeOf(events[|events| - 1], now) <= now
     && ClockedBy(events[..|events| - 1], TimeOf(events[|events| - 1], now)))
  }

  predicate Spaced(s: seq<int>) {
    |s| < 2 || (s[|s| - 2] + COOLDOWN_SECONDS < s[|s| - 1] && Spaced(s[..|s| - 1]))
  }

  predicate EndsBefore(s: seq<int>, t: int) {
    s == [] || s[|s| - 1] < t
  }

  predicate SpacedBy(s: seq<int>, now: int) {
    Spaced(s) && EndsBefore(s, now + 1)
  }

  /** Whatever row stands for a user in a pod, it postdates or remembers their latest stamp. */
  predicate Remembers(m: Membership, stamps: seq<int>) {
    EndsBefore(stamps, m.joinedAt + 1) || (m.lastNudge.Some? && EndsBefore(stamps, m.lastNudge.value + 1))
  }

  /** Pairs are unique, and a row keeps its id: whoever comes back gets another. */
  ghost predicate RowsKept(s: State) {
    && s.memberships.Keys <= s.used
    && forall id, id' :: id in s.memberships && id' in s.memberships && id != id' ==>
         PairOf(s.memberships[id]) != PairOf(s.memberships[id'])
  }

  /** What the job found is unchanged where it still exists, and off cooldown at the job's time. */
  ghost predicate JobKept(s: State, now: int) {
    s.job.Some? ==>
      && s.job.value.at <= now
      && s.job.value.quiet.Keys <= s.used
      && forall id :: id in s.job.value.quiet && id in s.memberships ==>
           && s.memberships[id] == s.job.value.quiet[id]
           && EndsBefore(StampsOf(s.stamps, PairOf(s.memberships[id])), s.job.value.at - COOLDOWN_SECONDS)
  }

  ghost predicate Inv(s: State, now: int) {
    && RowsKept(s)
    && JobKept(s, now)
    && (forall p :: p in s.stamps ==> SpacedBy(s.stamps[p], now))
    && (forall id :: id in s.memberships ==> Remembers(s.memberships[id], StampsOf(s.stamps, PairOf(s.memberships[id]))))
  }

  lemma JoinInv(s: State, e: Event)
    requires e.Join? && Inv(s, e.at)
    ensures Inv(Step(s, e), e.at)
  {}

  lemma StartInv(s: State, at: int)
    requires Inv(s, at)
    ensures Inv(Step(s, JobStarts(at)), at)
  {
    if s.job.None? {
      forall id | id in StartedJob(s, at).quiet
        ensures EndsBefore(StampsOf(s.stamps, PairOf(s.memberships[id])), at - COOLDOWN_SECONDS)
      {
        assert Remembers(s.memberships[id], StampsOf(s.stamps, PairOf(s.memberships[id])));
      }
    }
  }

  lemma SpacedAppend(stamps: seq<int>, at: int, now: int)
    requires Spaced(stamps) && EndsBefore(stamps, at - COOLDOWN_SECONDS) && at <= now
    ensures SpacedBy(stamps + [at], now)
  {
    assert (stamps + [at])[..|stamps|] == stamps;
  }

  lemma CommitKeepsRows(s: State, delivered: set<nat>)
    requires RowsKept(s) && s.job.Some?
    ensures RowsKept(Commit(s, s.job.value, delivered))
  {}

  lemma CommitKeepsSpacing(s: State, delivered: set<nat>, now: int, p: (nat, nat))
    requires Inv(s, now) && s.job.Some? && p in Commit(s, s.job.value, delivered).stamps
    ensures SpacedBy(Commit(s, s.job.value, delivered).stamps[p], now)
  {
    var stamps := Commit(s, s.job.value, delivered).stamps;
    if stamps[p] != StampsOf(s.stamps, p) {
      var id :| id in s.job.value.quiet.Keys * delivered && id in s.memberships && PairOf(s.memberships[id]) == p;
      SpacedAppend(StampsOf(s.stamps, p), s.job.value.at, now);
    }
  }

  lemma CommitKeepsMemory(s: State, delivered: set<nat>, now: int, id: nat)
    requires Inv(s, now) && s.job.Some? && id in s.memberships
    ensures var s' := Commit(s, s.job.value, delivered);
            id in s'.memberships && Remembers(s'.memberships[id], StampsOf(s'.stamps, PairOf(s'.memberships[id])))
  {
    assert Remembers(s.memberships[id], StampsOf(s.stamps, PairOf(s.memberships[id])));
  }

  lemma CommitInv(s: State, delivered: set<nat>, now: int)
    requires Inv(s, now) && s.job.Some?
    ensures Inv(Commit(s, s.job.value, delivered), now)
  {
    var s' := Commit(s, s.job.value, delivered);
    CommitKeepsRows(s, delivered);
    forall p | p in s'.stamps ensures SpacedBy(s'.stamps[p], now) {
      CommitKeepsSpacing(s, delivered, now, p);
    }
    assert s'.memberships.Keys == s.memberships.Keys;
    forall id | id in s'.memberships
      ensures Remembers(s'.memberships[id], StampsOf(s'.stamps, PairOf(s'.memberships[id])))
    {
      CommitKeepsMemory(s, delivered, now, id);
    }
  }

  lemma LaterInv(s: State, now: int, later: int)
    requires Inv(s, now) && now <= later
    ensures Inv(s, later)
  {}

  lemma {:induction false} RunInv(events: seq<Event>, now: int)
    requires ClockedBy(events, now)
    ensures Inv(Run(events), now)
  {
    if events != [] {
      var p, e := events[..|events| - 1], events[|events| - 1];
      RunInv(p, TimeOf(e, now));
      StepInv(Run(p), e, TimeOf(e, now));
      LaterInv(Run(events), TimeOf(e, now), now);
    }
  }

  lemma StepInv(s: State, e: Event, now: int)
    requires Inv(s, now) && TimeOf(e, now) == now
    ensures Inv(Step(s, e), now)
  {
    match e {
      case Join(_, _, _, _) => JoinInv(s, e);
      case JobStarts(at) => StartInv(s, at);
      case JobCommits(delivered) => if s.job.Some? { CommitInv(s, delivered, now); }
      case _ =>
    }
  }

  lemma {:induction false} SpacedApart(s: seq<int>, i: nat, j: nat)
    requires Spaced(s) && i < j < |s|
    ensures s[i] + COOLDOWN_SECONDS < s[j]
  {
    if j < |s| - 1 {
      SpacedApart(s[..|s| - 1], i, j);
    } else if i < j - 1 {
      SpacedApart(s[..|s| - 1], i, j - 1);
    }
  }

  /**
    Main result. Any two stamped nudges about the same user in the same pod are
    more than 24 hours apart, even if the user left and joined again in between,
    and whoever joins or leaves while a job is sending.
  */
  lemma NudgesMoreThanADayApart(events: seq<Event>, now: int, pair: (nat, nat), i: nat, j: nat)
    requires ClockedBy(events, now) && i < j < |StampsOf(Run(events).stamps, pair)|
    ensures StampsOf(Run(events).stamps, pair)[i] + COOLDOWN_SECONDS < StampsOf(Run(events).stamps, pair)[j]
  {
    RunInv(events, now);
    SpacedApart(StampsOf(Run(events).stamps, pair), i, j);
  }

  // ----- what a stamp says -----

  /** Event `k` starts a job at `at`, in a state in which the user was in the pod for over 24 hours, and silent as long. */
  ghost predicate SilentAtStart(events: seq<Event>, k: nat, pair: (nat, nat), at: int) {
    && k < |events| && events[k] == JobStarts(at)
    && var s := Run(events[..k]);
       && (exists id :: id in s.memberships && PairOf(s.memberships[id]) == pair
                        && s.memberships[id].joinedAt + INACTIVITY_SECONDS < at)
       && (forall a :: a in s.activity && a.0 == pair.1 ==> a.1 + INACTIVITY_SECONDS < at)
  }

  lemma QuietIsSilent(events: seq<Event>, k: nat, id: nat)
    requires k < |events| && events[k].JobStarts?
    requires id in StartedJob(Run(events[..k]), events[k].at).quiet
    ensures SilentAtStart(events, k, PairOf(Run(events[..k]).memberships[id]), events[k].at)
  {
    var s := Run(events[..k]);
    assert !ActiveSince(s.activity, s.memberships[id].user, events[k].at - INACTIVITY_SECONDS);
  }

  /** A job under way was started by some event, and still holds what it found then. */
  lemma {:induction false} JobHasStart(events: seq<Event>) returns (k: nat)
    requires Run(events).job.Some?
    ensures var job := Run(events).job.value;
            k < |events| && events[k] == JobStarts(job.at) && job == StartedJob(Run(events[..k]), job.at)
  {
    var p, e := events[..|events| - 1], events[|events| - 1];
    if Run(p).job.Some? {
      k := JobHasStart(p);
      assert p[..k] == events[..k];
    } else {
      k := |p|;
    }
  }

  /**
    Main result. Behind every stamp of every run is the start of a job that found
    the user over 24 hours in the pod and with nothing stored for the last 24.
  */
  lemma {:induction false} NudgeMeansSilence(events: seq<Event>, now: int, pair: (nat, nat), i: nat) returns (k: nat)
    requires ClockedBy(events, now) && i < |StampsOf(Run(events).stamps, pair)|
    ensures SilentAtStart(events, k, pair, StampsOf(Run(events).stamps, pair)[i])
  {
    var p, e := events[..|events| - 1], events[|events| - 1];
    var s := Run(p);
    if i < |StampsOf(s.stamps, pair)| {
      k := NudgeMeansSilence(p, TimeOf(e, now), pair, i);
      assert p[..k] == events[..k];
    } else {
      RunInv(p, TimeOf(e, now));
      var id := NewlyStamped(s, e, pair);
      k := JobHasStart(p);
      assert p[..k] == events[..k];
      QuietIsSilent(events, k, id);
    }
  }

  /** Only a commit adds a stamp, and only one, for a row the job found quiet and nobody has touched. */
  lemma NewlyStamped(s: State, e: Event, pair: (nat, nat)) returns (id: nat)
    requires RowsKept(s) && (exists now :: JobKept(s, now))
    requires StampsOf(Step(s, e).stamps, pair) != StampsOf(s.stamps, pair)
    ensures e.JobCommits? && s.job.Some? && id in s.job.value.quiet && PairOf(s.job.value.quiet[id]) == pair
    ensures StampsOf(Step(s, e).stamps, pair) == StampsOf(s.stamps, pair) + [s.job.value.at]
  {
    id :| id in s.job.value.quiet.Keys * e.delivered && PairOf(s.memberships[id]) == pair;
  }

  // ----- and silence means a nudge -----

  /** A row's stamp is the latest of its user in its pod. */
  predicate StampIsLatest(m: Membership, stamps: seq<int>) {
    m.lastNudge.Some? ==> stamps != [] && stamps[|stamps| - 1] == m.lastNudge.value
  }

  ghost predicate StampsLatest(s: State) {
    forall id :: id in s.memberships ==> StampIsLatest(s.memberships[id], StampsOf(s.stamps, PairOf(s.memberships[id])))
  }

  lemma CommitStampsLatest(s: State, delivered: set<nat>, id: nat)
    requires RowsKept(s) && StampsLatest(s) && s.job.Some? && id in s.memberships
    ensures var s' := Commit(s, s.job.value, delivered);
            id in s'.memberships && StampIsLatest(s'.memberships[id], StampsOf(s'.stamps, PairOf(s'.memberships[id])))
  {
    assert StampIsLatest(s.memberships[id], StampsOf(s.stamps, PairOf(s.memberships[id])));
  }

  lemma StepStampsLatest(s: State, e: Event)
    requires RowsKept(s) && StampsLatest(s)
    ensures StampsLatest(Step(s, e))
  {
    if e.JobCommits? && s.job.Some? {
      var s' := Step(s, e);
      assert s'.memberships.Keys == s.memberships.Keys;
      forall id | id in s'.memberships
        ensures StampIsLatest(s'.memberships[id], StampsOf(s'.stamps, PairOf(s'.memberships[id])))
      {
        CommitStampsLatest(s, e.delivered, id);
      }
    }
  }

  lemma {:induction false} RunStampsLatest(events: seq<Event>, now: int)
    requires ClockedBy(events, now)
    ensures StampsLatest(Run(events))
  {
    if events != [] {
      var p, e := events[..|events| - 1], events[|events| - 1];
      RunStampsLatest(p, TimeOf(e, now));
      RunInv(p, TimeOf(e, now));
      StepStampsLatest(Run(p), e);
    }
  }

  /** In the pod for over 24 hours, not nudged about for over 24, and silent for 24: by the history, not by the row. */
  ghost predicate DueForNudge(s: State, m: Membership, at: int) {
    && m.joinedAt < at - 24 * 3_600
    && EndsBefore(StampsOf(s.stamps, PairOf(m)), at - 24 * 3_600)
    && forall a :: a in s.activity && a.0 == m.user ==> a.1 < at - 24 * 3_600
  }

  /** Main result. After any run, a job finds exactly the memberships that are due for a nudge. */
  lemma FoundIff(events: seq<Event>, at: int, id: nat)
    requires ClockedBy(events, at) && id in Run(events).memberships
    ensures var s := Run(events);
            id in StartedJob(s, at).quiet <==> DueForNudge(s, s.memberships[id], at)
  {
    var s := Run(events);
    var m := s.memberships[id];
    RunInv(events, at);
    RunStampsLatest(events, at);
    assert Remembers(m, StampsOf(s.stamps, PairOf(m))) && StampIsLatest(m, StampsOf(s.stamps, PairOf(m)));
    assert ActiveSince(s.activity, m.user, at - INACTIVITY_SECONDS) <==>
           exists a :: a in s.activity && a.0 == m.user && a.1 >= at - 24 * 3_600;
  }

  /** So a job that nobody disturbs and whose every push is taken stamps each of them, and nobody else. */
  lemma DeliveredJobStampsAllDue(events: seq<Event>, at: int, id: nat)
    requires ClockedBy(events, at) && Run(events).job.None? && id in Run(events).memberships
    ensures var s := Run(events);
            var s' := Step(Step(s, JobStarts(at)), JobCommits(StartedJob(s, at).quiet.Keys));
            var pair := PairOf(s.memberships[id]);
            StampsOf(s'.stamps, pair) ==
              if DueForNudge(s, s.memberships[id], at) then StampsOf(s.stamps, pair) + [at] else StampsOf(s.stamps, pair)
  {
    var s := Run(events);
    RunInv(events, at);
    FoundIff(events, at, id);
    assert StartedJob(s, at).quiet.Keys * StartedJob(s, at).quiet.Keys == StartedJob(s, at).quiet.Keys;
  }

  // ----- who is told -----

  /** A nudge goes to an endpoint exactly if it belongs to another member of the pod. */
  lemma NudgeGoesToPodMates(ms: Memberships, m: Membership, table: Push.Table, e: nat)
    ensures e in Push.EndpointsOf(table, Others(ms, m.pod, m.user)) <==>
              && e in table && table[e] != m.user
              && exists id :: id in ms && ms[id].pod == m.pod && ms[id].user == table[e]
  {}
}
