/**
  The due-task job (services/notification_service.py): its candidate filter, and
  what one job does to a database it has to itself.
*/
module DueReminders {
  import opened Options
  import opened Tasks
  import Push

  datatype Kind = DueNotice | LeadNotice

  // ----- the SQL filter, in three-valued logic -----

  datatype Tri = True | False | Unknown

  function And(a: Tri, b: Tri): Tri {
    if a == False || b == False then False else if a == True && b == True then True else Unknown
  }

  function Or(a: Tri, b: Tri): Tri {
    if a == True || b == True then True else if a == False && b == False then False else Unknown
  }

  function Truth(b: bool): Tri {
    if b then True else False
  }

  function AtMost(a: Option<int>, now: int): Tri {
    if a.None? then Unknown else Truth(a.value <= now)
  }

  /** `due_date - make_interval(mins => reminder_minutes_before)` */
  function MinusMinutes(due: Option<int>, minutes: Option<int>): Option<int> {
    if due.Some? && minutes.Some? then Some(due.value - 60 * minutes.value) else None
  }

  /** The WHERE clause; a row is selected only when it evaluates to true. */
  function Where(t: Row, now: int): Tri {
    And(And(Truth(t.due.Some?), Truth(t.status != Done)),
        Or(And(Truth(t.notifiedAt.None?), AtMost(t.due, now)),
           And(And(Truth(t.leadNotifiedAt.None?), Truth(t.leadMinutes.Some?)),
               AtMost(MinusMinutes(t.due, t.leadMinutes), now))))
  }

  /** `due_fire` and `lead_fire`, which the job works out again for each selected row. */
  predicate Fires(kind: Kind, t: Row, now: int) {
    match kind
    case DueNotice => t.notifiedAt.None? && t.due.Some? && t.due.value <= now
    case LeadNotice =>
      t.leadNotifiedAt.None? && t.leadMinutes.Some? && t.due.Some? && t.due.value - 60 * t.leadMinutes.value <= now
  }

  /** NULLs and all, the filter selects exactly the open tasks for which a notice fires. */
  lemma FilterIsFires(t: Row, now: int)
    ensures Where(t, now) == True <==> t.status != Done && (Fires(DueNotice, t, now) || Fires(LeadNotice, t, now))
  {}

  function Candidates(tasks: map<nat, Row>, now: int): map<nat, Row> {
    map id | id in tasks && Where(tasks[id], now) == True :: tasks[id]
  }

  // ----- the job on a quiet database -----

  function Stamp(t: Row, due: bool, lead: bool, now: int): Row {
    t.(notifiedAt := if due then Some(now) else t.notifiedAt,
       leadNotifiedAt := if lead then Some(now) else t.leadNotifiedAt)
  }

  type Deliveries = (Kind, nat, nat) -> Push.Outcome

  /** A notice is delivered when it fired and none of the owner's subscriptions failed. */
  predicate Delivered(kind: Kind, id: nat, t: Row, table: Push.Table, now: int, deliver: Deliveries) {
    Fires(kind, t, now) && Push.NoneFailed(Push.EndpointsOf(table, {t.owner}), (e: nat) => deliver(kind, id, e))
  }

  function Stamped(id: nat, t: Row, table: Push.Table, now: int, deliver: Deliveries): Row {
    Stamp(t, Delivered(DueNotice, id, t, table, now, deliver), Delivered(LeadNotice, id, t, table, now, deliver), now)
  }

  /** One of the notices fired for this task found the endpoint gone. */
  predicate FoundGone(e: nat, id: nat, t: Row, table: Push.Table, now: int, deliver: Deliveries) {
    && e in Push.EndpointsOf(table, {t.owner})
    && ((Fires(DueNotice, t, now) && deliver(DueNotice, id, e) == Push.Gone)
        || (Fires(LeadNotice, t, now) && deliver(LeadNotice, id, e) == Push.Gone))
  }

  /** None of the notices sent for the tasks `ids` found the endpoint gone. */
  predicate StillThere(e: nat, ts: map<nat, Row>, ids: set<nat>, table: Push.Table, now: int, deliver: Deliveries)
    requires ids <= ts.Keys
  {
    forall id | id in ids :: !FoundGone(e, id, ts[id], table, now, deliver)
  }

  /** A notice counts as delivered if it fired and no subscription on file for the task's owner failed. */
  lemma DeliveredToOwner(kind: Kind, id: nat, t: Row, table: Push.Table, now: int, deliver: Deliveries)
    ensures Delivered(kind, id, t, table, now, deliver) <==>
              Fires(kind, t, now) && forall e :: e in table && table[e] == t.owner ==> deliver(kind, id, e) != Push.Failed
  {
    var endpoints := Push.EndpointsOf(table, {t.owner});
    assert forall e :: e in endpoints <==> e in table && table[e] == t.owner;
    var outcome := (e: nat) => deliver(kind, id, e);
    assert forall e :: outcome(e) == deliver(kind, id, e);
    assert Push.NoneFailed(endpoints, outcome) <==> forall e | e in endpoints :: outcome(e) != Push.Failed;
  }

  /** Each kind of notice stamps its own column with the job's time, and the rest of the row stays. */
  lemma StampedColumns(id: nat, t: Row, table: Push.Table, now: int, deliver: Deliveries)
    ensures var t' := Stamped(id, t, table, now, deliver);
            && t'.notifiedAt == (if Delivered(DueNotice, id, t, table, now, deliver) then Some(now) else t.notifiedAt)
            && t'.leadNotifiedAt == (if Delivered(LeadNotice, id, t, table, now, deliver) then Some(now) else t.leadNotifiedAt)
            && t'.(notifiedAt := t.notifiedAt, leadNotifiedAt := t.leadNotifiedAt) == t
  {}

  class DueTaskJob {
    var tasks: map<nat, Row>
    const push: Push.Sender

    constructor (tasks: map<nat, Row>, push: Push.Sender)
      ensures this.tasks == tasks && this.push == push
    {
      this.tasks := tasks;
      this.push := push;
    }

    method Announce(kind: Kind, id: nat, t: Row, endpoints: set<nat>, now: int, deliver: Deliveries) returns (stamp: bool)
      modifies push
      ensures stamp <==> Fires(kind, t, now) && Push.NoneFailed(endpoints, (e: nat) => deliver(kind, id, e))
      ensures push.table.Keys ==
                set e | e in old(push.table) && !(Fires(kind, t, now) && e in endpoints && deliver(kind, id, e) == Push.Gone)
    {
      stamp := false;
      if Fires(kind, t, now) {
        stamp := push.SendToSubscriptions(endpoints, (e: nat) => deliver(kind, id, e));
      }
    }

    /** Both notices of one candidate, to the subscriptions listed before the job's first send. */
    method NotifyTask(id: nat, t: Row, subscriptions: Push.Table, now: int, deliver: Deliveries)
      modifies this, push
      ensures tasks == old(tasks)[id := Stamped(id, t, subscriptions, now, deliver)]
      ensures push.table.Keys == set e | e in old(push.table) && !FoundGone(e, id, t, subscriptions, now, deliver)
    {
      var endpoints := Push.EndpointsOf(subscriptions, {t.owner});
      var due := Announce(DueNotice, id, t, endpoints, now, deliver);
      var lead := Announce(LeadNotice, id, t, endpoints, now, deliver);
      tasks := tasks[id := Stamp(t, due, lead, now)];
    }

    /** `send_due_task_notifications` with nothing else running. */
    method SendDueTaskNotifications(now: int, deliver: Deliveries)
      modifies this, push
      ensures tasks.Keys == old(tasks).Keys
      ensures forall id :: id in old(tasks) ==>
                tasks[id] == if id in Candidates(old(tasks), now)
                             then Stamped(id, old(tasks)[id], old(push.table), now, deliver)
                             else old(tasks)[id]
      ensures var selected := Candidates(old(tasks), now);
              forall e :: e in push.table <==>
                e in old(push.table) && StillThere(e, selected, selected.Keys, old(push.table), now, deliver)
    {
      var candidates := Candidates(tasks, now);
      var subscriptions := push.table;
      var todo := candidates.Keys;
      while todo != {}
        invariant todo <= candidates.Keys && tasks.Keys == old(tasks).Keys
        invariant forall id :: id in old(tasks) ==>
                    tasks[id] == if id in candidates && id !in todo
                                 then Stamped(id, old(tasks)[id], subscriptions, now, deliver)
                                 else old(tasks)[id]
        invariant forall e :: e in push.table <==>
                    e in subscriptions && StillThere(e, candidates, candidates.Keys - todo, subscriptions, now, deliver)
        decreases todo
      {
        var id :| id in todo;
        NotifyTask(id, candidates[id], subscriptions, now, deliver);
        todo := todo - {id};
      }
    }
  }
}
