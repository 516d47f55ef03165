/**
  Tasks (services/task_service.py): the bookkeeping `update_task` does around
  completion and reminders. Instants are whole seconds.
*/
module Tasks {
  import opened Options

  datatype Status = Todo | InProgress | Done

  datatype Row = Row(
    owner: nat,
    status: Status,
    due: Option<int>,
    leadMinutes: Option<int>,
    completedAt: Option<int>,
    notifiedAt: Option<int>,
    leadNotifiedAt: Option<int>)

  /** A field of a partial update: absent from the request, or present with a value. */
  datatype Field<T> = Unset | Set(value: T)

  datatype Patch = Patch(status: Field<Status>, due: Field<Option<int>>, leadMinutes: Field<Option<int>>)

  function NewTask(owner: nat, due: Option<int>, leadMinutes: Option<int>): Row {
    Row(owner, Todo, due, leadMinutes, None, None, None)
  }

  predicate Changes<T(==)>(f: Field<T>, current: T) {
    f.Set? && f.value != current
  }

  function Assigned<T>(f: Field<T>, current: T): T {
    if f.Set? then f.value else current
  }

  predicate MovesDue(t: Row, p: Patch) {
    Changes(p.due, t.due)
  }

  predicate MovesLead(t: Row, p: Patch) {
    Changes(p.leadMinutes, t.leadMinutes)
  }

  /** The row `update_task` leaves behind. */
  function Updated(t: Row, p: Patch, now: int): Row {
    Row(t.owner,
        Assigned(p.status, t.status),
        Assigned(p.due, t.due),
        Assigned(p.leadMinutes, t.leadMinutes),
        if !Changes(p.status, t.status) then t.completedAt
        else if p.status.value == Done then Some(now) else None,
        if MovesDue(t, p) then None else t.notifiedAt,
        if MovesDue(t, p) || MovesLead(t, p) then None else t.leadNotifiedAt)
  }

  function WrittenField<T(==)>(current: T, loaded: T, wanted: T): T {
    if wanted != loaded then wanted else current
  }

  /** The UPDATE of a row loaded earlier sets only the columns that differ from what was loaded. */
  function Written(current: Row, loaded: Row, wanted: Row): Row {
    Row(current.owner,
        WrittenField(current.status, loaded.status, wanted.status),
        WrittenField(current.due, loaded.due, wanted.due),
        WrittenField(current.leadMinutes, loaded.leadMinutes, wanted.leadMinutes),
        WrittenField(current.completedAt, loaded.completedAt, wanted.completedAt),
        WrittenField(current.notifiedAt, loaded.notifiedAt, wanted.notifiedAt),
        WrittenField(current.leadNotifiedAt, loaded.leadNotifiedAt, wanted.leadNotifiedAt))
  }

  /** With nothing committed in between, that leaves the row as updated. */
  lemma WrittenAlone(t: Row, p: Patch, now: int)
    ensures Written(t, t, Updated(t, p, now)) == Updated(t, p, now)
  {}

  /** The live ORM row. */
  class Task {
    var row: Row

    constructor (row: Row)
      ensures this.row == row
    {
      this.row := row;
    }

    method Update(p: Patch, now: int)
      modifies this
      ensures row == Updated(old(row), p, now)
    {
      if p.status.Set? && p.status.value != row.status {
        row := row.(completedAt := if p.status.value == Done then Some(now) else None);
      }
      if p.due.Set? && p.due.value != row.due {
        row := row.(notifiedAt := None);
        row := row.(leadNotifiedAt := None);
      } else if p.leadMinutes.Set? && p.leadMinutes.value != row.leadMinutes {
        row := row.(leadNotifiedAt := None);
      }
      if p.status.Set? { row := row.(status := p.status.value); }
      if p.due.Set? { row := row.(due := p.due.value); }
      if p.leadMinutes.Set? { row := row.(leadMinutes := p.leadMinutes.value); }
    }
  }

  /** A task is done exactly when it carries a completion time. */
  predicate CompletionConsistent(t: Row) {
    t.status == Done <==> t.completedAt.Some?
  }

  /** Every update keeps that, and restamps completion only on a real move into Done. */
  lemma UpdateKeepsCompletion(t: Row, p: Patch, now: int)
    requires CompletionConsistent(t)
    ensures CompletionConsistent(Updated(t, p, now))
    ensures Updated(t, p, now).completedAt.Some? ==>
              Updated(t, p, now).completedAt == if t.status == Done then t.completedAt else Some(now)
  {}

  /** The update moves a row it loaded open to another open status, over a row that is done by now. */
  predicate OpensOverDone(current: Row, loaded: Row, p: Patch) {
    current.status == Done && loaded.status != Done && Changes(p.status, loaded.status) && p.status.value != Done
  }

  /** An update that overlaps with others keeps it too, exactly unless it does that. */
  lemma OverlapKeepsCompletionIff(current: Row, loaded: Row, p: Patch, now: int)
    requires CompletionConsistent(current) && CompletionConsistent(loaded)
    ensures CompletionConsistent(Written(current, loaded, Updated(loaded, p, now))) <==> !OpensOverDone(current, loaded, p)
  {}
}
