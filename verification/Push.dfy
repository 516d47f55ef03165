/**
  Web push delivery (services/notification_service.py): one send per
  subscription, pruning endpoints the push service reports as gone.
*/
module Push {

  /** How one send ended: taken, 404/410, or anything else. */
  datatype Outcome = Accepted | Gone | Failed

  /** `push_subscriptions`: endpoint to user. */
  type Table = map<nat, nat>

  function EndpointsOf(table: Table, users: set<nat>): set<nat> {
    set e | e in table && table[e] in users
  }

  predicate NoneFailed(endpoints: set<nat>, deliver: nat -> Outcome) {
    forall e | e in endpoints :: deliver(e) != Failed
  }

  function Pruned(table: Table, endpoints: set<nat>, deliver: nat -> Outcome): Table {
    map e | e in table && !(e in endpoints && deliver(e) == Gone) :: table[e]
  }

  class Sender {
    var table: Table

    constructor (table: Table)
      ensures this.table == table
    {
      this.table := table;
    }

    /** `_send_to_subscriptions`: true iff no send failed, pruned ones excepted. */
    method SendToSubscriptions(endpoints: set<nat>, deliver: nat -> Outcome) returns (ok: bool)
      modifies this
      ensures ok <==> NoneFailed(endpoints, deliver)
      ensures table == Pruned(old(table), endpoints, deliver)
    {
      var anyFailed := false;
      var todo := endpoints;
      while todo != {}
        invariant todo <= endpoints
        invariant !anyFailed <==> NoneFailed(endpoints - todo, deliver)
        invariant table == Pruned(old(table), endpoints - todo, deliver)
        decreases todo
      {
        var e :| e in todo;
        match deliver(e) {
          case Accepted =>
          case Gone => table := table - {e};
          case Failed => anyFailed := true;
        }
        assert endpoints - (todo - {e}) == endpoints - todo + {e};
        todo := todo - {e};
      }
      assert endpoints - todo == endpoints;
      ok := !anyFailed;
    }
  }
}
