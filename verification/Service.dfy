/** One round of the receive loop of a service, on its lock table. */
module Service {
  import opened Locks
  import opened SlotSpec
  import opened LockTable

  datatype Request =
    | Load(addr: int)
    | Store(addr: int)
    | RmvNode
    | LoadRls(addr: int)
    | StoreFinish(addr: int)

  datatype Reply = Reply(node: nat, response: Conflict)

  predicate Acquires(req: Request) { req.Load? || req.Store? }

  /** What a message that is not answered leaves of the holdings. */
  function Left(h: set<Hold>, sender: nat, req: Request): set<Hold> {
    match req
    case LoadRls(x) => h - {Hold(sender, x, Rd)}
    case StoreFinish(x) => h - {Hold(sender, x, Wr)}
    case _ => Without(h, {sender})
  }

  /** A release takes the one lock that it names, of the kind that it names, the message at the end of an
      attempt all locks of the sender; no holding of anybody else goes, and none comes. */
  lemma GivenBackExactly(h: set<Hold>, sender: nat, req: Request)
    requires !Acquires(req)
    ensures forall y :: y in Left(h, sender, req) <==>
              y in h && (y.node == sender ==>
                           !req.RmvNode? && (y.addr != req.addr || if req.LoadRls? then y.mode == Wr else y.mode == Rd))
  {
    match req
    case LoadRls(x) =>
      assert forall y | y in h && y.node == sender && y.addr == x && y.mode == Rd :: y == Hold(sender, x, Rd);
    case StoreFinish(x) =>
      assert forall y | y in h && y.node == sender && y.addr == x && y.mode == Wr :: y == Hold(sender, x, Wr);
    case _ =>
  }

  /** What the counted table needs of a sender: no write lock asked for twice, no single release
      of a lock when it has only the other one on the address. */
  ghost predicate Expected(h: set<Hold>, sender: nat, req: Request) {
    match req
    case Store(x) => !Again(h, sender, x, Wr)
    case LoadRls(x) => MayRelease(h, sender, x, Rd)
    case StoreFinish(x) => MayRelease(h, sender, x, Wr)
    case _ => true
  }

  predicate Addressed(req: Request) { !req.RmvNode? ==> req.addr != 0 }

  class Dsl {
    const table: Table
    var sent: seq<Reply>      // the replies sent so far

    constructor (table: Table)
      ensures this.table == table && sent == []
    {
      this.table, sent := table, [];
    }

    /** The table after a message that found the holdings `h`: its logs still agree with its
        slots exactly if the message was one the counted table can cope with. */
    ghost predicate Fares(h: set<Hold>, sender: nat, req: Request)
      reads table, table.buckets, table.logs, table.pos.Keys, table.owner.Keys
    {
      table.Sound() && (table.LogsAgree() <==> Expected(h, sender, req))
    }

    method NotePriority(sender: nat, prio: nat)
      requires table.Valid() && sender < table.nodes
      modifies table`prios
      ensures table.Valid() && table.prios == old(table.prios)[sender := prio]
    {
      table.prios := table.prios[sender := prio];
    }

    /** tm2c_ht_delete_node for the sender of a message. */
    method Forget(sender: nat)
      requires table.Valid() && sender < table.nodes
      modifies table`view, table`logged, table.pos.Keys`addr, table.pos.Keys`nr, table.pos.Keys`writer,
               table.owner.Keys, table.logs
      ensures table.Valid() && table.Locks() == Without(old(table.Locks()), {sender})
      ensures sent == old(sent) && table.aborted == old(table.aborted) && table.Unmoved()
    {
      table.RemoveNode(sender);
    }

    /** The reply, and after a refusal the purge of the sender. */
    method Respond(sender: nat, conflict: Conflict)
      requires table.Sound() && sender < table.nodes && (conflict != NoConflict ==> table.LogsAgree())
      modifies `sent, table`view, table`logged, table.pos.Keys`addr, table.pos.Keys`nr, table.pos.Keys`writer,
               table.owner.Keys, table.logs
      ensures table.Sound() && sent == old(sent) + [Reply(sender, conflict)]
      ensures if conflict == NoConflict then table.logged == old(table.logged) && table.view == old(table.view)
              else table.LogsAgree()
      ensures table.Locks() == Kept(old(table.Locks()), sender, conflict)
      ensures table.Unmoved() && table.aborted == old(table.aborted)
    {
      sent := sent + [Reply(sender, conflict)];
      if conflict != NoConflict {
        Forget(sender);
      }
    }

    /** The service has sent one more reply, to `sender`, and done what was decided. */
    ghost predicate Did(d: Outcome, calls: seq<Abort>, replies: seq<Reply>, sender: nat)
      reads this, table`view, table`aborted
    {
      && sent == replies + [Reply(sender, d.reply)] && table.Locks() == Kept(d.holds, sender, d.reply)
      && table.aborted == calls + d.calls
    }

    /** try_load or try_store. */
    method Decide(sender: nat, x: int, m: Mode, ghost d: Outcome) returns (conflict: Conflict)
      requires table.Valid() && sender < table.nodes && x != 0 && table.IsDecision(d, sender, x, m)
      modifies table`aborted, table`chains, table`buckets, table`pos, table`owner, table`view, table`logged,
               table.buckets`next, table.pos.Keys`addr, table.pos.Keys`nr, table.pos.Keys`writer, table.owner.Keys,
               table.logs
      ensures table.Sound() && (conflict != NoConflict ==> table.LogsAgree())
      ensures table.LogsAgree() <==> !Again(old(table.Locks()), sender, x, m)
      ensures conflict == d.reply && table.Locks() == d.holds && table.aborted == old(table.aborted) + d.calls
      ensures sent == old(sent) && table.OnlyNewAdded()
    {
      conflict := table.Insert(sender, x, m, d);
    }

    /** try_load or try_store, the reply, and after a refusal the purge of the sender. */
    method Acquire(sender: nat, x: int, m: Mode, ghost d: Outcome)
      requires table.Valid() && sender < table.nodes && x != 0 && table.IsDecision(d, sender, x, m)
      modifies `sent, table`aborted, table`chains, table`buckets, table`pos, table`owner, table`view, table`logged,
               table.buckets`next, table.pos.Keys`addr, table.pos.Keys`nr, table.pos.Keys`writer, table.owner.Keys,
               table.logs
      ensures table.Sound() && (table.LogsAgree() <==> !Again(old(table.Locks()), sender, x, m))
      ensures Did(d, old(table.aborted), old(sent), sender)
      ensures table.OnlyNewAdded()
    {
      var conflict := Decide(sender, x, m, d);
      Respond(sender, conflict);
    }

    /** The messages that are not answered. */
    method GiveBack(sender: nat, req: Request)
      requires table.Valid() && sender < table.nodes && Addressed(req) && !Acquires(req)
      modifies table`view, table`logged, table.pos.Keys`addr, table.pos.Keys`nr, table.pos.Keys`writer,
               table.owner.Keys, table.logs
      ensures Fares(old(table.Locks()), sender, req)
      ensures table.Unmoved() && table.Locks() == Left(old(table.Locks()), sender, req)
    {
      if req.LoadRls? {
        table.Remove(sender, req.addr, Rd);
      } else if req.StoreFinish? {
        table.Remove(sender, req.addr, Wr);
      } else {
        Forget(sender);
      }
    }

    /** The effect of one message on holdings, replies and calls of abort_node. */
    ghost predicate Handled(h: set<Hold>, calls: seq<Abort>, replies: seq<Reply>, sender: nat, req: Request)
      requires sender < |table.prios| && forall y | y in h :: y.node < |table.prios|
      reads this, table`view, table`aborted, table`prios
    {
      if Acquires(req) then
        Did(Decision(h, table.prios, sender, req.addr, if req.Load? then Rd else Wr), calls, replies, sender)
      else
        table.Locks() == Left(h, sender, req) && sent == replies && table.aborted == calls
    }

    method Dispatch(sender: nat, req: Request)
      requires table.Valid() && sender < table.nodes && Addressed(req)
      requires sender < |table.prios| && forall y | y in table.Locks() :: y.node < |table.prios|
      modifies `sent, table`aborted, table`chains, table`buckets, table`pos, table`owner, table`view, table`logged,
               table.buckets`next, table.pos.Keys`addr, table.pos.Keys`nr, table.pos.Keys`writer, table.owner.Keys,
               table.logs
      ensures Fares(old(table.Locks()), sender, req) && table.OnlyNewAdded()
      ensures Handled(old(table.Locks()), old(table.aborted), old(sent), sender, req)
    {
      if Acquires(req) {
        var m := if req.Load? then Rd else Wr;
        Acquire(sender, req.addr, m, Decision(table.Locks(), table.prios, sender, req.addr, m));
      } else {
        GiveBack(sender, req);
      }
    }

    /** dsl_service: one message.  The priority that comes with it is noted first. */
    method Handle(sender: nat, prio: nat, req: Request)
      requires table.Valid() && sender < table.nodes && Addressed(req)
      requires sender < |table.prios| && forall y | y in table.Locks() :: y.node < |table.prios|
      modifies `sent, table`prios, table`aborted, table`chains, table`buckets, table`pos, table`owner, table`view,
               table`logged, table.buckets`next, table.pos.Keys`addr, table.pos.Keys`nr, table.pos.Keys`writer,
               table.owner.Keys, table.logs
      ensures Fares(old(table.Locks()), sender, req)
      ensures table.OnlyNewAdded() && table.prios == old(table.prios)[sender := prio]
      ensures Handled(old(table.Locks()), old(table.aborted), old(sent), sender, req)
    {
      NotePriority(sender, prio);
      Dispatch(sender, req);
    }
  }
}
