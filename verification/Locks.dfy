/** The locks one service has handed out, as a plain set of holdings, and what the
    contention manager decides on them.  `LockTable.dfy` implements these functions
    with bucket chains and logs; `Protocol.dfy` runs many services that use them. */
module Locks {

  datatype Option<+T> = None | Some(value: T)

  datatype Mode = Rd | Wr

  /** TM2C_CONFLICT_T: the verdicts of a service and the values of an abort flag. */
  datatype Conflict =
    | NoConflict
    | ReadAfterWrite
    | WriteAfterRead
    | WriteAfterWrite
    | PersistingWrites
    | TxCommitted

  /** Node `node` holds `addr` in mode `mode`. */
  datatype Hold = Hold(node: nat, addr: int, mode: Mode)

  /** One call of abort_node. */
  datatype Abort = Abort(node: nat, reason: Conflict)

  /** Smaller timestamp wins; equal timestamps are broken by the node id. */
  predicate Before(p: nat, i: nat, q: nat, j: nat) {
    p < q || (p == q && i < j)
  }

  /** A written address is held by its writer alone. */
  ghost predicate Exclusive(h: set<Hold>) {
    forall x, y | x in h && y in h && x.addr == y.addr && x.mode == Wr :: x.node == y.node
  }

  /** The holders that stand in the way of `node` taking `addr` in mode `mode`.  A reader
      is stopped by any writer, even by itself; a writer by everybody else. */
  function Blockers(h: set<Hold>, node: nat, addr: int, mode: Mode): (b: set<nat>) {
    set x | x in h && x.addr == addr && (if mode == Rd then x.mode == Wr else x.node != node) :: x.node
  }

  ghost predicate Wins(h: set<Hold>, prios: seq<nat>, node: nat, addr: int, mode: Mode)
    requires node < |prios|
    requires forall x | x in h :: x.node < |prios|
  {
    forall d | d in Blockers(h, node, addr, mode) :: Before(prios[node], node, prios[d], d)
  }

  /** The kind of conflict between a request and its blockers. */
  function Reason(h: set<Hold>, node: nat, addr: int, mode: Mode): Conflict {
    if mode == Rd then ReadAfterWrite
    else if exists x | x in h :: x.addr == addr && x.mode == Wr && x.node != node then WriteAfterWrite
    else WriteAfterRead
  }

  function Without(h: set<Hold>, nodes: set<nat>): set<Hold> {
    set x | x in h && x.node !in nodes
  }

  /** The holdings after a granted request: every blocker lost all it had. */
  function Granted(h: set<Hold>, node: nat, addr: int, mode: Mode): set<Hold> {
    Without(h, Blockers(h, node, addr, mode)) + {Hold(node, addr, mode)}
  }

  /** One purge takes its victim off the list of blockers and nobody else. */
  lemma BlockersAfterPurge(h: set<Hold>, victim: nat, node: nat, addr: int, mode: Mode)
    ensures Blockers(Without(h, {victim}), node, addr, mode) == Blockers(h, node, addr, mode) - {victim}
  {
    var l, r := Blockers(Without(h, {victim}), node, addr, mode), Blockers(h, node, addr, mode) - {victim};
    forall d | d in r ensures d in l {
      var x :| x in h && x.addr == addr && (if mode == Rd then x.mode == Wr else x.node != node) && x.node == d;
      assert x in Without(h, {victim});
    }
  }

  /** A lock nobody stands in the way of can be added. */
  lemma UnblockedIsExclusive(h: set<Hold>, node: nat, addr: int, mode: Mode)
    requires Exclusive(h) && Blockers(h, node, addr, mode) == {}
    ensures Exclusive(h + {Hold(node, addr, mode)})
  {
    assert forall x | x in h && x.addr == addr && (if mode == Rd then x.mode == Wr else x.node != node) ::
        x.node in Blockers(h, node, addr, mode);
  }
}
