/** What every reachable state of the protocol satisfies.  Each conjunct is kept by every
    step on its own lemma; `Inv` is their conjunction. */
module Invariant {
  import opened Locks
  import opened Protocol

  predicate IsReason(f: Conflict) { f.ReadAfterWrite? || f.WriteAfterRead? || f.WriteAfterWrite? }

  predicate ServesFor(pc: SvcPc, a: nat, x: int, m: Mode) {
    (pc.Evicting? || pc.Purging?) && pc.sender == a && pc.addr == x && pc.mode == m
  }

  ghost predicate FlagOk(pc: AppPc, f: Conflict) {
    match pc
    case Idle => f != PersistingWrites
    case Running => f == NoConflict || IsReason(f)
    case Cleared => f == NoConflict || IsReason(f)
    case Waiting(_, _, r) => (f == NoConflict || IsReason(f))
        && (r.Some? ==> r.value == NoConflict || IsReason(r.value))
    case Persisting(_) => f == PersistingWrites
    case Releasing(_, committed) => if committed then f == TxCommitted else f == NoConflict || IsReason(f)
  }

  ghost predicate FlagInv(c: Config, s: State)
    requires WellFormed(c, s)
  {
    && (forall a | 0 <= a < c.apps :: FlagOk(s.apps[a].pc, s.flags[a]))
    && (forall v | 0 <= v < c.svcs ::
          (s.svcs[v].pc.Evicting? || s.svcs[v].pc.Purging?) ==> IsReason(s.svcs[v].pc.reason))
  }

  /** A request in the channel `q` to service `v` is the last message there, and its
      sender is blocked on it. */
  ghost predicate ChannelOk(c: Config, v: nat, q: seq<Msg>, app: App) {
    forall i | 0 <= i < |q| && q[i].Request? ::
      && i == |q| - 1
      && c.route(q[i].addr) == v
      && app.pc == Waiting(q[i].addr, q[i].mode, None)
      && q[i].prio == app.prio
  }

  ghost predicate ChannelInv(c: Config, s: State)
    requires WellFormed(c, s)
  {
    forall v, a | 0 <= v < c.svcs && 0 <= a < c.apps :: ChannelOk(c, v, s.svcs[v].inbox[a], s.apps[a])
  }

  /** A request being served has left the channel and still blocks its sender. */
  ghost predicate ServiceOk(c: Config, v: nat, svc: Svc, apps: seq<App>) {
    svc.pc.Evicting? || svc.pc.Purging? ==>
      var a := svc.pc.sender;
      && a < |apps| == |svc.inbox| == |svc.prios|
      && c.route(svc.pc.addr) == v
      && apps[a].pc == Waiting(svc.pc.addr, svc.pc.mode, None)
      && svc.inbox[a] == []
      && svc.prios[a] == apps[a].prio
  }

  ghost predicate ServiceInv(c: Config, s: State)
    requires WellFormed(c, s)
  {
    forall v | 0 <= v < c.svcs :: ServiceOk(c, v, s.svcs[v], s.apps)
  }

  /** What is still to be evicted is exactly what stands in the way, and all of it is
      behind the attacker in priority. */
  ghost predicate EvictOk(svc: Svc) {
    && (svc.pc.Evicting? || svc.pc.Purging? ==>
          svc.pc.sender < |svc.prios| &&
          forall d | d in svc.pc.todo :: d < |svc.prios|
              && Before(svc.prios[svc.pc.sender], svc.pc.sender, svc.prios[d], d))
    && (svc.pc.Evicting? ==> Blockers(svc.holds, svc.pc.sender, svc.pc.addr, svc.pc.mode) == svc.pc.todo)
    && (svc.pc.Purging? ==>
          svc.pc.victim < |svc.prios| && svc.pc.victim !in svc.pc.todo &&
          Blockers(svc.holds, svc.pc.sender, svc.pc.addr, svc.pc.mode) == svc.pc.todo + {svc.pc.victim})
    && (svc.pc.PurgingSelf? ==> svc.pc.node < |svc.prios|)
  }

  ghost predicate EvictInv(c: Config, s: State)
    requires WellFormed(c, s)
  {
    forall v | 0 <= v < c.svcs :: EvictOk(s.svcs[v])
  }

  ghost predicate HoldsOk(c: Config, v: nat, holds: set<Hold>) {
    Exclusive(holds) && forall x | x in holds :: c.route(x.addr) == v
  }

  ghost predicate HoldsInv(c: Config, s: State)
    requires WellFormed(c, s)
  {
    forall v | 0 <= v < c.svcs :: HoldsOk(c, v, s.svcs[v].holds)
  }

  ghost predicate AppOk(app: App) {
    && (forall i | 0 <= i < |app.seen| ::
          Lock(app.seen[i].addr, Rd) in app.granted || Lock(app.seen[i].addr, Wr) in app.granted)
    && (app.pc.Persisting? ==>
          app.pc.next <= |app.ws| && forall i | 0 <= i < |app.ws| :: Lock(app.ws[i].addr, Wr) in app.granted)
  }

  ghost predicate AppInv(c: Config, s: State)
    requires WellFormed(c, s)
  {
    forall a | 0 <= a < c.apps :: AppOk(s.apps[a])
  }

  /** The service has the lock on its table, and nothing that would take it away is
      under way: no purge of `a`, no release message of an earlier attempt. */
  ghost predicate Secured(svc: Svc, a: nat, l: Lock) {
    && Hold(a, l.addr, l.mode) in svc.holds
    && a < |svc.inbox|
    && (forall i | 0 <= i < |svc.inbox[a]| :: svc.inbox[a][i].Request?)
    && !(svc.pc.Purging? && svc.pc.victim == a)
    && !(svc.pc.PurgingSelf? && svc.pc.node == a)
  }

  ghost predicate TwoPhaseOk(c: Config, svcs: seq<Svc>, a: nat, app: App, flag: Conflict) {
    Live(app, flag) ==> forall l | HasLock(app, l) :: c.route(l.addr) < |svcs| && Secured(svcs[c.route(l.addr)], a, l)
  }

  /** Two-phase locking, in spite of revocation. */
  ghost predicate TwoPhaseInv(c: Config, s: State)
    requires WellFormed(c, s)
  {
    forall a | 0 <= a < c.apps :: TwoPhaseOk(c, s.svcs, a, s.apps[a], s.flags[a])
  }

  ghost predicate Net(c: Config, s: State) {
    ValidConfig(c) && WellFormed(c, s) && ChannelInv(c, s) && ServiceInv(c, s)
  }

  ghost predicate Base(c: Config, s: State) {
    Net(c, s) && FlagInv(c, s) && EvictInv(c, s) && HoldsInv(c, s) && AppInv(c, s)
  }

  ghost predicate Struct(c: Config, s: State) {
    Base(c, s) && TwoPhaseInv(c, s)
  }

  lemma InitStruct(c: Config, s: State)
    requires ValidConfig(c) && Init(c, s)
    ensures Struct(c, s)
  {
  }

  lemma KeepTxStart(c: Config, s: State, a: nat)
    requires Struct(c, s) && a < c.apps && s.apps[a].pc.Idle?
    ensures Struct(c, DoTxStart(s, a))
  {
  }

  lemma KeepCheckAborted(c: Config, s: State, a: nat)
    requires Struct(c, s) && a < c.apps && s.apps[a].pc.Running?
    ensures Struct(c, DoCheckAborted(s, a))
  {
  }

  lemma KeepSendNet(c: Config, s: State, a: nat, x: int, m: Mode)
    requires Base(c, s) && a < c.apps && s.apps[a].pc.Cleared?
    ensures Net(c, DoSend(c, s, a, x, m))
  {
  }

  lemma KeepSendBase(c: Config, s: State, a: nat, x: int, m: Mode)
    requires Base(c, s) && a < c.apps && s.apps[a].pc.Cleared?
    ensures Base(c, DoSend(c, s, a, x, m))
  {
    KeepSendNet(c, s, a, x, m);
  }

  lemma KeepSend(c: Config, s: State, a: nat, x: int, m: Mode)
    requires Struct(c, s) && a < c.apps && s.apps[a].pc.Cleared?
    ensures Struct(c, DoSend(c, s, a, x, m))
  {
    KeepSendBase(c, s, a, x, m);
  }

  lemma KeepReceiveNet(c: Config, s: State, a: nat)
    requires Base(c, s) && a < c.apps && s.apps[a].pc.Waiting? && s.apps[a].pc.reply.Some?
    ensures Net(c, DoReceive(c, s, a))
  {
  }

  lemma KeepReceiveBase(c: Config, s: State, a: nat)
    requires Base(c, s) && a < c.apps && s.apps[a].pc.Waiting? && s.apps[a].pc.reply.Some?
    ensures Base(c, DoReceive(c, s, a))
  {
    KeepReceiveNet(c, s, a);
  }

  lemma KeepReceive(c: Config, s: State, a: nat)
    requires Struct(c, s) && a < c.apps && s.apps[a].pc.Waiting? && s.apps[a].pc.reply.Some?
    ensures Struct(c, DoReceive(c, s, a))
  {
    KeepReceiveBase(c, s, a);
  }

  lemma KeepRawRead(c: Config, s: State, a: nat, x: int)
    requires Struct(c, s) && AppEnabled(c, s, RawRead(a, x))
    ensures Struct(c, DoRawRead(s, a, x))
  {
  }

  lemma KeepPeek(c: Config, s: State, a: nat, x: int)
    requires Struct(c, s) && AppEnabled(c, s, Peek(a, x))
    ensures Struct(c, DoPeek(s, a, x))
  {
  }

  lemma KeepPlainStore(c: Config, s: State, a: nat, x: int, val: int)
    requires Struct(c, s) && AppEnabled(c, s, PlainStore(a, x, val))
    ensures Struct(c, DoPlainStore(s, a, x, val))
  {
  }

  lemma KeepInsert(c: Config, s: State, a: nat, x: int, val: int)
    requires Struct(c, s) && AppEnabled(c, s, Insert(a, x, val))
    ensures Struct(c, DoInsert(s, a, x, val))
  {
  }

  lemma KeepTryPersistNet(c: Config, s: State, a: nat)
    requires Base(c, s) && AppEnabled(c, s, TryPersist(a))
    ensures Net(c, DoTryPersist(s, a))
  {
    KeepTryPersistChannel(c, s, a);
  }

  lemma KeepTryPersistChannel(c: Config, s: State, a: nat)
    requires Base(c, s) && AppEnabled(c, s, TryPersist(a))
    ensures WellFormed(c, DoTryPersist(s, a)) && ChannelInv(c, DoTryPersist(s, a))
  {
  }

  lemma KeepTryPersistBase(c: Config, s: State, a: nat)
    requires Base(c, s) && AppEnabled(c, s, TryPersist(a))
    ensures Base(c, DoTryPersist(s, a))
  {
    KeepTryPersistNet(c, s, a);
  }

  lemma KeepTryPersist(c: Config, s: State, a: nat)
    requires Struct(c, s) && AppEnabled(c, s, TryPersist(a))
    ensures Struct(c, DoTryPersist(s, a))
  {
    KeepTryPersistBase(c, s, a);
  }

  lemma KeepPersistEntry(c: Config, s: State, a: nat)
    requires Struct(c, s) && AppEnabled(c, s, PersistEntry(a))
    ensures Struct(c, DoPersistEntry(s, a))
  {
  }

  lemma KeepPublish(c: Config, s: State, a: nat)
    requires Struct(c, s) && AppEnabled(c, s, Publish(a))
    ensures Struct(c, DoPublish(s, a))
  {
  }

  lemma KeepSendReleaseNet(c: Config, s: State, a: nat)
    requires Base(c, s) && a < c.apps && s.apps[a].pc.Releasing? && s.apps[a].pc.next < c.svcs
    ensures Net(c, DoSendRelease(s, a))
  {
  }

  lemma KeepSendReleaseBase(c: Config, s: State, a: nat)
    requires Base(c, s) && a < c.apps && s.apps[a].pc.Releasing? && s.apps[a].pc.next < c.svcs
    ensures Base(c, DoSendRelease(s, a))
  {
    KeepSendReleaseNet(c, s, a);
  }

  lemma KeepSendRelease(c: Config, s: State, a: nat)
    requires Struct(c, s) && a < c.apps && s.apps[a].pc.Releasing? && s.apps[a].pc.next < c.svcs
    ensures Struct(c, DoSendRelease(s, a))
  {
    KeepSendReleaseBase(c, s, a);
  }

  lemma KeepPassByNet(c: Config, s: State, a: nat)
    requires Base(c, s) && a < c.apps && s.apps[a].pc.Releasing? && s.apps[a].pc.next < c.svcs
    ensures Net(c, DoPassBy(s, a))
  {
  }

  lemma KeepPassByBase(c: Config, s: State, a: nat)
    requires Base(c, s) && a < c.apps && s.apps[a].pc.Releasing? && s.apps[a].pc.next < c.svcs
    ensures Base(c, DoPassBy(s, a))
  {
    KeepPassByNet(c, s, a);
  }

  lemma KeepPassBy(c: Config, s: State, a: nat)
    requires Struct(c, s) && a < c.apps && s.apps[a].pc.Releasing? && s.apps[a].pc.next < c.svcs
             && s.apps[a].contacted[s.apps[a].pc.next] == 0
    ensures Struct(c, DoPassBy(s, a))
  {
    KeepPassByBase(c, s, a);
  }

  lemma KeepFinish(c: Config, s: State, a: nat, p: nat)
    requires Struct(c, s) && AppEnabled(c, s, Finish(a, p))
    ensures Struct(c, DoFinish(s, a, p))
  {
  }

  lemma KeepRemoveNodeBase(c: Config, s: State, v: nat, a: nat)
    requires Base(c, s) && SvcEnabled(c, s, Serve(v, a)) && s.svcs[v].inbox[a][0].RemoveNode?
    ensures Base(c, DoRemoveNode(s, v, a))
  {
  }

  lemma KeepRemoveNode(c: Config, s: State, v: nat, a: nat)
    requires Struct(c, s) && SvcEnabled(c, s, Serve(v, a)) && s.svcs[v].inbox[a][0].RemoveNode?
    ensures Struct(c, DoRemoveNode(s, v, a))
  {
    KeepRemoveNodeBase(c, s, v, a);
  }

  lemma KeepEvictBase(c: Config, s: State, v: nat, a: nat)
    requires Base(c, s) && SvcEnabled(c, s, Serve(v, a)) && s.svcs[v].inbox[a][0].Request? && Admitted(s, v, a)
    ensures Base(c, DoEvict(s, v, a))
  {
    assert ChannelOk(c, v, s.svcs[v].inbox[a], s.apps[a]);
    assert s.svcs[v].inbox[a][1..] == [];
  }

  lemma KeepEvict(c: Config, s: State, v: nat, a: nat)
    requires Struct(c, s) && SvcEnabled(c, s, Serve(v, a)) && s.svcs[v].inbox[a][0].Request? && Admitted(s, v, a)
    ensures Struct(c, DoEvict(s, v, a))
  {
    KeepEvictBase(c, s, v, a);
  }

  lemma KeepRefuseNet(c: Config, s: State, v: nat, a: nat)
    requires Base(c, s) && SvcEnabled(c, s, Serve(v, a)) && s.svcs[v].inbox[a][0].Request?
    ensures Net(c, DoRefuse(s, v, a))
  {
  }

  lemma KeepRefuseBase(c: Config, s: State, v: nat, a: nat)
    requires Base(c, s) && SvcEnabled(c, s, Serve(v, a)) && s.svcs[v].inbox[a][0].Request?
    ensures Base(c, DoRefuse(s, v, a))
  {
    KeepRefuseNet(c, s, v, a);
  }

  lemma KeepRefuse(c: Config, s: State, v: nat, a: nat)
    requires Struct(c, s) && SvcEnabled(c, s, Serve(v, a)) && s.svcs[v].inbox[a][0].Request?
    ensures Struct(c, DoRefuse(s, v, a))
  {
    KeepRefuseBase(c, s, v, a);
  }

  lemma KeepAbortNodeNet(c: Config, s: State, v: nat, d: nat)
    requires Base(c, s) && SvcEnabled(c, s, AbortNode(v, d))
    ensures Net(c, DoAbortNode(s, v, d))
  {
  }

  lemma KeepAbortNodeBase(c: Config, s: State, v: nat, d: nat)
    requires Base(c, s) && SvcEnabled(c, s, AbortNode(v, d))
    ensures Base(c, DoAbortNode(s, v, d))
  {
    KeepAbortNodeNet(c, s, v, d);
  }

  lemma KeepAbortNode(c: Config, s: State, v: nat, d: nat)
    requires Struct(c, s) && SvcEnabled(c, s, AbortNode(v, d))
    ensures Struct(c, DoAbortNode(s, v, d))
  {
    KeepAbortNodeBase(c, s, v, d);
  }

  lemma KeepDeleteNodeBase(c: Config, s: State, v: nat)
    requires Base(c, s) && v < c.svcs && s.svcs[v].pc.Purging?
    ensures Base(c, DoDeleteNode(s, v))
  {
    BlockersAfterPurge(s.svcs[v].holds, s.svcs[v].pc.victim, s.svcs[v].pc.sender, s.svcs[v].pc.addr, s.svcs[v].pc.mode);
  }

  lemma KeepDeleteNode(c: Config, s: State, v: nat)
    requires Struct(c, s) && v < c.svcs && s.svcs[v].pc.Purging?
    ensures Struct(c, DoDeleteNode(s, v))
  {
    KeepDeleteNodeBase(c, s, v);
  }

  lemma KeepGrantNet(c: Config, s: State, v: nat)
    requires Base(c, s) && SvcEnabled(c, s, Grant(v))
    ensures Net(c, DoGrant(s, v))
  {
  }

  lemma KeepGrantBase(c: Config, s: State, v: nat)
    requires Base(c, s) && SvcEnabled(c, s, Grant(v))
    ensures Base(c, DoGrant(s, v))
  {
    KeepGrantNet(c, s, v);
    UnblockedIsExclusive(s.svcs[v].holds, s.svcs[v].pc.sender, s.svcs[v].pc.addr, s.svcs[v].pc.mode);
  }

  lemma KeepGrant(c: Config, s: State, v: nat)
    requires Struct(c, s) && SvcEnabled(c, s, Grant(v))
    ensures Struct(c, DoGrant(s, v))
  {
    KeepGrantBase(c, s, v);
  }

  lemma KeepDeleteSelf(c: Config, s: State, v: nat)
    requires Struct(c, s) && v < c.svcs && s.svcs[v].pc.PurgingSelf?
    ensures Struct(c, DoDeleteSelf(s, v))
  {
  }
}
