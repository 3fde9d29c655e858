/** What services remember of applications, and what applications still owe to services:
    priorities, pending requests and locks to be released. */
module Accounting {
  import opened Locks
  import opened Protocol
  import opened Invariant

  predicate InTx(pc: AppPc) { pc.Running? || pc.Cleared? || pc.Waiting? || pc.Persisting? }

  /** No service or message knows more of an application's priority than itself. */
  ghost predicate PrioOk(prio: nat, q: seq<Msg>, app: App) {
    prio <= app.prio && forall i | 0 <= i < |q| :: q[i].prio <= app.prio
  }

  ghost predicate PrioInv(c: Config, s: State)
    requires WellFormed(c, s)
  {
    forall v, a | 0 <= v < c.svcs && 0 <= a < c.apps :: PrioOk(s.svcs[v].prios[a], s.svcs[v].inbox[a], s.apps[a])
  }

  /** A blocked application's request is being served or is the last message in its channel. */
  ghost predicate AwaitOk(c: Config, svcs: seq<Svc>, a: nat, app: App) {
    app.pc.Waiting? && app.pc.reply == None ==>
      var v := c.route(app.pc.addr);
      v < |svcs| && a < |svcs[v].inbox| &&
      (ServesFor(svcs[v].pc, a, app.pc.addr, app.pc.mode) ||
       (svcs[v].inbox[a] != [] &&
        svcs[v].inbox[a][|svcs[v].inbox[a]| - 1] == Request(app.pc.addr, app.pc.mode, app.prio)))
  }

  ghost predicate AwaitInv(c: Config, s: State)
    requires WellFormed(c, s)
  {
    forall a | 0 <= a < c.apps :: AwaitOk(c, s.svcs, a, s.apps[a])
  }

  /** nodes_contacted counts in 16 bits; it is zero again for every service the release
      loop has passed, and a blocked application has counted its request. */
  ghost predicate CountOk(c: Config, app: App)
    requires |app.contacted| == |app.sent| == c.svcs && ValidConfig(c)
  {
    && (forall v | 0 <= v < c.svcs :: app.contacted[v] == app.sent[v] % CONTACT_LIMIT)
    && (app.pc.Waiting? ==> app.sent[c.route(app.pc.addr)] > 0)
    && (app.pc.Idle? ==> forall v | 0 <= v < c.svcs :: app.sent[v] == 0)
    && (app.pc.Releasing? ==> forall v | 0 <= v < c.svcs && v < app.pc.next :: app.sent[v] == 0)
  }

  ghost predicate CountInv(c: Config, s: State)
    requires WellFormed(c, s) && ValidConfig(c)
  {
    forall a | 0 <= a < c.apps :: CountOk(c, s.apps[a])
  }

  predicate ReleaseUnderway(q: seq<Msg>) { exists m | m in q :: m.RemoveNode? }

  /** The current attempt of `app` will tell service `v` when it is over. */
  predicate WillRelease(c: Config, v: nat, app: App)
    requires v < |app.sent|
  {
    && app.sent[v] > 0
    && ((InTx(app.pc) && !(Refused(app.pc) && c.route(app.pc.addr) == v)) || (app.pc.Releasing? && app.pc.next <= v))
  }

  /** Nothing of `a` at the service outlives the next steps. */
  predicate GoingAway(svc: Svc, a: nat)
    requires a < |svc.inbox|
  {
    ReleaseUnderway(svc.inbox[a]) || (svc.pc.PurgingSelf? && svc.pc.node == a)
  }

  /** Why a lock of `app` may still be on the table of service `v`: its release is on its way,
      or it belongs to the current attempt, which will release it. */
  predicate Explained(c: Config, v: nat, svc: Svc, x: Hold, app: App)
    requires v < |app.sent| && x.node < |svc.inbox| == |svc.prios|
  {
    || GoingAway(svc, x.node)
    || (WillRelease(c, v, app) && svc.prios[x.node] == app.prio && HasLock(app, Lock(x.addr, x.mode)))
  }

  /** Locks that were not left behind are explained, and recorded with the priority they were
      acquired under. */
  ghost predicate LeakOk(c: Config, v: nat, svc: Svc, a: nat, app: App, skipped: set<(nat, nat)>, under: map<Hold, nat>)
    requires v < |app.sent| && a < |svc.inbox| == |svc.prios|
  {
    forall x | x in svc.holds && x.node == a ::
      if x in under then svc.prios[a] == under[x] && Explained(c, v, svc, x, app)
      else (a, v) in skipped || GoingAway(svc, a)
  }

  ghost predicate LeakInv(c: Config, s: State)
    requires WellFormed(c, s)
  {
    forall v, a | 0 <= v < c.svcs && 0 <= a < c.apps :: LeakOk(c, v, s.svcs[v], a, s.apps[a], s.skipped, s.under)
  }

  ghost predicate AccInv(c: Config, s: State)
    requires WellFormed(c, s) && ValidConfig(c)
  {
    PrioInv(c, s) && AwaitInv(c, s) && CountInv(c, s) && LeakInv(c, s)
  }

  lemma KeepTxStart(c: Config, s: State, a: nat)
    requires Struct(c, s) && AccInv(c, s) && a < c.apps && s.apps[a].pc.Idle?
    requires Struct(c, DoTxStart(s, a))
    ensures AccInv(c, DoTxStart(s, a))
  {
  }

  lemma KeepCheckAbortedLeak(c: Config, s: State, a: nat)
    requires Struct(c, s) && AccInv(c, s) && a < c.apps && s.apps[a].pc.Running?
    requires Struct(c, DoCheckAborted(s, a))
    ensures LeakInv(c, DoCheckAborted(s, a))
  {
  }

  lemma KeepCheckAborted(c: Config, s: State, a: nat)
    requires Struct(c, s) && AccInv(c, s) && a < c.apps && s.apps[a].pc.Running?
    requires Struct(c, DoCheckAborted(s, a))
    ensures AccInv(c, DoCheckAborted(s, a))
  {
    KeepCheckAbortedLeak(c, s, a);
  }

  lemma KeepSendPrio(c: Config, s: State, a: nat, x: int, m: Mode)
    requires Struct(c, s) && AccInv(c, s) && a < c.apps && s.apps[a].pc.Cleared?
    requires Struct(c, DoSend(c, s, a, x, m))
    ensures PrioInv(c, DoSend(c, s, a, x, m))
  {
  }

  lemma KeepSendAwait(c: Config, s: State, a: nat, x: int, m: Mode)
    requires Struct(c, s) && AccInv(c, s) && a < c.apps && s.apps[a].pc.Cleared?
    requires Struct(c, DoSend(c, s, a, x, m))
    ensures AwaitInv(c, DoSend(c, s, a, x, m))
  {
  }

  lemma KeepSendLeak(c: Config, s: State, a: nat, x: int, m: Mode)
    requires Struct(c, s) && AccInv(c, s) && a < c.apps && s.apps[a].pc.Cleared?
    requires Struct(c, DoSend(c, s, a, x, m))
    ensures LeakInv(c, DoSend(c, s, a, x, m))
  {
  }

  lemma KeepSend(c: Config, s: State, a: nat, x: int, m: Mode)
    requires Struct(c, s) && AccInv(c, s) && a < c.apps && s.apps[a].pc.Cleared?
    requires Struct(c, DoSend(c, s, a, x, m))
    ensures AccInv(c, DoSend(c, s, a, x, m))
  {
    KeepSendPrio(c, s, a, x, m);
    KeepSendAwait(c, s, a, x, m);
    KeepSendLeak(c, s, a, x, m);
  }

  lemma KeepReceivePrio(c: Config, s: State, a: nat)
    requires Struct(c, s) && AccInv(c, s) && a < c.apps && s.apps[a].pc.Waiting? && s.apps[a].pc.reply.Some?
    requires Struct(c, DoReceive(c, s, a))
    ensures PrioInv(c, DoReceive(c, s, a))
  {
  }

  lemma KeepReceiveAwait(c: Config, s: State, a: nat)
    requires Struct(c, s) && AccInv(c, s) && a < c.apps && s.apps[a].pc.Waiting? && s.apps[a].pc.reply.Some?
    requires Struct(c, DoReceive(c, s, a))
    ensures AwaitInv(c, DoReceive(c, s, a))
  {
  }

  lemma KeepReceiveLeakAt(c: Config, s: State, a: nat, w: nat, b: nat)
    requires Struct(c, s) && AccInv(c, s) && a < c.apps && s.apps[a].pc.Waiting? && s.apps[a].pc.reply.Some?
    requires Struct(c, DoReceive(c, s, a))
    requires w < c.svcs && b < c.apps
    ensures var s' := DoReceive(c, s, a);
            LeakOk(c, w, s'.svcs[w], b, s'.apps[b], s'.skipped, s'.under)
  {
    assert LeakOk(c, w, s.svcs[w], b, s.apps[b], s.skipped, s.under);
  }

  lemma KeepReceiveLeak(c: Config, s: State, a: nat)
    requires Struct(c, s) && AccInv(c, s) && a < c.apps && s.apps[a].pc.Waiting? && s.apps[a].pc.reply.Some?
    requires Struct(c, DoReceive(c, s, a))
    ensures LeakInv(c, DoReceive(c, s, a))
  {
    forall w, b | 0 <= w < c.svcs && 0 <= b < c.apps
      ensures var s' := DoReceive(c, s, a);
              LeakOk(c, w, s'.svcs[w], b, s'.apps[b], s'.skipped, s'.under)
    {
      KeepReceiveLeakAt(c, s, a, w, b);
    }
  }

  lemma KeepReceiveCount(c: Config, s: State, a: nat)
    requires Struct(c, s) && AccInv(c, s) && a < c.apps && s.apps[a].pc.Waiting? && s.apps[a].pc.reply.Some?
    requires Struct(c, DoReceive(c, s, a))
    ensures CountInv(c, DoReceive(c, s, a))
  {
  }

  lemma KeepReceive(c: Config, s: State, a: nat)
    requires Struct(c, s) && AccInv(c, s) && a < c.apps && s.apps[a].pc.Waiting? && s.apps[a].pc.reply.Some?
    requires Struct(c, DoReceive(c, s, a))
    ensures AccInv(c, DoReceive(c, s, a))
  {
    KeepReceiveCount(c, s, a);
    KeepReceivePrio(c, s, a);
    KeepReceiveAwait(c, s, a);
    KeepReceiveLeak(c, s, a);
  }

  lemma KeepRawReadLeak(c: Config, s: State, a: nat, x: int)
    requires Struct(c, s) && AccInv(c, s) && AppEnabled(c, s, RawRead(a, x))
    requires Struct(c, DoRawRead(s, a, x))
    ensures LeakInv(c, DoRawRead(s, a, x))
  {
  }

  lemma KeepRawRead(c: Config, s: State, a: nat, x: int)
    requires Struct(c, s) && AccInv(c, s) && AppEnabled(c, s, RawRead(a, x))
    requires Struct(c, DoRawRead(s, a, x))
    ensures AccInv(c, DoRawRead(s, a, x))
  {
    KeepRawReadLeak(c, s, a, x);
  }

  lemma KeepPeekPrio(c: Config, s: State, a: nat, x: int)
    requires Struct(c, s) && AccInv(c, s) && AppEnabled(c, s, Peek(a, x))
    requires Struct(c, DoPeek(s, a, x))
    ensures PrioInv(c, DoPeek(s, a, x))
  {
  }

  lemma KeepPeekAwait(c: Config, s: State, a: nat, x: int)
    requires Struct(c, s) && AccInv(c, s) && AppEnabled(c, s, Peek(a, x))
    requires Struct(c, DoPeek(s, a, x))
    ensures AwaitInv(c, DoPeek(s, a, x))
  {
  }

  lemma KeepPeekLeak(c: Config, s: State, a: nat, x: int)
    requires Struct(c, s) && AccInv(c, s) && AppEnabled(c, s, Peek(a, x))
    requires Struct(c, DoPeek(s, a, x))
    ensures LeakInv(c, DoPeek(s, a, x))
  {
  }

  lemma KeepPeek(c: Config, s: State, a: nat, x: int)
    requires Struct(c, s) && AccInv(c, s) && AppEnabled(c, s, Peek(a, x))
    requires Struct(c, DoPeek(s, a, x))
    ensures AccInv(c, DoPeek(s, a, x))
  {
    KeepPeekPrio(c, s, a, x);
    KeepPeekAwait(c, s, a, x);
    KeepPeekLeak(c, s, a, x);
  }

  lemma KeepPlainStore(c: Config, s: State, a: nat, x: int, val: int)
    requires Struct(c, s) && AccInv(c, s) && AppEnabled(c, s, PlainStore(a, x, val))
    requires Struct(c, DoPlainStore(s, a, x, val))
    ensures AccInv(c, DoPlainStore(s, a, x, val))
  {
  }

  lemma KeepInsertLeak(c: Config, s: State, a: nat, x: int, val: int)
    requires Struct(c, s) && AccInv(c, s) && AppEnabled(c, s, Insert(a, x, val))
    requires Struct(c, DoInsert(s, a, x, val))
    ensures LeakInv(c, DoInsert(s, a, x, val))
  {
  }

  lemma KeepInsert(c: Config, s: State, a: nat, x: int, val: int)
    requires Struct(c, s) && AccInv(c, s) && AppEnabled(c, s, Insert(a, x, val))
    requires Struct(c, DoInsert(s, a, x, val))
    ensures AccInv(c, DoInsert(s, a, x, val))
  {
    KeepInsertLeak(c, s, a, x, val);
  }

  lemma KeepTryPersistLeakAt(c: Config, s: State, a: nat, w: nat, b: nat)
    requires Struct(c, s) && AccInv(c, s) && AppEnabled(c, s, TryPersist(a))
    requires Struct(c, DoTryPersist(s, a))
    requires w < c.svcs && b < c.apps
    ensures var s' := DoTryPersist(s, a);
            LeakOk(c, w, s'.svcs[w], b, s'.apps[b], s'.skipped, s'.under)
  {
    assert LeakOk(c, w, s.svcs[w], b, s.apps[b], s.skipped, s.under);
  }

  lemma KeepTryPersistLeak(c: Config, s: State, a: nat)
    requires Struct(c, s) && AccInv(c, s) && AppEnabled(c, s, TryPersist(a))
    requires Struct(c, DoTryPersist(s, a))
    ensures LeakInv(c, DoTryPersist(s, a))
  {
    forall w, b | 0 <= w < c.svcs && 0 <= b < c.apps
      ensures var s' := DoTryPersist(s, a);
              LeakOk(c, w, s'.svcs[w], b, s'.apps[b], s'.skipped, s'.under)
    {
      KeepTryPersistLeakAt(c, s, a, w, b);
    }
  }

  lemma KeepTryPersistPrio(c: Config, s: State, a: nat)
    requires Struct(c, s) && AccInv(c, s) && AppEnabled(c, s, TryPersist(a))
    requires Struct(c, DoTryPersist(s, a))
    ensures PrioInv(c, DoTryPersist(s, a))
  {
  }

  lemma KeepTryPersistAwait(c: Config, s: State, a: nat)
    requires Struct(c, s) && AccInv(c, s) && AppEnabled(c, s, TryPersist(a))
    requires Struct(c, DoTryPersist(s, a))
    ensures AwaitInv(c, DoTryPersist(s, a))
  {
  }

  lemma KeepTryPersist(c: Config, s: State, a: nat)
    requires Struct(c, s) && AccInv(c, s) && AppEnabled(c, s, TryPersist(a))
    requires Struct(c, DoTryPersist(s, a))
    ensures AccInv(c, DoTryPersist(s, a))
  {
    KeepTryPersistPrio(c, s, a);
    KeepTryPersistAwait(c, s, a);
    KeepTryPersistLeak(c, s, a);
  }

  lemma KeepPersistEntryLeak(c: Config, s: State, a: nat)
    requires Struct(c, s) && AccInv(c, s) && AppEnabled(c, s, PersistEntry(a))
    requires Struct(c, DoPersistEntry(s, a))
    ensures LeakInv(c, DoPersistEntry(s, a))
  {
  }

  lemma KeepPersistEntry(c: Config, s: State, a: nat)
    requires Struct(c, s) && AccInv(c, s) && AppEnabled(c, s, PersistEntry(a))
    requires Struct(c, DoPersistEntry(s, a))
    ensures AccInv(c, DoPersistEntry(s, a))
  {
    KeepPersistEntryLeak(c, s, a);
  }

  lemma KeepPublishLeak(c: Config, s: State, a: nat)
    requires Struct(c, s) && AccInv(c, s) && AppEnabled(c, s, Publish(a))
    requires Struct(c, DoPublish(s, a))
    ensures LeakInv(c, DoPublish(s, a))
  {
  }

  lemma KeepPublish(c: Config, s: State, a: nat)
    requires Struct(c, s) && AccInv(c, s) && AppEnabled(c, s, Publish(a))
    requires Struct(c, DoPublish(s, a))
    ensures AccInv(c, DoPublish(s, a))
  {
    KeepPublishLeak(c, s, a);
  }

  lemma KeepSendReleasePrio(c: Config, s: State, a: nat)
    requires Struct(c, s) && AccInv(c, s) && a < c.apps && s.apps[a].pc.Releasing? && s.apps[a].pc.next < c.svcs
    requires Struct(c, DoSendRelease(s, a))
    ensures PrioInv(c, DoSendRelease(s, a))
  {
  }

  lemma KeepSendReleaseAwait(c: Config, s: State, a: nat)
    requires Struct(c, s) && AccInv(c, s) && a < c.apps && s.apps[a].pc.Releasing? && s.apps[a].pc.next < c.svcs
    requires Struct(c, DoSendRelease(s, a))
    ensures AwaitInv(c, DoSendRelease(s, a))
  {
  }

  lemma KeepSendReleaseLeakAt(c: Config, s: State, a: nat, w: nat, b: nat)
    requires Struct(c, s) && AccInv(c, s) && a < c.apps && s.apps[a].pc.Releasing? && s.apps[a].pc.next < c.svcs
    requires Struct(c, DoSendRelease(s, a))
    requires w < c.svcs && b < c.apps
    ensures var s' := DoSendRelease(s, a);
            LeakOk(c, w, s'.svcs[w], b, s'.apps[b], s'.skipped, s'.under)
  {
    assert LeakOk(c, w, s.svcs[w], b, s.apps[b], s.skipped, s.under);
    var q := s.svcs[s.apps[a].pc.next].inbox[a];
    assert RemoveNode(s.apps[a].prio) in q + [RemoveNode(s.apps[a].prio)];
  }

  lemma KeepSendReleaseLeak(c: Config, s: State, a: nat)
    requires Struct(c, s) && AccInv(c, s) && a < c.apps && s.apps[a].pc.Releasing? && s.apps[a].pc.next < c.svcs
    requires Struct(c, DoSendRelease(s, a))
    ensures LeakInv(c, DoSendRelease(s, a))
  {
    forall w, b | 0 <= w < c.svcs && 0 <= b < c.apps
      ensures var s' := DoSendRelease(s, a);
              LeakOk(c, w, s'.svcs[w], b, s'.apps[b], s'.skipped, s'.under)
    {
      KeepSendReleaseLeakAt(c, s, a, w, b);
    }
  }

  lemma KeepSendRelease(c: Config, s: State, a: nat)
    requires Struct(c, s) && AccInv(c, s) && a < c.apps && s.apps[a].pc.Releasing? && s.apps[a].pc.next < c.svcs
    requires Struct(c, DoSendRelease(s, a))
    ensures AccInv(c, DoSendRelease(s, a))
  {
    KeepSendReleasePrio(c, s, a);
    KeepSendReleaseAwait(c, s, a);
    KeepSendReleaseLeak(c, s, a);
  }

  lemma KeepPassByLeakAt(c: Config, s: State, a: nat, w: nat, b: nat)
    requires Struct(c, s) && AccInv(c, s) && a < c.apps && s.apps[a].pc.Releasing? && s.apps[a].pc.next < c.svcs
             && s.apps[a].contacted[s.apps[a].pc.next] == 0
    requires Struct(c, DoPassBy(s, a))
    requires w < c.svcs && b < c.apps
    ensures var s' := DoPassBy(s, a);
            LeakOk(c, w, s'.svcs[w], b, s'.apps[b], s'.skipped, s'.under)
  {
    assert LeakOk(c, w, s.svcs[w], b, s.apps[b], s.skipped, s.under);
  }

  lemma KeepPassByLeak(c: Config, s: State, a: nat)
    requires Struct(c, s) && AccInv(c, s) && a < c.apps && s.apps[a].pc.Releasing? && s.apps[a].pc.next < c.svcs
             && s.apps[a].contacted[s.apps[a].pc.next] == 0
    requires Struct(c, DoPassBy(s, a))
    ensures LeakInv(c, DoPassBy(s, a))
  {
    forall w, b | 0 <= w < c.svcs && 0 <= b < c.apps
      ensures var s' := DoPassBy(s, a);
              LeakOk(c, w, s'.svcs[w], b, s'.apps[b], s'.skipped, s'.under)
    {
      KeepPassByLeakAt(c, s, a, w, b);
    }
  }

  lemma KeepPassByPrio(c: Config, s: State, a: nat)
    requires Struct(c, s) && AccInv(c, s) && a < c.apps && s.apps[a].pc.Releasing? && s.apps[a].pc.next < c.svcs
             && s.apps[a].contacted[s.apps[a].pc.next] == 0
    requires Struct(c, DoPassBy(s, a))
    ensures PrioInv(c, DoPassBy(s, a))
  {
  }

  lemma KeepPassByAwait(c: Config, s: State, a: nat)
    requires Struct(c, s) && AccInv(c, s) && a < c.apps && s.apps[a].pc.Releasing? && s.apps[a].pc.next < c.svcs
             && s.apps[a].contacted[s.apps[a].pc.next] == 0
    requires Struct(c, DoPassBy(s, a))
    ensures AwaitInv(c, DoPassBy(s, a))
  {
  }

  lemma KeepPassByCount(c: Config, s: State, a: nat)
    requires Struct(c, s) && AccInv(c, s) && a < c.apps && s.apps[a].pc.Releasing? && s.apps[a].pc.next < c.svcs
             && s.apps[a].contacted[s.apps[a].pc.next] == 0
    requires Struct(c, DoPassBy(s, a))
    ensures CountInv(c, DoPassBy(s, a))
  {
    forall b | 0 <= b < c.apps ensures CountOk(c, DoPassBy(s, a).apps[b]) {
      assert CountOk(c, s.apps[b]);
      if b == a {
        PassedByCounts(c, s.apps[a], DoPassBy(s, a).apps[a]);
      }
    }
  }

  lemma PassedByCounts(c: Config, app: App, app': App)
    requires ValidConfig(c) && |app.contacted| == |app.sent| == c.svcs && CountOk(c, app)
    requires app.pc.Releasing? && app.pc.next < c.svcs && app.contacted[app.pc.next] == 0
    requires app' == app.(pc := Releasing(app.pc.next + 1, app.pc.committed), sent := app.sent[app.pc.next := 0])
    ensures CountOk(c, app')
  {
  }

  lemma KeepPassBy(c: Config, s: State, a: nat)
    requires Struct(c, s) && AccInv(c, s) && a < c.apps && s.apps[a].pc.Releasing? && s.apps[a].pc.next < c.svcs
             && s.apps[a].contacted[s.apps[a].pc.next] == 0
    requires Struct(c, DoPassBy(s, a))
    ensures AccInv(c, DoPassBy(s, a))
  {
    KeepPassByPrio(c, s, a);
    KeepPassByAwait(c, s, a);
    KeepPassByCount(c, s, a);
    KeepPassByLeak(c, s, a);
  }

  lemma KeepFinish(c: Config, s: State, a: nat, p: nat)
    requires Struct(c, s) && AccInv(c, s) && AppEnabled(c, s, Finish(a, p))
    requires Struct(c, DoFinish(s, a, p))
    ensures AccInv(c, DoFinish(s, a, p))
  {
  }

  lemma KeepRemoveNodeLeak(c: Config, s: State, v: nat, a: nat)
    requires Struct(c, s) && AccInv(c, s) && SvcEnabled(c, s, Serve(v, a)) && s.svcs[v].inbox[a][0].RemoveNode?
    requires Struct(c, DoRemoveNode(s, v, a))
    ensures LeakInv(c, DoRemoveNode(s, v, a))
  {
  }

  lemma KeepRemoveNodeAwait(c: Config, s: State, v: nat, a: nat)
    requires Struct(c, s) && AccInv(c, s) && SvcEnabled(c, s, Serve(v, a)) && s.svcs[v].inbox[a][0].RemoveNode?
    requires Struct(c, DoRemoveNode(s, v, a))
    ensures AwaitInv(c, DoRemoveNode(s, v, a))
  {
  }

  lemma KeepRemoveNode(c: Config, s: State, v: nat, a: nat)
    requires Struct(c, s) && AccInv(c, s) && SvcEnabled(c, s, Serve(v, a)) && s.svcs[v].inbox[a][0].RemoveNode?
    requires Struct(c, DoRemoveNode(s, v, a))
    ensures AccInv(c, DoRemoveNode(s, v, a))
  {
    KeepRemoveNodeAwait(c, s, v, a);
    KeepRemoveNodeLeak(c, s, v, a);
  }

  lemma KeepEvictPrio(c: Config, s: State, v: nat, a: nat)
    requires Struct(c, s) && AccInv(c, s) && SvcEnabled(c, s, Serve(v, a)) && s.svcs[v].inbox[a][0].Request?
             && Admitted(s, v, a)
    requires Struct(c, DoEvict(s, v, a))
    ensures PrioInv(c, DoEvict(s, v, a))
  {
  }

  lemma KeepEvictAwait(c: Config, s: State, v: nat, a: nat)
    requires Struct(c, s) && AccInv(c, s) && SvcEnabled(c, s, Serve(v, a)) && s.svcs[v].inbox[a][0].Request?
             && Admitted(s, v, a)
    requires Struct(c, DoEvict(s, v, a))
    ensures AwaitInv(c, DoEvict(s, v, a))
  {
  }

  lemma KeepEvictLeak(c: Config, s: State, v: nat, a: nat)
    requires Struct(c, s) && AccInv(c, s) && SvcEnabled(c, s, Serve(v, a)) && s.svcs[v].inbox[a][0].Request?
             && Admitted(s, v, a)
    requires Struct(c, DoEvict(s, v, a))
    ensures LeakInv(c, DoEvict(s, v, a))
  {
  }

  lemma KeepEvict(c: Config, s: State, v: nat, a: nat)
    requires Struct(c, s) && AccInv(c, s) && SvcEnabled(c, s, Serve(v, a)) && s.svcs[v].inbox[a][0].Request?
             && Admitted(s, v, a)
    requires Struct(c, DoEvict(s, v, a))
    ensures AccInv(c, DoEvict(s, v, a))
  {
    KeepEvictPrio(c, s, v, a);
    KeepEvictAwait(c, s, v, a);
    KeepEvictLeak(c, s, v, a);
  }

  lemma KeepRefusePrio(c: Config, s: State, v: nat, a: nat)
    requires Struct(c, s) && AccInv(c, s) && SvcEnabled(c, s, Serve(v, a)) && s.svcs[v].inbox[a][0].Request?
    requires Struct(c, DoRefuse(s, v, a))
    ensures PrioInv(c, DoRefuse(s, v, a))
  {
  }

  lemma KeepRefuseAwait(c: Config, s: State, v: nat, a: nat)
    requires Struct(c, s) && AccInv(c, s) && SvcEnabled(c, s, Serve(v, a)) && s.svcs[v].inbox[a][0].Request?
    requires Struct(c, DoRefuse(s, v, a))
    ensures AwaitInv(c, DoRefuse(s, v, a))
  {
  }

  lemma KeepRefuseLeakAt(c: Config, s: State, v: nat, a: nat, w: nat, b: nat)
    requires Struct(c, s) && AccInv(c, s) && SvcEnabled(c, s, Serve(v, a)) && s.svcs[v].inbox[a][0].Request?
    requires Struct(c, DoRefuse(s, v, a))
    requires w < c.svcs && b < c.apps
    ensures var s' := DoRefuse(s, v, a);
            LeakOk(c, w, s'.svcs[w], b, s'.apps[b], s'.skipped, s'.under)
  {
    assert LeakOk(c, w, s.svcs[w], b, s.apps[b], s.skipped, s.under);
  }

  lemma KeepRefuseLeak(c: Config, s: State, v: nat, a: nat)
    requires Struct(c, s) && AccInv(c, s) && SvcEnabled(c, s, Serve(v, a)) && s.svcs[v].inbox[a][0].Request?
    requires Struct(c, DoRefuse(s, v, a))
    ensures LeakInv(c, DoRefuse(s, v, a))
  {
    forall w, b | 0 <= w < c.svcs && 0 <= b < c.apps
      ensures var s' := DoRefuse(s, v, a);
              LeakOk(c, w, s'.svcs[w], b, s'.apps[b], s'.skipped, s'.under)
    {
      KeepRefuseLeakAt(c, s, v, a, w, b);
    }
  }

  lemma KeepRefuse(c: Config, s: State, v: nat, a: nat)
    requires Struct(c, s) && AccInv(c, s) && SvcEnabled(c, s, Serve(v, a)) && s.svcs[v].inbox[a][0].Request?
    requires Struct(c, DoRefuse(s, v, a))
    ensures AccInv(c, DoRefuse(s, v, a))
  {
    KeepRefusePrio(c, s, v, a);
    KeepRefuseAwait(c, s, v, a);
    KeepRefuseLeak(c, s, v, a);
  }

  lemma KeepAbortNodeLeak(c: Config, s: State, v: nat, d: nat)
    requires Struct(c, s) && AccInv(c, s) && SvcEnabled(c, s, AbortNode(v, d))
    requires Struct(c, DoAbortNode(s, v, d))
    ensures LeakInv(c, DoAbortNode(s, v, d))
  {
  }

  lemma KeepAbortNodeAwait(c: Config, s: State, v: nat, d: nat)
    requires Struct(c, s) && AccInv(c, s) && SvcEnabled(c, s, AbortNode(v, d))
    requires Struct(c, DoAbortNode(s, v, d))
    ensures AwaitInv(c, DoAbortNode(s, v, d))
  {
  }

  lemma KeepAbortNode(c: Config, s: State, v: nat, d: nat)
    requires Struct(c, s) && AccInv(c, s) && SvcEnabled(c, s, AbortNode(v, d))
    requires Struct(c, DoAbortNode(s, v, d))
    ensures AccInv(c, DoAbortNode(s, v, d))
  {
    KeepAbortNodeAwait(c, s, v, d);
    KeepAbortNodeLeak(c, s, v, d);
  }

  lemma KeepDeleteNodeLeak(c: Config, s: State, v: nat)
    requires Struct(c, s) && AccInv(c, s) && v < c.svcs && s.svcs[v].pc.Purging?
    requires Struct(c, DoDeleteNode(s, v))
    ensures LeakInv(c, DoDeleteNode(s, v))
  {
  }

  lemma KeepDeleteNode(c: Config, s: State, v: nat)
    requires Struct(c, s) && AccInv(c, s) && v < c.svcs && s.svcs[v].pc.Purging?
    requires Struct(c, DoDeleteNode(s, v))
    ensures AccInv(c, DoDeleteNode(s, v))
  {
    KeepDeleteNodeLeak(c, s, v);
  }

  lemma KeepGrantPrio(c: Config, s: State, v: nat)
    requires Struct(c, s) && AccInv(c, s) && SvcEnabled(c, s, Grant(v))
    requires Struct(c, DoGrant(s, v))
    ensures PrioInv(c, DoGrant(s, v))
  {
  }

  lemma KeepGrantAwait(c: Config, s: State, v: nat)
    requires Struct(c, s) && AccInv(c, s) && SvcEnabled(c, s, Grant(v))
    requires Struct(c, DoGrant(s, v))
    ensures AwaitInv(c, DoGrant(s, v))
  {
  }

  lemma KeepGrantLeakAt(c: Config, s: State, v: nat, w: nat, b: nat)
    requires Struct(c, s) && AccInv(c, s) && SvcEnabled(c, s, Grant(v))
    requires Struct(c, DoGrant(s, v))
    requires w < c.svcs && b < c.apps
    ensures var s' := DoGrant(s, v);
            LeakOk(c, w, s'.svcs[w], b, s'.apps[b], s'.skipped, s'.under)
  {
    assert LeakOk(c, w, s.svcs[w], b, s.apps[b], s.skipped, s.under);
  }

  lemma KeepGrantLeak(c: Config, s: State, v: nat)
    requires Struct(c, s) && AccInv(c, s) && SvcEnabled(c, s, Grant(v))
    requires Struct(c, DoGrant(s, v))
    ensures LeakInv(c, DoGrant(s, v))
  {
    forall w, b | 0 <= w < c.svcs && 0 <= b < c.apps
      ensures var s' := DoGrant(s, v);
              LeakOk(c, w, s'.svcs[w], b, s'.apps[b], s'.skipped, s'.under)
    {
      KeepGrantLeakAt(c, s, v, w, b);
    }
  }

  lemma KeepGrant(c: Config, s: State, v: nat)
    requires Struct(c, s) && AccInv(c, s) && SvcEnabled(c, s, Grant(v))
    requires Struct(c, DoGrant(s, v))
    ensures AccInv(c, DoGrant(s, v))
  {
    KeepGrantPrio(c, s, v);
    KeepGrantAwait(c, s, v);
    KeepGrantLeak(c, s, v);
  }

  lemma KeepDeleteSelfLeak(c: Config, s: State, v: nat)
    requires Struct(c, s) && AccInv(c, s) && v < c.svcs && s.svcs[v].pc.PurgingSelf?
    requires Struct(c, DoDeleteSelf(s, v))
    ensures LeakInv(c, DoDeleteSelf(s, v))
  {
  }

  lemma KeepDeleteSelf(c: Config, s: State, v: nat)
    requires Struct(c, s) && AccInv(c, s) && v < c.svcs && s.svcs[v].pc.PurgingSelf?
    requires Struct(c, DoDeleteSelf(s, v))
    ensures AccInv(c, DoDeleteSelf(s, v))
  {
    KeepDeleteSelfLeak(c, s, v);
  }
}
