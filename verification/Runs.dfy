/** The theorems about whole runs. */
module Runs {
  import opened Protocol
  import opened Invariant
  import opened Serializability
  import opened Accounting

  ghost predicate Inv(c: Config, s: State) {
    Struct(c, s) && SerInv(c, s) && AccInv(c, s)
  }

  lemma InitInv(c: Config, s: State)
    requires ValidConfig(c) && Init(c, s)
    ensures Inv(c, s)
  {
    InitStruct(c, s);
  }

  // ------------------------------------------------------------ every step keeps Inv

  lemma StepStructEnd(c: Config, s: State, t: Step)
    requires Struct(c, s) && Enabled(c, s, t) && EndsAttempt(t)
    ensures Struct(c, Apply(c, s, t))
  {
    match t
    case TryPersist(a) => Invariant.KeepTryPersist(c, s, a);
    case PersistEntry(a) => Invariant.KeepPersistEntry(c, s, a);
    case Publish(a) => Invariant.KeepPublish(c, s, a);
    case Release(a) =>
      if s.apps[a].contacted[s.apps[a].pc.next] > 0 {
        Invariant.KeepSendRelease(c, s, a);
      } else {
        Invariant.KeepPassBy(c, s, a);
      }
    case Finish(a, p) => Invariant.KeepFinish(c, s, a, p);
  }

  lemma StepStructApp(c: Config, s: State, t: Step)
    requires Struct(c, s) && Enabled(c, s, t) && IsAppStep(t)
    ensures Struct(c, Apply(c, s, t))
  {
    match t
    case TxStart(a) => Invariant.KeepTxStart(c, s, a);
    case CheckAborted(a) => Invariant.KeepCheckAborted(c, s, a);
    case Send(a, x, m) => Invariant.KeepSend(c, s, a, x, m);
    case Receive(a) => Invariant.KeepReceive(c, s, a);
    case RawRead(a, x) => Invariant.KeepRawRead(c, s, a, x);
    case Peek(a, x) => Invariant.KeepPeek(c, s, a, x);
    case PlainStore(a, x, val) => Invariant.KeepPlainStore(c, s, a, x, val);
    case Insert(a, x, val) => Invariant.KeepInsert(c, s, a, x, val);
    case _ => StepStructEnd(c, s, t);
  }

  lemma StepStructSvc(c: Config, s: State, t: Step)
    requires Struct(c, s) && Enabled(c, s, t) && !IsAppStep(t)
    ensures Struct(c, Apply(c, s, t))
  {
    match t
    case Serve(v, a) =>
      if s.svcs[v].inbox[a][0].RemoveNode? { Invariant.KeepRemoveNode(c, s, v, a); }
      else if Admitted(s, v, a) { Invariant.KeepEvict(c, s, v, a); }
      else { Invariant.KeepRefuse(c, s, v, a); }
    case AbortNode(v, d) => Invariant.KeepAbortNode(c, s, v, d);
    case DeleteNode(v) => Invariant.KeepDeleteNode(c, s, v);
    case Grant(v) => Invariant.KeepGrant(c, s, v);
    case DeleteSelf(v) => Invariant.KeepDeleteSelf(c, s, v);
  }

  lemma StepSerEnd(c: Config, s: State, t: Step)
    requires Struct(c, s) && SerInv(c, s) && Enabled(c, s, t) && EndsAttempt(t) && Struct(c, Apply(c, s, t))
    ensures SerInv(c, Apply(c, s, t))
  {
    match t
    case TryPersist(a) => Serializability.KeepTryPersist(c, s, a);
    case PersistEntry(a) => Serializability.KeepPersistEntry(c, s, a);
    case Publish(a) => Serializability.KeepPublish(c, s, a);
    case Release(a) =>
      if s.apps[a].contacted[s.apps[a].pc.next] > 0 {
        Serializability.KeepSendRelease(c, s, a);
      } else {
        Serializability.KeepPassBy(c, s, a);
      }
    case Finish(a, p) => Serializability.KeepFinish(c, s, a, p);
  }

  lemma StepSerApp(c: Config, s: State, t: Step)
    requires Struct(c, s) && SerInv(c, s) && Enabled(c, s, t) && IsAppStep(t) && Struct(c, Apply(c, s, t))
    ensures SerInv(c, Apply(c, s, t))
  {
    match t
    case TxStart(a) => Serializability.KeepTxStart(c, s, a);
    case CheckAborted(a) => Serializability.KeepCheckAborted(c, s, a);
    case Send(a, x, m) => Serializability.KeepSend(c, s, a, x, m);
    case Receive(a) => Serializability.KeepReceive(c, s, a);
    case RawRead(a, x) => Serializability.KeepRawRead(c, s, a, x);
    case Peek(a, x) => Serializability.KeepPeek(c, s, a, x);
    case PlainStore(a, x, val) => Serializability.KeepPlainStore(c, s, a, x, val);
    case Insert(a, x, val) => Serializability.KeepInsert(c, s, a, x, val);
    case _ => StepSerEnd(c, s, t);
  }

  lemma StepSerServe(c: Config, s: State, v: nat, a: nat)
    requires Struct(c, s) && SerInv(c, s) && Enabled(c, s, Serve(v, a)) && Struct(c, DoServe(s, v, a))
    ensures SerInv(c, DoServe(s, v, a))
  {
    if s.svcs[v].inbox[a][0].RemoveNode? {
      Serializability.KeepRemoveNode(c, s, v, a);
    } else if Admitted(s, v, a) {
      Serializability.KeepEvict(c, s, v, a);
    } else {
      Serializability.KeepRefuse(c, s, v, a);
    }
  }

  lemma StepSerSvc(c: Config, s: State, t: Step)
    requires Struct(c, s) && SerInv(c, s) && Enabled(c, s, t) && !IsAppStep(t) && Struct(c, Apply(c, s, t))
    ensures SerInv(c, Apply(c, s, t))
  {
    match t
    case Serve(v, a) => StepSerServe(c, s, v, a);
    case AbortNode(v, d) => Serializability.KeepAbortNode(c, s, v, d);
    case DeleteNode(v) => Serializability.KeepDeleteNode(c, s, v);
    case Grant(v) => Serializability.KeepGrant(c, s, v);
    case DeleteSelf(v) => Serializability.KeepDeleteSelf(c, s, v);
  }

  lemma StepAccEnd(c: Config, s: State, t: Step)
    requires Struct(c, s) && AccInv(c, s) && Enabled(c, s, t) && EndsAttempt(t) && Struct(c, Apply(c, s, t))
    ensures AccInv(c, Apply(c, s, t))
  {
    match t
    case TryPersist(a) => Accounting.KeepTryPersist(c, s, a);
    case PersistEntry(a) => Accounting.KeepPersistEntry(c, s, a);
    case Publish(a) => Accounting.KeepPublish(c, s, a);
    case Release(a) =>
      if s.apps[a].contacted[s.apps[a].pc.next] > 0 {
        Accounting.KeepSendRelease(c, s, a);
      } else {
        Accounting.KeepPassBy(c, s, a);
      }
    case Finish(a, p) => Accounting.KeepFinish(c, s, a, p);
  }

  lemma StepAccApp(c: Config, s: State, t: Step)
    requires Struct(c, s) && AccInv(c, s) && Enabled(c, s, t) && IsAppStep(t) && Struct(c, Apply(c, s, t))
    ensures AccInv(c, Apply(c, s, t))
  {
    match t
    case TxStart(a) => Accounting.KeepTxStart(c, s, a);
    case CheckAborted(a) => Accounting.KeepCheckAborted(c, s, a);
    case Send(a, x, m) => Accounting.KeepSend(c, s, a, x, m);
    case Receive(a) => Accounting.KeepReceive(c, s, a);
    case RawRead(a, x) => Accounting.KeepRawRead(c, s, a, x);
    case Peek(a, x) => Accounting.KeepPeek(c, s, a, x);
    case PlainStore(a, x, val) => Accounting.KeepPlainStore(c, s, a, x, val);
    case Insert(a, x, val) => Accounting.KeepInsert(c, s, a, x, val);
    case _ => StepAccEnd(c, s, t);
  }

  lemma StepAccServe(c: Config, s: State, v: nat, a: nat)
    requires Struct(c, s) && AccInv(c, s) && Enabled(c, s, Serve(v, a)) && Struct(c, DoServe(s, v, a))
    ensures AccInv(c, DoServe(s, v, a))
  {
    if s.svcs[v].inbox[a][0].RemoveNode? {
      Accounting.KeepRemoveNode(c, s, v, a);
    } else if Admitted(s, v, a) {
      Accounting.KeepEvict(c, s, v, a);
    } else {
      Accounting.KeepRefuse(c, s, v, a);
    }
  }

  lemma StepAccSvc(c: Config, s: State, t: Step)
    requires Struct(c, s) && AccInv(c, s) && Enabled(c, s, t) && !IsAppStep(t) && Struct(c, Apply(c, s, t))
    ensures AccInv(c, Apply(c, s, t))
  {
    match t
    case Serve(v, a) => StepAccServe(c, s, v, a);
    case AbortNode(v, d) => Accounting.KeepAbortNode(c, s, v, d);
    case DeleteNode(v) => Accounting.KeepDeleteNode(c, s, v);
    case Grant(v) => Accounting.KeepGrant(c, s, v);
    case DeleteSelf(v) => Accounting.KeepDeleteSelf(c, s, v);
  }

  lemma StepInv(c: Config, s: State, t: Step)
    requires Inv(c, s) && Enabled(c, s, t)
    ensures Inv(c, Apply(c, s, t))
  {
    if IsAppStep(t) {
      StepStructApp(c, s, t);
      StepSerApp(c, s, t);
      StepAccApp(c, s, t);
    } else {
      StepStructSvc(c, s, t);
      StepSerSvc(c, s, t);
      StepAccSvc(c, s, t);
    }
  }

  lemma NextInv(c: Config, s: State, t: Step, s': State)
    requires Inv(c, s) && Next(c, s, t, s')
    ensures Inv(c, s')
  {
    StepInv(c, s, t);
  }

  /** What holds of one state of a run holds of all later ones. */
  lemma {:induction false} TraceInv(c: Config, states: seq<State>, steps: seq<Step>, i: nat)
    requires IsTrace(c, states, steps) && Inv(c, states[0]) && i <= |steps|
    ensures Inv(c, states[i])
  {
    if i > 0 {
      TraceInv(c, states, steps, i - 1);
      assert StepAt(c, states, steps, i - 1);
      NextInv(c, states[i - 1], steps[i - 1], states[i]);
    }
  }

  lemma ReachableInv(c: Config, s: State)
    requires Reachable(c, s)
    ensures Inv(c, s)
  {
    var states, steps :| IsTrace(c, states, steps) && Init(c, states[0]) && s == states[|steps|];
    InitInv(c, states[0]);
    TraceInv(c, states, steps, |steps|);
  }

  /** One step further. */
  lemma ReachableNext(c: Config, s: State, t: Step, s': State)
    requires Reachable(c, s) && Next(c, s, t, s') && WellFormed(c, s')
    ensures Reachable(c, s')
  {
    var states, steps :| IsTrace(c, states, steps) && Init(c, states[0]) && s == states[|steps|];
    var states', steps' := states + [s'], steps + [t];
    forall i: nat | i < |steps'| ensures StepAt(c, states', steps', i) {
      if i < |steps| {
        assert StepAt(c, states, steps, i);
      }
    }
    assert IsTrace(c, states', steps') && Init(c, states'[0]) && s' == states'[|steps'|];
  }
}
