/** What the protocol makes of the program: an attempt's reads and stores, its requests and its
    priority are those of its steps, whatever the services do meanwhile; a commit leaves the last
    value it stored at each address; an aborted attempt notices; and no message is lost. */
module Attempts {
  import opened Locks
  import opened Protocol
  import opened Invariant
  import opened Serializability
  import opened Accounting
  import opened Runs
  import opened Theorems
  import WriteSet

  // -------------------------------------------------------- reads and stores

  /** The stores of application `a` since it last began an attempt, in program order. */
  function Stored(steps: seq<Step>, a: nat): seq<Access> {
    if steps == [] then []
    else
      var n := |steps| - 1;
      var before := Stored(steps[..n], a);
      match steps[n]
      case TxStart(b) => if b == a then [] else before
      case Insert(b, x, val) => if b == a then before + [Access(x, val)] else before
      case _ => before
  }

  /** Its reads under a lock, each with what memory held at that moment ... */
  function ReadIn(states: seq<State>, steps: seq<Step>, a: nat): seq<Access>
    requires |states| > |steps|
    decreases |steps|
  {
    if steps == [] then []
    else
      var n := |steps| - 1;
      var before := ReadIn(states, steps[..n], a);
      match steps[n]
      case TxStart(b) => if b == a then [] else before
      case RawRead(b, x) => if b == a then before + [Access(x, Load(states[n].mem, x))] else before
      case _ => before
  }

  /** ... and without one. */
  function PeekedIn(states: seq<State>, steps: seq<Step>, a: nat): seq<Access>
    requires |states| > |steps|
    decreases |steps|
  {
    if steps == [] then []
    else
      var n := |steps| - 1;
      var before := PeekedIn(states, steps[..n], a);
      match steps[n]
      case TxStart(b) => if b == a then [] else before
      case Peek(b, x) => if b == a then before + [Access(x, Load(states[n].mem, x))] else before
      case _ => before
  }

  /** What one step does to the three lists of an application. */
  lemma ListsStep(c: Config, s: State, t: Step, s': State, a: nat)
    requires Next(c, s, t, s') && a < c.apps
    ensures a < |s'.apps|
    ensures s'.apps[a].ws ==
            if t == TxStart(a) then [] else if t.Insert? && t.a == a then s.apps[a].ws + [Access(t.addr, t.val)]
            else s.apps[a].ws
    ensures s'.apps[a].seen ==
            if t == TxStart(a) then []
            else if t.RawRead? && t.a == a then s.apps[a].seen + [Access(t.addr, Load(s.mem, t.addr))]
            else s.apps[a].seen
    ensures s'.apps[a].peeked ==
            if t == TxStart(a) then []
            else if t.Peek? && t.a == a then s.apps[a].peeked + [Access(t.addr, Load(s.mem, t.addr))]
            else s.apps[a].peeked
  {
    if IsAppStep(t) {
      if t.a != a {
        OnlyMoverChanges(c, s, t, a);
      } else {
        MoversLists(c, s, t);
      }
    } else {
      ServicesLeaveLists(c, s, t, a);
    }
  }

  lemma MoversLists(c: Config, s: State, t: Step)
    requires WellFormed(c, s) && ValidConfig(c) && IsAppStep(t) && AppEnabled(c, s, t)
    ensures var app, app' := s.apps[t.a], ApplyApp(c, s, t).apps[t.a];
            && app'.ws == (if t.TxStart? then [] else if t.Insert? then app.ws + [Access(t.addr, t.val)] else app.ws)
            && app'.seen == (if t.TxStart? then []
                             else if t.RawRead? then app.seen + [Access(t.addr, Load(s.mem, t.addr))] else app.seen)
            && app'.peeked == (if t.TxStart? then []
                               else if t.Peek? then app.peeked + [Access(t.addr, Load(s.mem, t.addr))]
                               else app.peeked)
  {
    if EndsAttempt(t) {
      EndLeavesLists(c, s, t);
    }
  }

  lemma EndLeavesLists(c: Config, s: State, t: Step)
    requires WellFormed(c, s) && ValidConfig(c) && EndsAttempt(t) && AppEnabled(c, s, t)
    ensures var app, app' := s.apps[t.a], ApplyEnd(c, s, t).apps[t.a];
            app'.ws == app.ws && app'.seen == app.seen && app'.peeked == app.peeked
  {
  }

  lemma ServicesLeaveLists(c: Config, s: State, t: Step, a: nat)
    requires WellFormed(c, s) && !IsAppStep(t) && SvcEnabled(c, s, t) && a < c.apps
    ensures var app, app' := s.apps[a], ApplySvc(c, s, t).apps[a];
            app'.ws == app.ws && app'.seen == app.seen && app'.peeked == app.peeked
            && app'.prio == app.prio && app'.sent == app.sent
  {
  }

  /** In every state of every run, write set and reads of an application are what its steps since
      the start of its attempt have stored and read, no more, no less, and in that order. */
  lemma {:induction false} WriteSetIsStored(c: Config, states: seq<State>, steps: seq<Step>, a: nat, i: nat)
    requires IsTrace(c, states, steps) && Init(c, states[0]) && i <= |steps| && a < c.apps
    ensures a < |states[i].apps| && states[i].apps[a].ws == Stored(steps[..i], a)
    ensures states[i].apps[a].seen == ReadIn(states, steps[..i], a)
    ensures states[i].apps[a].peeked == PeekedIn(states, steps[..i], a)
  {
    if i > 0 {
      WriteSetIsStored(c, states, steps, a, i - 1);
      assert StepAt(c, states, steps, i - 1);
      ListsStep(c, states[i - 1], steps[i - 1], states[i], a);
      assert steps[..i][..i - 1] == steps[..i - 1];
    }
  }

  /** The log entry of the commit, or plain store, in step `i`. */
  ghost predicate CommitsAs(states: seq<State>, steps: seq<Step>, i: nat, e: Commit)
    requires i < |steps| < |states|
  {
    match steps[i]
    case TryPersist(a) =>
      e == Commit(a, false, ReadIn(states, steps[..i], a), PeekedIn(states, steps[..i], a), Stored(steps[..i], a))
    case PlainStore(a, x, val) => e == Commit(a, true, [], [], [Access(x, val)])
    case _ => false
  }

  /** Every commit is one of an attempt's TryPersist, with exactly what the attempt read and
      stored, or one plain store; and they are in the order of these steps. */
  lemma {:induction false} CommitsAreAttempts(c: Config, states: seq<State>, steps: seq<Step>, n: nat, k: nat)
    returns (i: nat)
    requires IsTrace(c, states, steps) && Init(c, states[0]) && n <= |steps| && k < |states[n].log|
    ensures i < n && |states[i].log| == k && states[i + 1].log == states[i].log + [states[n].log[k]]
    ensures CommitsAs(states, steps, i, states[n].log[k])
  {
    assert n > 0;
    assert StepAt(c, states, steps, n - 1);
    LogStep(c, states[n - 1], steps[n - 1], states[n]);
    if k < |states[n - 1].log| {
      i := CommitsAreAttempts(c, states, steps, n - 1, k);
    } else {
      i := n - 1;
      if steps[i].TryPersist? {
        WriteSetIsStored(c, states, steps, steps[i].a, i);
      }
    }
  }

  /** ... and an attempt that tries to commit does so exactly if its flag is still clear. */
  lemma CommitsExactly(c: Config, s: State, s': State, a: nat)
    requires Next(c, s, TryPersist(a), s')
    ensures a < c.apps && (|s'.log| == |s.log| + 1 <==> s.flags[a] == NoConflict)
    ensures s'.apps[a].pc == if s.flags[a] == NoConflict then Persisting(0) else Releasing(0, false)
  {
  }

  /** When it publishes TX_COMMITTED, memory holds at every address the attempt has stored to
      the value it stored there last. */
  lemma LastStoreIsInMemory(c: Config, states: seq<State>, steps: seq<Step>, a: nat, i: nat, x: int, val: int)
    requires IsTrace(c, states, steps) && ValidConfig(c) && Init(c, states[0]) && i < |steps|
    requires steps[i] == Publish(a) && WriteSet.Last(Stored(steps[..i], a), x) == Some(val)
    ensures Load(states[i + 1].mem, x) == val
  {
    var s := states[i];
    InitInv(c, states[0]);
    TraceInv(c, states, steps, i);
    assert StepAt(c, states, steps, i);
    WriteSetIsStored(c, states, steps, a, i);
    var j := LatestEntry(s.apps[a].ws, x);
    assert PendingSerial(s.apps[a], Serial(s));
    forall b | 0 <= b < c.apps ensures !Pending(s.apps[b], x) {
      if b != a && Pending(s.apps[b], x) {
        assert AppOk(s.apps[a]) && AppOk(s.apps[b]);
        LiveExclusion(c, s, a, b, x, Wr);
      }
    }
  }

  lemma {:induction false} LatestEntry(ws: seq<Access>, x: int) returns (j: nat)
    requires WriteSet.Last(ws, x).Some?
    ensures j < |ws| && IsLatest(ws, j) && ws[j] == Access(x, WriteSet.Last(ws, x).value)
  {
    if ws[|ws| - 1].addr == x {
      j := |ws| - 1;
    } else {
      j := LatestEntry(ws[..|ws| - 1], x);
    }
  }

  /** tx_load looks in the write set first: no read lock is asked for on an address that the attempt
      has stored to. */
  lemma OwnStoresAreNotRequested(c: Config, states: seq<State>, steps: seq<Step>, a: nat, i: nat, x: int)
    requires IsTrace(c, states, steps) && Init(c, states[0]) && i < |steps| && steps[i] == Send(a, x, Rd)
    ensures WriteSet.Last(Stored(steps[..i], a), x) == None
  {
    assert StepAt(c, states, steps, i);
    WriteSetIsStored(c, states, steps, a, i);
    if WriteSet.Last(Stored(steps[..i], a), x).Some? {
      var j := LatestEntry(Stored(steps[..i], a), x);
    }
  }

  // ------------------------------------------------------------ check_aborted

  /** The check sends an attempt into its release loop exactly if its flag is set. */
  lemma CheckAbortedExactly(c: Config, s: State, s': State, a: nat)
    requires Reachable(c, s) && Next(c, s, CheckAborted(a), s')
    ensures a < c.apps && s'.flags == s.flags
    ensures IsReason(s.flags[a]) ==> s'.apps[a].pc == Releasing(0, false)
    ensures !IsReason(s.flags[a]) ==> s'.apps[a].pc == Cleared && s.flags[a] == NoConflict
  {
    ReachableInv(c, s);
    assert FlagOk(s.apps[a].pc, s.flags[a]);
  }

  /** Step `j` is a check of `a` that found the flag clear, and `a` has done nothing since, but for
      reading and storing without locks. */
  ghost predicate ChecksAt(states: seq<State>, steps: seq<Step>, a: nat, j: nat, i: nat)
    requires j < i <= |steps| < |states|
  {
    && steps[j] == CheckAborted(a) && a < |states[j].flags| && states[j].flags[a] == NoConflict
    && forall k | j < k < i && IsAppStep(steps[k]) && steps[k].a == a :: steps[k].Peek? || steps[k].PlainStore?
  }

  /** What leaves or brings an application to the point where its check has just succeeded. */
  lemma ClearedStep(c: Config, s: State, t: Step, s': State, a: nat)
    requires Next(c, s, t, s') && a < c.apps
    ensures a < |s'.apps|
    ensures s'.apps[a].pc.Cleared? ==>
              (t == CheckAborted(a) && s.flags[a] == NoConflict) ||
              (s.apps[a].pc.Cleared? && (IsAppStep(t) && t.a == a ==> t.Peek? || t.PlainStore?))
  {
    if IsAppStep(t) && t.a != a {
      OnlyMoverChanges(c, s, t, a);
    } else if !IsAppStep(t) {
      ServicesClearNobody(c, s, t, a);
    }
  }

  lemma {:induction false} ClearedHasChecked(c: Config, states: seq<State>, steps: seq<Step>, a: nat, i: nat)
    returns (j: nat)
    requires IsTrace(c, states, steps) && Init(c, states[0]) && i <= |steps| && a < c.apps
    requires a < |states[i].apps| && states[i].apps[a].pc.Cleared?
    ensures j < i && ChecksAt(states, steps, a, j, i)
  {
    assert i > 0;
    assert StepAt(c, states, steps, i - 1);
    ClearedStep(c, states[i - 1], steps[i - 1], states[i], a);
    if steps[i - 1] == CheckAborted(a) && states[i - 1].flags[a] == NoConflict {
      j := i - 1;
    } else {
      j := ClearedHasChecked(c, states, steps, a, i - 1);
    }
  }

  /** Every request, and every store under a lock that was not just taken for it, comes right after a
      check that found the flag clear. */
  lemma ChecksFirst(c: Config, states: seq<State>, steps: seq<Step>, a: nat, i: nat) returns (j: nat)
    requires IsTrace(c, states, steps) && Init(c, states[0]) && i < |steps| && a < c.apps && a < |states[i].apps|
    requires || (steps[i].Send? && steps[i].a == a)
             || (steps[i].Insert? && steps[i].a == a && Lock(steps[i].addr, Wr) !in states[i].apps[a].granted)
    ensures j < i && ChecksAt(states, steps, a, j, i)
  {
    assert StepAt(c, states, steps, i);
    j := ClearedHasChecked(c, states, steps, a, i);
  }

  /** The attempt of `a` is over: what is left is to release and to finish. */
  predicate Ended(pc: AppPc) { pc.Releasing? || pc.Idle? }

  /** The steps an application can take before it is running again. */
  predicate Lingers(t: Step, a: nat) {
    IsAppStep(t) && t.a == a ==> t.Release? || t.Finish? || t.PlainStore?
  }

  lemma StaysEnded(c: Config, s: State, t: Step, s': State, a: nat)
    requires Struct(c, s) && Next(c, s, t, s') && a < c.apps && Ended(s.apps[a].pc) && t != TxStart(a)
    ensures a < |s'.apps| && Ended(s'.apps[a].pc) && Lingers(t, a)
  {
    if IsAppStep(t) && t.a != a {
      OnlyMoverChanges(c, s, t, a);
    } else if !IsAppStep(t) {
      ServicesLeaveEnded(c, s, t, a);
    }
  }

  lemma ServicesLeaveEnded(c: Config, s: State, t: Step, a: nat)
    requires WellFormed(c, s) && !IsAppStep(t) && SvcEnabled(c, s, t) && a < c.apps && Ended(s.apps[a].pc)
    ensures ApplySvc(c, s, t).apps[a] == s.apps[a]
  {
  }

  lemma StaysEndedAt(c: Config, states: seq<State>, steps: seq<Step>, a: nat, k: nat)
    requires IsTrace(c, states, steps) && ValidConfig(c) && Inv(c, states[0]) && k < |steps| && a < c.apps
    requires a < |states[k].apps| && Ended(states[k].apps[a].pc) && steps[k] != TxStart(a)
    ensures a < |states[k + 1].apps| && Ended(states[k + 1].apps[a].pc) && Lingers(steps[k], a)
  {
    TraceInv(c, states, steps, k);
    assert StepAt(c, states, steps, k);
    StaysEnded(c, states[k], steps[k], states[k + 1], a);
  }

  lemma {:induction false} EndedUntilStart(c: Config, states: seq<State>, steps: seq<Step>, a: nat, i: nat, k: nat)
    requires IsTrace(c, states, steps) && ValidConfig(c) && Inv(c, states[0]) && i <= k <= |steps| && a < c.apps
    requires a < |states[i].apps| && Ended(states[i].apps[a].pc) && TxStart(a) !in steps[i..k]
    ensures a < |states[k].apps| && Ended(states[k].apps[a].pc) && forall j | i <= j < k :: Lingers(steps[j], a)
  {
    if i < k {
      assert steps[i..k] == steps[i..k - 1] + [steps[k - 1]];
      EndedUntilStart(c, states, steps, a, i, k - 1);
      StaysEndedAt(c, states, steps, a, k - 1);
    }
  }

  /** Once its flag is set and it has checked, an attempt asks for nothing, reads nothing, stores
      nothing and tries no commit: until it starts again, it only gives back what it has. */
  lemma AbortedNotices(c: Config, states: seq<State>, steps: seq<Step>, a: nat, i: nat, k: nat)
    requires IsTrace(c, states, steps) && ValidConfig(c) && Init(c, states[0]) && i < k <= |steps| && a < c.apps
    requires steps[i] == CheckAborted(a) && a < |states[i].flags| && IsReason(states[i].flags[a])
    requires TxStart(a) !in steps[i..k]
    ensures forall j | i < j < k :: Lingers(steps[j], a)
  {
    InitInv(c, states[0]);
    assert StepAt(c, states, steps, i);
    assert states[i + 1].apps[a].pc == Releasing(0, false);
    assert forall j | i + 1 <= j < k :: steps[j] == steps[i..k][j - i];
    EndedUntilStart(c, states, steps, a, i + 1, k);
  }

  /** How many requests `a` sends in the steps from `i` up to `k`. */
  function Sends(steps: seq<Step>, a: nat, i: nat, k: nat): nat
    requires i <= k <= |steps|
    decreases k
  {
    if i == k then 0 else Sends(steps, a, i, k - 1) + if steps[k - 1].Send? && steps[k - 1].a == a then 1 else 0
  }

  function Checked(app: App): nat { if app.pc.Cleared? then 1 else 0 }

  lemma SendsStep(c: Config, s: State, t: Step, s': State, a: nat)
    requires Struct(c, s) && Next(c, s, t, s') && a < c.apps && IsReason(s.flags[a]) && t != TxStart(a)
    ensures a < |s'.apps|
    ensures Checked(s'.apps[a]) + (if t.Send? && t.a == a then 1 else 0) <= Checked(s.apps[a])
  {
    if IsAppStep(t) && t.a != a {
      OnlyMoverChanges(c, s, t, a);
    } else if !IsAppStep(t) {
      ServicesClearNobody(c, s, t, a);
    }
  }

  lemma ServicesClearNobody(c: Config, s: State, t: Step, a: nat)
    requires WellFormed(c, s) && !IsAppStep(t) && SvcEnabled(c, s, t) && a < c.apps
    ensures Checked(ApplySvc(c, s, t).apps[a]) == Checked(s.apps[a])
  {
  }

  /** From the moment its flag is set an attempt sends at most the one request whose check came
      before. */
  lemma {:induction false} AbortedSendsOnce(c: Config, states: seq<State>, steps: seq<Step>, a: nat, i: nat, k: nat)
    requires IsTrace(c, states, steps) && ValidConfig(c) && Inv(c, states[0]) && i <= k <= |steps| && a < c.apps
    requires a < |states[i].apps| && a < |states[i].flags| && IsReason(states[i].flags[a]) && TxStart(a) !in steps[i..k]
    ensures a < |states[k].apps| && a < |states[k].flags| && IsReason(states[k].flags[a])
    ensures Sends(steps, a, i, k) + Checked(states[k].apps[a]) <= Checked(states[i].apps[a])
  {
    if i < k {
      assert steps[i..k] == steps[i..k - 1] + [steps[k - 1]];
      AbortedSendsOnce(c, states, steps, a, i, k - 1);
      TraceInv(c, states, steps, k - 1);
      assert StepAt(c, states, steps, k - 1);
      SendsStep(c, states[k - 1], steps[k - 1], states[k], a);
      AbortedStays(c, states[k - 1], steps[k - 1], states[k], a);
    }
  }

  // ----------------------------------------------------------------- priority

  /** The priority of `a` after its last Finish. */
  function PriorityOf(steps: seq<Step>, a: nat): nat {
    if steps == [] then 0
    else
      var n := |steps| - 1;
      if steps[n].Finish? && steps[n].a == a then steps[n].prio else PriorityOf(steps[..n], a)
  }

  lemma PriorityStep(c: Config, s: State, t: Step, s': State, a: nat)
    requires Next(c, s, t, s') && a < c.apps
    ensures a < |s'.apps| && s'.apps[a].prio == if t.Finish? && t.a == a then t.prio else s.apps[a].prio
  {
    if IsAppStep(t) {
      if t.a != a {
        OnlyMoverChanges(c, s, t, a);
      } else {
        MoversPriority(c, s, t);
      }
    } else {
      ServicesLeaveLists(c, s, t, a);
    }
  }

  lemma MoversPriority(c: Config, s: State, t: Step)
    requires WellFormed(c, s) && ValidConfig(c) && IsAppStep(t) && AppEnabled(c, s, t)
    ensures ApplyApp(c, s, t).apps[t.a].prio == if t.Finish? then t.prio else s.apps[t.a].prio
  {
  }

  /** An application has the priority its last attempt ended with, 0 before the first commit. */
  lemma {:induction false} PriorityIsLastFinished(c: Config, states: seq<State>, steps: seq<Step>, a: nat, i: nat)
    requires IsTrace(c, states, steps) && Init(c, states[0]) && i <= |steps| && a < c.apps
    ensures a < |states[i].apps| && states[i].apps[a].prio == PriorityOf(steps[..i], a)
  {
    if i > 0 {
      PriorityIsLastFinished(c, states, steps, a, i - 1);
      assert StepAt(c, states, steps, i - 1);
      PriorityStep(c, states[i - 1], steps[i - 1], states[i], a);
      assert steps[..i][..i - 1] == steps[..i - 1];
    }
  }

  /** Only a commit changes it, and only upwards. */
  lemma OnlyCommitsRaisePriority(c: Config, s: State, t: Step, s': State, a: nat)
    requires Reachable(c, s) && Next(c, s, t, s') && a < c.apps
    ensures a < |s'.apps| && s.apps[a].prio <= s'.apps[a].prio
    ensures s'.apps[a].prio != s.apps[a].prio ==> s.flags[a] == TxCommitted
  {
    ReachableInv(c, s);
    PriorityStep(c, s, t, s', a);
    assert FlagOk(s.apps[a].pc, s.flags[a]);
  }

  /** At the start all priorities are 0 and the ids decide: application 0 is not aborted before its
      first commit has raised its priority. */
  lemma {:induction false} FirstIsNotAborted(c: Config, states: seq<State>, steps: seq<Step>, i: nat)
    requires IsTrace(c, states, steps) && ValidConfig(c) && Init(c, states[0]) && i <= |steps| && c.apps > 0
    requires |states[i].apps| > 0 && states[i].apps[0].prio == 0
    ensures |states[i].flags| > 0 && !IsReason(states[i].flags[0])
  {
    if i > 0 {
      var s := states[i - 1];
      assert StepAt(c, states, steps, i - 1);
      PriorityStep(c, s, steps[i - 1], states[i], 0);
      FirstIsNotAborted(c, states, steps, i - 1);
      PrefixIsReachable(c, states, steps, i - 1);
      LeastIsNeverVictim(c, s, steps[i - 1], states[i], 0);
    }
  }

  lemma PrefixIsReachable(c: Config, states: seq<State>, steps: seq<Step>, i: nat)
    requires IsTrace(c, states, steps) && ValidConfig(c) && Init(c, states[0]) && i <= |steps|
    ensures Reachable(c, states[i])
  {
    InitInv(c, states[0]);
    TraceInv(c, states, steps, i);
    var states', steps' := states[..i + 1], steps[..i];
    forall k: nat | k < |steps'| ensures StepAt(c, states', steps', k) {
      assert StepAt(c, states, steps, k);
    }
    assert IsTrace(c, states', steps') && Init(c, states'[0]) && states[i] == states'[|steps'|];
  }

  // ----------------------------------------------------------------- requests

  /** What step `t` makes of the number `n` of requests that application `a` has to account for at
      service `v`: a request counts, a release or a refusal there settles the account. */
  ghost function Counted(c: Config, s: State, t: Step, a: nat, v: nat, n: nat): nat
    requires a < |s.apps|
  {
    var pc := s.apps[a].pc;
    match t
    case Send(b, x, _) => if b == a && c.route(x) == v then n + 1 else n
    case Receive(b) => if b == a && Refused(pc) && c.route(pc.addr) == v then 0 else n
    case Release(b) => if b == a && pc.Releasing? && pc.next == v then 0 else n
    case _ => n
  }

  ghost function Requests(c: Config, states: seq<State>, steps: seq<Step>, a: nat, v: nat): nat
    requires |states| > |steps| && forall s | s in states :: a < |s.apps|
    decreases |steps|
  {
    if steps == [] then 0
    else
      var n := |steps| - 1;
      Counted(c, states[n], steps[n], a, v, Requests(c, states, steps[..n], a, v))
  }

  lemma CountStep(c: Config, s: State, t: Step, s': State, a: nat, v: nat)
    requires Next(c, s, t, s') && a < c.apps && v < c.svcs
    ensures a < |s'.apps| && v < |s'.apps[a].sent| && s'.apps[a].sent[v] == Counted(c, s, t, a, v, s.apps[a].sent[v])
  {
    if IsAppStep(t) {
      if t.a != a {
        OnlyMoverChanges(c, s, t, a);
      } else {
        MoversCount(c, s, t, v);
      }
    } else {
      ServicesLeaveLists(c, s, t, a);
    }
  }

  lemma MoversCount(c: Config, s: State, t: Step, v: nat)
    requires WellFormed(c, s) && ValidConfig(c) && IsAppStep(t) && AppEnabled(c, s, t) && v < c.svcs
    ensures v < |ApplyApp(c, s, t).apps[t.a].sent|
    ensures ApplyApp(c, s, t).apps[t.a].sent[v] == Counted(c, s, t, t.a, v, s.apps[t.a].sent[v])
  {
    if EndsAttempt(t) {
      EndCounts(c, s, t, v);
    }
  }

  lemma EndCounts(c: Config, s: State, t: Step, v: nat)
    requires WellFormed(c, s) && ValidConfig(c) && EndsAttempt(t) && AppEnabled(c, s, t) && v < c.svcs
    ensures v < |ApplyEnd(c, s, t).apps[t.a].sent|
    ensures ApplyEnd(c, s, t).apps[t.a].sent[v] == Counted(c, s, t, t.a, v, s.apps[t.a].sent[v])
  {
  }

  /** nodes_contacted is the number of requests that have been neither refused nor released since,
      in 16 bits. */
  lemma {:induction false} ContactedIsRequests(c: Config, states: seq<State>, steps: seq<Step>, a: nat, v: nat, i: nat)
    requires IsTrace(c, states, steps) && ValidConfig(c) && Init(c, states[0]) && i <= |steps|
    requires a < c.apps && v < c.svcs && forall s | s in states :: a < |s.apps|
    ensures v < |states[i].apps[a].sent| == |states[i].apps[a].contacted|
    ensures states[i].apps[a].sent[v] == Requests(c, states, steps[..i], a, v)
    ensures states[i].apps[a].contacted[v] == Requests(c, states, steps[..i], a, v) % 65536
  {
    InitInv(c, states[0]);
    TraceInv(c, states, steps, i);
    assert CountOk(c, states[i].apps[a]);
    if i > 0 {
      ContactedIsRequests(c, states, steps, a, v, i - 1);
      assert StepAt(c, states, steps, i - 1);
      CountStep(c, states[i - 1], steps[i - 1], states[i], a, v);
      assert steps[..i][..i - 1] == steps[..i - 1];
    }
  }

  // ----------------------------------------------------------------- messages

  /** What `a` sends to service `v` in one step: its requests there, and at the end of an attempt one
      release if the counter says that there is something to release. */
  ghost function SentIn(c: Config, s: State, t: Step, a: nat, v: nat): seq<Msg>
    requires a < |s.apps|
  {
    var app := s.apps[a];
    match t
    case Send(b, x, m) => if b == a && c.route(x) == v then [Request(x, m, app.prio)] else []
    case Release(b) =>
      if b == a && app.pc.Releasing? && app.pc.next == v < |app.contacted| && app.contacted[v] > 0
      then [RemoveNode(app.prio)] else []
    case _ => []
  }

  ghost function TakenIn(s: State, t: Step, a: nat, v: nat): seq<Msg> {
    if t == Serve(v, a) && v < |s.svcs| && a < |s.svcs[v].inbox| && |s.svcs[v].inbox[a]| > 0
    then [s.svcs[v].inbox[a][0]]
    else []
  }

  ghost function AllSent(c: Config, states: seq<State>, steps: seq<Step>, a: nat, v: nat): seq<Msg>
    requires |states| > |steps| && forall s | s in states :: a < |s.apps|
    decreases |steps|
  {
    if steps == [] then []
    else
      var n := |steps| - 1;
      AllSent(c, states, steps[..n], a, v) + SentIn(c, states[n], steps[n], a, v)
  }

  ghost function AllTaken(states: seq<State>, steps: seq<Step>, a: nat, v: nat): seq<Msg>
    requires |states| > |steps|
    decreases |steps|
  {
    if steps == [] then []
    else
      var n := |steps| - 1;
      AllTaken(states, steps[..n], a, v) + TakenIn(states[n], steps[n], a, v)
  }

  lemma ChannelStep(c: Config, s: State, t: Step, s': State, a: nat, v: nat)
    requires Next(c, s, t, s') && a < c.apps && v < c.svcs
    ensures v < |s'.svcs| && a < |s'.svcs[v].inbox|
    ensures s.svcs[v].inbox[a] + SentIn(c, s, t, a, v) == TakenIn(s, t, a, v) + s'.svcs[v].inbox[a]
  {
    if IsAppStep(t) {
      AppSends(c, s, t, a, v);
    } else {
      ServiceTakes(c, s, t, a, v);
    }
  }

  lemma AppSends(c: Config, s: State, t: Step, a: nat, v: nat)
    requires WellFormed(c, s) && ValidConfig(c) && IsAppStep(t) && AppEnabled(c, s, t) && a < c.apps && v < c.svcs
    ensures var s' := ApplyApp(c, s, t);
            && v < |s'.svcs| && a < |s'.svcs[v].inbox|
            && s'.svcs[v].inbox[a] == s.svcs[v].inbox[a] + SentIn(c, s, t, a, v)
  {
    if EndsAttempt(t) {
      EndSends(c, s, t, a, v);
    }
  }

  lemma EndSends(c: Config, s: State, t: Step, a: nat, v: nat)
    requires WellFormed(c, s) && ValidConfig(c) && EndsAttempt(t) && AppEnabled(c, s, t) && a < c.apps && v < c.svcs
    ensures var s' := ApplyEnd(c, s, t);
            && v < |s'.svcs| && a < |s'.svcs[v].inbox|
            && s'.svcs[v].inbox[a] == s.svcs[v].inbox[a] + SentIn(c, s, t, a, v)
  {
  }

  lemma ServiceTakes(c: Config, s: State, t: Step, a: nat, v: nat)
    requires WellFormed(c, s) && !IsAppStep(t) && SvcEnabled(c, s, t) && a < c.apps && v < c.svcs
    ensures var s' := ApplySvc(c, s, t);
            && v < |s'.svcs| && a < |s'.svcs[v].inbox|
            && s.svcs[v].inbox[a] == TakenIn(s, t, a, v) + s'.svcs[v].inbox[a]
  {
    if t.Serve? {
      ServeTakes(c, s, t.v, t.a, a, v);
    }
  }

  lemma ServeTakes(c: Config, s: State, w: nat, b: nat, a: nat, v: nat)
    requires WellFormed(c, s) && SvcEnabled(c, s, Serve(w, b)) && a < c.apps && v < c.svcs
    ensures var s' := DoServe(s, w, b);
            && v < |s'.svcs| && a < |s'.svcs[v].inbox|
            && s.svcs[v].inbox[a] == TakenIn(s, Serve(w, b), a, v) + s'.svcs[v].inbox[a]
  {
    assert DoServe(s, w, b).svcs[w].inbox == Taken(s.svcs[w], b).inbox;
  }

  /** No message is lost, invented, repeated or overtaken: what an application has sent to a service
      is what the service has taken from it and then what is in the channel. */
  lemma {:induction false} MessagesAreKept(c: Config, states: seq<State>, steps: seq<Step>, a: nat, v: nat, i: nat)
    requires IsTrace(c, states, steps) && Init(c, states[0]) && i <= |steps|
    requires a < c.apps && v < c.svcs && forall s | s in states :: a < |s.apps|
    ensures v < |states[i].svcs| && a < |states[i].svcs[v].inbox|
    ensures AllSent(c, states, steps[..i], a, v) == AllTaken(states, steps[..i], a, v) + states[i].svcs[v].inbox[a]
  {
    if i > 0 {
      MessagesAreKept(c, states, steps, a, v, i - 1);
      assert StepAt(c, states, steps, i - 1);
      ChannelStep(c, states[i - 1], steps[i - 1], states[i], a, v);
      assert steps[..i][..i - 1] == steps[..i - 1];
      Appended(AllSent(c, states, steps[..i - 1], a, v), AllTaken(states, steps[..i - 1], a, v),
               states[i - 1].svcs[v].inbox[a], SentIn(c, states[i - 1], steps[i - 1], a, v),
               TakenIn(states[i - 1], steps[i - 1], a, v), states[i].svcs[v].inbox[a]);
    }
  }

  lemma Appended<T>(sent: seq<T>, taken: seq<T>, q: seq<T>, more: seq<T>, head: seq<T>, q': seq<T>)
    requires sent == taken + q && q + more == head + q'
    ensures sent + more == taken + head + q'
  {
    assert sent + more == taken + (q + more);
    assert taken + head + q' == taken + (head + q');
  }
}
