/** What the protocol guarantees, over every run of any number of applications and services. */
module Theorems {
  import opened Locks
  import opened Protocol
  import opened Invariant
  import opened Serializability
  import opened Accounting
  import opened Runs

  lemma OnlyMoverChanges(c: Config, s: State, t: Step, a: nat)
    requires WellFormed(c, s) && ValidConfig(c) && IsAppStep(t) && AppEnabled(c, s, t) && a < c.apps && t.a != a
    ensures ApplyApp(c, s, t).apps[a] == s.apps[a] && ApplyApp(c, s, t).flags[a] == s.flags[a]
  {
  }

  // ---------------------------------------------------------- serializability

  /** In every state of every run, each committed attempt read what the attempts that
      committed before it left in memory ... */
  lemma Serializable(c: Config, s: State, k: nat)
    requires Reachable(c, s) && k < |s.log|
    ensures ReadsMatch(s.log[k].seen, SerialMem(s.init, s.log[..k]))
  {
    ReachableInv(c, s);
    assert CommittedReadsSerial(s);
  }

  lemma AllSerializable(c: Config, s: State)
    requires Reachable(c, s)
    ensures CommittedReadsSerial(s)
  {
    ReachableInv(c, s);
  }

  /** ... and memory is what they all left, up to the stores of attempts that are persisting
      right now. */
  lemma MemoryIsSerial(c: Config, s: State)
    requires Reachable(c, s)
    ensures MemorySerial(c, s)
  {
    ReachableInv(c, s);
  }

  /** When nobody is persisting, memory is exactly the result of the serial execution:
      aborted attempts left no trace, committed ones left all they stored. */
  lemma QuiescentMemory(c: Config, s: State, x: int)
    requires Reachable(c, s)
    requires forall a | 0 <= a < c.apps :: !s.apps[a].pc.Persisting?
    ensures Load(s.mem, x) == Load(SerialMem(s.init, s.log), x)
  {
    ReachableInv(c, s);
    assert forall a | 0 <= a < c.apps :: !Pending(s.apps[a], x);
  }

  /** One attempt run alone on memory `m`. */
  ghost predicate RunsAlone(m: map<int, int>, t: Commit, m': map<int, int>) {
    ReadsMatch(t.seen, m) && m' == Store(m, t.ws)
  }

  /** The protocol refines a machine that runs whole attempts at once: seen through
      `Serial`, a step does nothing, runs one attempt alone, or is a plain store. */
  lemma RefinesAtomicAttempts(c: Config, s: State, t: Step, s': State)
    requires Reachable(c, s) && Next(c, s, t, s')
    ensures s'.init == s.init
    ensures
      || (s'.log == s.log && Serial(s') == Serial(s))
      || (exists e :: s'.log == s.log + [e] && RunsAlone(Serial(s), e, Serial(s')) &&
            if e.plain then t.PlainStore? && e.ws == [Access(t.addr, t.val)] else t == TryPersist(e.node))
  {
    LogStep(c, s, t, s');
    if t.PlainStore? {
      SerialGrows(s.init, s.log, Commit(t.a, true, [], [], [Access(t.addr, t.val)]));
    } else if s'.log != s.log {
      CommitRunsAlone(c, s, t.a);
    }
  }

  lemma CommitRunsAlone(c: Config, s: State, a: nat)
    requires Reachable(c, s) && a < c.apps && s.apps[a].pc.Running? && s.flags[a] == NoConflict
    ensures RunsAlone(Serial(s), Committing(s.apps[a], a), SerialMem(s.init, s.log + [Committing(s.apps[a], a)]))
  {
    ReachableInv(c, s);
    SerialGrows(s.init, s.log, Committing(s.apps[a], a));
    assert Live(s.apps[a], s.flags[a]);
  }

  /** The serial order only grows: an attempt that commits before another one starts
      comes before it. */
  lemma {:induction false} LogGrows(c: Config, states: seq<State>, steps: seq<Step>, i: nat, j: nat)
    requires IsTrace(c, states, steps) && i <= j <= |steps|
    ensures states[i].log <= states[j].log
  {
    if i < j {
      LogGrows(c, states, steps, i, j - 1);
      assert StepAt(c, states, steps, j - 1);
      LogStep(c, states[j - 1], steps[j - 1], states[j]);
    }
  }

  lemma LogStep(c: Config, s: State, t: Step, s': State)
    requires Next(c, s, t, s')
    ensures s'.init == s.init
    ensures
      || (s'.log == s.log && !t.PlainStore?)
      || (t.TryPersist? && t.a < c.apps && s.apps[t.a].pc.Running? && s.flags[t.a] == NoConflict
             && s'.log == s.log + [Committing(s.apps[t.a], t.a)])
      || (t.PlainStore? && t.a < c.apps && s'.log == s.log + [Commit(t.a, true, [], [], [Access(t.addr, t.val)])])
  {
  }

  // -------------------------------------------------------------------- locks

  /** Across all services, a write lock on an address excludes every other node's lock on it. */
  lemma GlobalExclusion(c: Config, s: State, v: nat, w: nat, g: Hold, h: Hold)
    requires Reachable(c, s) && v < c.svcs && w < c.svcs
    requires g in s.svcs[v].holds && h in s.svcs[w].holds
    requires g.addr == h.addr && g.mode == Wr
    ensures v == w && g.node == h.node
  {
    ReachableInv(c, s);
    assert HoldsOk(c, v, s.svcs[v].holds) && HoldsOk(c, w, s.svcs[w].holds);
  }

  /** From its CAS until it publishes TX_COMMITTED, an attempt has a lock on all it read
      and a write lock on all it stores, and no service is about to take one away. */
  lemma LocksHeldWhilePersisting(c: Config, s: State, a: nat)
    requires Reachable(c, s) && a < c.apps && s.apps[a].pc.Persisting?
    ensures && (forall k | 0 <= k < |s.apps[a].ws| ::
                  Secured(s.svcs[c.route(s.apps[a].ws[k].addr)], a, Lock(s.apps[a].ws[k].addr, Wr)))
            && (forall k | 0 <= k < |s.apps[a].seen| ::
                  var x := s.apps[a].seen[k].addr;
                  Secured(s.svcs[c.route(x)], a, Lock(x, Rd)) || Secured(s.svcs[c.route(x)], a, Lock(x, Wr)))
  {
    ReachableInv(c, s);
    assert AppOk(s.apps[a]) && TwoPhaseOk(c, s.svcs, a, s.apps[a], s.flags[a]);
    forall k | 0 <= k < |s.apps[a].ws|
      ensures Secured(s.svcs[c.route(s.apps[a].ws[k].addr)], a, Lock(s.apps[a].ws[k].addr, Wr))
    {
      assert HasLock(s.apps[a], Lock(s.apps[a].ws[k].addr, Wr));
    }
    forall k | 0 <= k < |s.apps[a].seen|
      ensures var x := s.apps[a].seen[k].addr;
              Secured(s.svcs[c.route(x)], a, Lock(x, Rd)) || Secured(s.svcs[c.route(x)], a, Lock(x, Wr))
    {
      var x := s.apps[a].seen[k].addr;
      assert HasLock(s.apps[a], Lock(x, Rd)) || HasLock(s.apps[a], Lock(x, Wr));
    }
  }

  // ------------------------------------------------------------ the flag race

  ghost predicate AddsNoneOf(log: seq<Commit>, log': seq<Commit>, a: nat) {
    log <= log' && forall k | |log| <= k < |log'| && !log'[k].plain :: log'[k].node != a
  }

  /** The CAS race has one winner: once a service has set the flag of `a`, the attempt `a`
      is in never commits. */
  lemma {:induction false} AbortedNeverCommits(c: Config, states: seq<State>, steps: seq<Step>, a: nat, i: nat)
    requires IsTrace(c, states, steps) && Reachable(c, states[0]) && i <= |steps|
    requires a < c.apps && IsReason(states[0].flags[a]) && TxStart(a) !in steps[..i]
    ensures |states[i].flags| == c.apps && states[i].flags[a] == states[0].flags[a]
    ensures AddsNoneOf(states[0].log, states[i].log, a)
  {
    ReachableInv(c, states[0]);
    if i > 0 {
      assert steps[..i] == steps[..i - 1] + [steps[i - 1]];
      AbortedNeverCommits(c, states, steps, a, i - 1);
      TraceInv(c, states, steps, i - 1);
      assert StepAt(c, states, steps, i - 1);
      AbortedStays(c, states[i - 1], steps[i - 1], states[i], a);
    }
  }

  /** A raw read through a lock that is no longer on the service's table belongs to an
      attempt whose flag is already set: by the lemma above it never commits. */
  lemma ZombieReadIsDoomed(c: Config, s: State, a: nat, x: int)
    requires Reachable(c, s) && AppEnabled(c, s, RawRead(a, x))
    requires forall m :: Hold(a, x, m) !in s.svcs[c.route(x)].holds
    ensures IsReason(s.flags[a])
  {
    ReachableInv(c, s);
    assert FlagOk(s.apps[a].pc, s.flags[a]) && TwoPhaseOk(c, s.svcs, a, s.apps[a], s.flags[a]);
    assert HasLock(s.apps[a], Lock(x, Rd)) || HasLock(s.apps[a], Lock(x, Wr));
  }

  lemma AbortedStays(c: Config, s: State, t: Step, s': State, a: nat)
    requires Struct(c, s) && Next(c, s, t, s') && t != TxStart(a) && a < c.apps && IsReason(s.flags[a])
    ensures |s'.flags| == c.apps && s'.flags[a] == s.flags[a]
    ensures s'.log == s.log || exists e :: s'.log == s.log + [e] && (e.plain || e.node != a)
  {
    assert FlagOk(s.apps[a].pc, s.flags[a]);
    LogStep(c, s, t, s');
    if IsAppStep(t) {
      AppsLeaveReason(c, s, t, a);
    }
  }

  lemma AppsLeaveReason(c: Config, s: State, t: Step, a: nat)
    requires Struct(c, s) && IsAppStep(t) && AppEnabled(c, s, t) && t != TxStart(a) && a < c.apps && IsReason(s.flags[a])
    ensures ApplyApp(c, s, t).flags[a] == s.flags[a]
  {
    assert FlagOk(s.apps[a].pc, s.flags[a]);
  }

  ghost predicate LeftAlone(app: App, flag: Conflict, app': App, flag': Conflict, t: Step, a: nat)
    requires app.pc.Persisting?
  {
    || (app' == app && flag' == flag)
    || (t == PersistEntry(a) && app' == app.(pc := Persisting(app.pc.next + 1)) && flag' == flag)
    || (t == Publish(a) && app.pc.next == |app.ws| && flag' == TxCommitted)
  }

  /** ... and if the application won, no service's abort gets through before it has stored
      its whole write set and published TX_COMMITTED. */
  lemma WinnerIsLeftAlone(c: Config, s: State, t: Step, s': State, a: nat)
    requires Reachable(c, s) && Next(c, s, t, s') && a < c.apps && s.apps[a].pc.Persisting?
    ensures a < |s'.apps| == |s'.flags| && LeftAlone(s.apps[a], s.flags[a], s'.apps[a], s'.flags[a], t, a)
  {
    ReachableInv(c, s);
    if IsAppStep(t) {
      WinnerAndApps(c, s, t, a);
    } else {
      WinnerAndServices(c, s, t, a);
    }
  }

  lemma WinnerAndApps(c: Config, s: State, t: Step, a: nat)
    requires Struct(c, s) && Enabled(c, s, t) && IsAppStep(t) && a < c.apps && s.apps[a].pc.Persisting?
    ensures var s' := Apply(c, s, t);
            a < |s'.apps| == |s'.flags| && LeftAlone(s.apps[a], s.flags[a], s'.apps[a], s'.flags[a], t, a)
  {
    assert AppOk(s.apps[a]);
    if t.a != a {
      OnlyMoverChanges(c, s, t, a);
    }
  }

  lemma WinnerAndServices(c: Config, s: State, t: Step, a: nat)
    requires Struct(c, s) && Enabled(c, s, t) && !IsAppStep(t) && a < c.apps && s.apps[a].pc.Persisting?
    ensures var s' := Apply(c, s, t);
            a < |s'.apps| == |s'.flags| && LeftAlone(s.apps[a], s.flags[a], s'.apps[a], s'.flags[a], t, a)
  {
    assert FlagOk(s.apps[a].pc, s.flags[a]);
  }

  // ----------------------------------------------------------------- priority

  /** Every abort is made for an application that is blocked in a request and comes before
      the victim in the order of current priorities. */
  lemma VictimsAreBehind(c: Config, s: State, t: Step, s': State, d: nat)
    requires Reachable(c, s) && Next(c, s, t, s') && d < c.apps
    requires t.AbortNode? && t.v < c.svcs && s'.flags[d] != s.flags[d]
    ensures var pc := s.svcs[t.v].pc;
            && t.victim == d
            && pc.Evicting? && pc.sender < c.apps
            && s.apps[pc.sender].pc == Waiting(pc.addr, pc.mode, None)
            && (s.apps[pc.sender].prio < s.apps[d].prio ||
                (s.apps[pc.sender].prio == s.apps[d].prio && pc.sender < d))
            && s'.flags[d] == pc.reason
  {
    ReachableInv(c, s);
    var v := t.v;
    assert EvictOk(s.svcs[v]) && ServiceOk(c, v, s.svcs[v], s.apps);
    assert PrioOk(s.svcs[v].prios[d], s.svcs[v].inbox[d], s.apps[d]);
  }

  lemma OnlyServicesAbort(c: Config, s: State, t: Step, s': State, m: nat)
    requires Next(c, s, t, s') && m < c.apps == |s'.flags| && s'.flags[m] != s.flags[m] && IsReason(s'.flags[m])
    ensures t.AbortNode? && t.v < c.svcs
  {
  }

  /** Nobody ever sets the abort flag of an application whose priority is the lowest number,
      and whose id is the lowest among those with that number. */
  lemma LeastIsNeverVictim(c: Config, s: State, t: Step, s': State, m: nat)
    requires Reachable(c, s) && Next(c, s, t, s') && m < c.apps
    requires forall b | 0 <= b < c.apps :: s.apps[m].prio <= s.apps[b].prio
    requires forall b | 0 <= b < c.apps && s.apps[b].prio == s.apps[m].prio :: m <= b
    ensures m < |s'.flags| && (IsReason(s'.flags[m]) ==> s'.flags[m] == s.flags[m])
  {
    if IsReason(s'.flags[m]) && s'.flags[m] != s.flags[m] {
      ReachableInv(c, s);
      OnlyServicesAbort(c, s, t, s', m);
      VictimsAreBehind(c, s, t, s', m);
    }
  }

  // ----------------------------------------------------------------- refusals

  /** A refused request met a lock that is in its way, of a node that the service ranks before
      the sender -- or of the sender itself.  The refusal changes no flag and no holding.  The
      rank is the one the lock was acquired under, and the lock belongs to the holder's current
      attempt, which will release it, or its release is in the channel -- unless it was left
      behind by a release loop that passed the service by. */
  lemma RefusalIsJustified(c: Config, s: State, t: Step, s': State, v: nat, a: nat)
    returns (x: Hold)
    requires Reachable(c, s) && Next(c, s, t, s') && t == Serve(v, a)
    requires v < c.svcs && a < c.apps && |s.svcs[v].inbox[a]| > 0
    requires s.svcs[v].inbox[a][0].Request? && !Admitted(s, v, a)
    ensures var msg, d := s.svcs[v].inbox[a][0], x.node;
            && x in s.svcs[v].holds && x.addr == msg.addr && d < c.apps
            && (if msg.mode == Rd then x.mode == Wr else d != a)
            && (d == a || s.svcs[v].prios[d] < s.apps[a].prio || (s.svcs[v].prios[d] == s.apps[a].prio && d < a))
            && s'.flags == s.flags && s'.svcs[v].holds == s.svcs[v].holds
            && if x in s.under then
                 && s.svcs[v].prios[d] == s.under[x]
                 && (ReleaseUnderway(s.svcs[v].inbox[d]) ||
                     (WillRelease(c, v, s.apps[d]) && HasLock(s.apps[d], Lock(x.addr, x.mode))
                         && s.apps[d].prio == s.under[x]))
               else
                 (d, v) in s.skipped || ReleaseUnderway(s.svcs[v].inbox[d])
  {
    var svc := s.svcs[v];
    var msg := svc.inbox[a][0];
    ReachableInv(c, s);
    assert ChannelOk(c, v, svc.inbox[a], s.apps[a]);
    var d :| d in Blockers(svc.holds, a, msg.addr, msg.mode) && !Before(msg.prio, a, Taken(svc, a).prios[d], d);
    x :| x in svc.holds && x.addr == msg.addr && (if msg.mode == Rd then x.mode == Wr else x.node != a) && x.node == d;
    assert LeakOk(c, v, svc, d, s.apps[d], s.skipped, s.under);
  }

  /** The application first in the priority order is only ever refused because of a lock that
      was left behind, or whose attempt is over and whose release is already in the channel. */
  lemma LeastIsRefusedOnlyByLeftovers(c: Config, s: State, t: Step, s': State, v: nat, m: nat)
    returns (x: Hold)
    requires Reachable(c, s) && Next(c, s, t, s') && t == Serve(v, m)
    requires v < c.svcs && m < c.apps && |s.svcs[v].inbox[m]| > 0
    requires s.svcs[v].inbox[m][0].Request? && !Admitted(s, v, m)
    requires forall b | 0 <= b < c.apps :: s.apps[m].prio <= s.apps[b].prio
    requires forall b | 0 <= b < c.apps && s.apps[b].prio == s.apps[m].prio :: m <= b
    ensures x in s.svcs[v].holds && x.addr == s.svcs[v].inbox[m][0].addr && x.node < c.apps
    ensures || x.node == m
            || (x !in s.under && (x.node, v) in s.skipped)
            || (ReleaseUnderway(s.svcs[v].inbox[x.node]) && s.svcs[v].prios[x.node] < s.apps[x.node].prio)
  {
    x := RefusalIsJustified(c, s, t, s', v, m);
  }

  // -------------------------------------------------------------------- leaks

  /** Once an application is between transactions and its messages are consumed, no
      service holds a lock for it and its counters are zero again -- unless the release loop
      passed the service by when it last had something to release there. */
  lemma NoLeaks(c: Config, s: State, v: nat, a: nat)
    requires Reachable(c, s) && v < c.svcs && a < c.apps
    requires s.apps[a].pc.Idle? && s.svcs[v].inbox[a] == [] && s.svcs[v].pc.Ready?
    ensures s.apps[a].contacted[v] == 0
    ensures (a, v) !in s.skipped ==> forall x | x in s.svcs[v].holds :: x.node != a
  {
    ReachableInv(c, s);
    assert CountOk(c, s.apps[a]) && LeakOk(c, v, s.svcs[v], a, s.apps[a], s.skipped, s.under);
  }

  /** One round of the release loop: it passes the service by exactly when the attempt sent it a
      multiple of 65536 requests; otherwise all that is left there is released with this
      attempt's locks. */
  lemma SkippedExactly(c: Config, s: State, t: Step, s': State, a: nat)
    requires Reachable(c, s) && Next(c, s, t, s') && t == Release(a) && a < c.apps && s.apps[a].pc.Releasing?
    ensures s.apps[a].pc.next < c.svcs
    ensures var v, n := s.apps[a].pc.next, s.apps[a].sent[s.apps[a].pc.next];
            && ((a, v) in s'.skipped <==> n % CONTACT_LIMIT == 0 && (n > 0 || (a, v) in s.skipped))
            && (n % CONTACT_LIMIT != 0 ==> ReleaseUnderway(s'.svcs[v].inbox[a]))
            && (n % CONTACT_LIMIT == 0 ==> s'.svcs == s.svcs)
            && (forall x | x in s.under && x !in s'.under :: x in s.svcs[v].holds && x.node == a && (a, v) in s'.skipped)
  {
    ReachableInv(c, s);
    assert CountOk(c, s.apps[a]);
    var v := s.apps[a].pc.next;
    var q := s.svcs[v].inbox[a];
    assert RemoveNode(s.apps[a].prio) in q + [RemoveNode(s.apps[a].prio)];
  }

  ghost predicate FewRequests(s: State) {
    forall a, v | 0 <= a < |s.apps| && 0 <= v < |s.apps[a].sent| :: s.apps[a].sent[v] < CONTACT_LIMIT
  }

  lemma OnlyReleaseSkips(c: Config, s: State, t: Step)
    requires WellFormed(c, s) && ValidConfig(c) && Enabled(c, s, t) && !t.Release?
    ensures Apply(c, s, t).skipped == s.skipped
  {
  }

  lemma FewAreNotSkipped(c: Config, s: State, t: Step, s': State)
    requires Inv(c, s) && Next(c, s, t, s') && FewRequests(s)
    ensures s'.skipped <= s.skipped
  {
    if t.Release? {
      assert CountOk(c, s.apps[t.a]);
    } else {
      OnlyReleaseSkips(c, s, t);
    }
  }

  /** So in a run in which no attempt sends 65536 requests to a service, nothing is ever left
      behind. */
  lemma {:induction false} NothingSkipped(c: Config, states: seq<State>, steps: seq<Step>, i: nat)
    requires IsTrace(c, states, steps) && ValidConfig(c) && Init(c, states[0]) && i <= |steps|
    requires forall k | 0 <= k < i :: FewRequests(states[k])
    ensures Inv(c, states[i]) && states[i].skipped == {}
  {
    InitInv(c, states[0]);
    TraceInv(c, states, steps, i);
    if i > 0 {
      NothingSkipped(c, states, steps, i - 1);
      assert StepAt(c, states, steps, i - 1);
      FewAreNotSkipped(c, states[i - 1], steps[i - 1], states[i]);
    }
  }

  // ----------------------------------------------------------------- progress

  /** A service spins only on a victim that is storing its write set or about to publish,
      which needs no service. */
  lemma SpinningIsOnPersisters(c: Config, s: State, v: nat, d: nat)
    requires Reachable(c, s) && SvcEnabled(c, s, AbortNode(v, d))
    requires DoAbortNode(s, v, d) == s
    ensures s.apps[d].pc.Persisting?
    ensures AppEnabled(c, s, PersistEntry(d)) || AppEnabled(c, s, Publish(d))
  {
    ReachableInv(c, s);
    assert FlagOk(s.apps[d].pc, s.flags[d]);
  }

  /** The steps a service has left before it is ready for the next message. */
  function Work(pc: SvcPc): nat {
    match pc
    case Ready => 0
    case Evicting(_, _, _, _, todo) => 2 * |todo| + 1
    case Purging(_, _, _, _, todo, _) => 2 * |todo| + 2
    case PurgingSelf(_) => 1
  }

  /** Serving a request takes a bounded number of steps: each step of the busy service that
      is not a spin brings it closer to the end, and nobody else holds it up. */
  lemma ServingIsBounded(c: Config, s: State, t: Step, s': State, v: nat)
    requires Reachable(c, s) && Next(c, s, t, s') && v < c.svcs && !s.svcs[v].pc.Ready?
    ensures v < |s'.svcs|
    ensures if !IsAppStep(t) && t.v == v
            then s' == s || Work(s'.svcs[v].pc) < Work(s.svcs[v].pc)
            else s'.svcs[v].pc == s.svcs[v].pc
  {
    ReachableInv(c, s);
    if IsAppStep(t) {
      AppsLeaveServices(c, s, t, v);
    } else if t.v == v {
      ServiceWorks(c, s, t);
    } else {
      ServicesLeaveServices(c, s, t, v);
    }
  }

  lemma ServiceWorks(c: Config, s: State, t: Step)
    requires Inv(c, s) && !IsAppStep(t) && Enabled(c, s, t) && !s.svcs[t.v].pc.Ready?
    ensures var s' := Apply(c, s, t);
            t.v < |s'.svcs| && (s' == s || Work(s'.svcs[t.v].pc) < Work(s.svcs[t.v].pc))
  {
    assert EvictOk(s.svcs[t.v]);
    if t.AbortNode? {
      AbortingWorks(c, s, t.v, t.victim);
    }
  }

  lemma AbortingWorks(c: Config, s: State, v: nat, d: nat)
    requires WellFormed(c, s) && SvcEnabled(c, s, AbortNode(v, d))
    ensures var s' := DoAbortNode(s, v, d); s' == s || Work(s'.svcs[v].pc) < Work(s.svcs[v].pc)
  {
    var todo := s.svcs[v].pc.todo;
    assert |todo - {d}| == |todo| - 1;
  }

  lemma ServicesLeaveServices(c: Config, s: State, t: Step, v: nat)
    requires WellFormed(c, s) && ValidConfig(c) && !IsAppStep(t) && Enabled(c, s, t) && v < c.svcs && v != t.v
    ensures v < |Apply(c, s, t).svcs| && Apply(c, s, t).svcs[v].pc == s.svcs[v].pc
  {
  }

  lemma AppsLeaveServices(c: Config, s: State, t: Step, v: nat)
    requires WellFormed(c, s) && ValidConfig(c) && IsAppStep(t) && AppEnabled(c, s, t) && v < c.svcs
    ensures v < |Apply(c, s, t).svcs| && Apply(c, s, t).svcs[v].pc == s.svcs[v].pc
  {
  }

  /** The service that `app` waits for. */
  function Awaited(c: Config, app: App): nat
    requires app.pc.Waiting?
  {
    c.route(app.pc.addr)
  }

  predicate Blocked(app: App) { app.pc.Waiting? && app.pc.reply == None }

  /** `t` is a step of service `v` that changes its state, or of a victim that it spins on. */
  ghost predicate Unblocks(c: Config, s: State, t: Step, v: nat)
    requires WellFormed(c, s) && ValidConfig(c) && Enabled(c, s, t) && v < c.svcs
  {
    if IsAppStep(t) then
      s.svcs[v].pc.Evicting? && t.a in s.svcs[v].pc.todo && s.apps[t.a].pc.Persisting?
          && Apply(c, s, t).apps[t.a] != s.apps[t.a]
    else
      t.v == v && Apply(c, s, t).svcs[v] != s.svcs[v]
  }

  /** No stuck state: an application in a transaction can go on, or else it is blocked in a
      request and the service can, or a persisting victim that the service spins on can. */
  lemma NoStuckState(c: Config, s: State, a: nat) returns (t: Step)
    requires Reachable(c, s) && a < c.apps && !s.apps[a].pc.Idle?
    ensures Enabled(c, s, t)
    ensures if Blocked(s.apps[a]) then Awaited(c, s.apps[a]) < c.svcs && Unblocks(c, s, t, Awaited(c, s.apps[a]))
            else IsAppStep(t) && t.a == a && Apply(c, s, t).apps[a] != s.apps[a]
  {
    ReachableInv(c, s);
    if Blocked(s.apps[a]) {
      t := ServiceMoves(c, s, a);
    } else {
      t := AppMoves(c, s, a);
    }
  }

  lemma AppMoves(c: Config, s: State, a: nat) returns (t: Step)
    requires Inv(c, s) && a < c.apps && !s.apps[a].pc.Idle?
    requires s.apps[a].pc.Waiting? ==> s.apps[a].pc.reply != None
    ensures IsAppStep(t) && t.a == a && AppEnabled(c, s, t) && Apply(c, s, t).apps[a] != s.apps[a]
  {
    var app := s.apps[a];
    match app.pc
    case Running => t := CheckAborted(a);
    case Cleared =>
      var x := Fresh(app.ws);
      t := Insert(a, x, 0);
    case Waiting(_, _, _) => t := Receive(a);
    case _ => t := EndMoves(c, s, a);
  }

  lemma EndMoves(c: Config, s: State, a: nat) returns (t: Step)
    requires Inv(c, s) && a < c.apps && (s.apps[a].pc.Persisting? || s.apps[a].pc.Releasing?)
    ensures EndsAttempt(t) && t.a == a && AppEnabled(c, s, t) && ApplyEnd(c, s, t).apps[a] != s.apps[a]
  {
    var app := s.apps[a];
    match app.pc
    case Persisting(k) => t := if k < |app.ws| then PersistEntry(a) else Publish(a);
    case Releasing(k, _) => t := if k < c.svcs then Release(a) else Finish(a, app.prio);
  }

  lemma {:induction false} Fresh(ws: seq<Access>) returns (x: int)
    ensures forall i | 0 <= i < |ws| :: ws[i].addr < x
  {
    x := 0;
    if ws != [] {
      x := Fresh(ws[1..]);
      x := if ws[0].addr < x then x else ws[0].addr + 1;
      assert forall i | 1 <= i < |ws| :: ws[i] == ws[1..][i - 1];
    }
  }

  lemma ServiceMoves(c: Config, s: State, a: nat) returns (t: Step)
    requires Inv(c, s) && a < c.apps && Blocked(s.apps[a])
    ensures Enabled(c, s, t) && Awaited(c, s.apps[a]) < c.svcs && Unblocks(c, s, t, Awaited(c, s.apps[a]))
  {
    var v := Awaited(c, s.apps[a]);
    var svc := s.svcs[v];
    assert AwaitOk(c, s.svcs, a, s.apps[a]) && EvictOk(svc) && ServiceOk(c, v, svc, s.apps);
    match svc.pc
    case Ready =>
      t := Serve(v, a);
      assert |Taken(svc, a).inbox[a]| < |svc.inbox[a]|;
    case Purging(_, _, _, _, _, _) => t := DeleteNode(v);
    case PurgingSelf(_) => t := DeleteSelf(v);
    case Evicting(b, _, _, _, todo) =>
      if todo == {} {
        t := Grant(v);
      } else {
        t := EvictionMoves(c, s, v);
      }
  }

  lemma EvictionMoves(c: Config, s: State, v: nat) returns (t: Step)
    requires Inv(c, s) && v < c.svcs && s.svcs[v].pc.Evicting? && s.svcs[v].pc.todo != {}
    ensures Enabled(c, s, t) && Unblocks(c, s, t, v)
  {
    assert EvictOk(s.svcs[v]);
    var d := LeastOf(s.svcs[v].pc.todo);
    if s.flags[d] == PersistingWrites {
      assert FlagOk(s.apps[d].pc, s.flags[d]);
      t := AppMoves(c, s, d);
    } else {
      t := AbortNode(v, d);
    }
  }

  lemma LeastOf(t: set<nat>) returns (d: nat)
    requires t != {}
    ensures d in t && forall e | e in t :: d <= e
  {
    var m :| m in t;
    var u := set x | x in t && x < m;
    if u == {} {
      d := m;
      assert forall e | e in t && e < m :: e in u;
    } else {
      assert m !in u;
      d := LeastOf(u);
      assert forall e | e in t && e < m :: e in u;
    }
  }

  // ---------------------------------------------------------- who waits for whom

  datatype Party = Application(a: nat) | Service(v: nat)

  /** A blocked application waits for the service of its request, a service for the victims
      that it cannot abort because they are persisting. */
  ghost predicate WaitsFor(c: Config, s: State, p: Party, q: Party)
    requires WellFormed(c, s)
  {
    match (p, q)
    case (Application(a), Service(v)) => a < c.apps && Blocked(s.apps[a]) && v == Awaited(c, s.apps[a])
    case (Service(v), Application(d)) =>
      v < c.svcs && d < c.apps && s.svcs[v].pc.Evicting? && d in s.svcs[v].pc.todo && s.flags[d] == PersistingWrites
    case _ => false
  }

  ghost predicate IsWaitPath(c: Config, s: State, path: seq<Party>)
    requires WellFormed(c, s)
  {
    forall i | 0 <= i < |path| - 1 :: WaitsFor(c, s, path[i], path[i + 1])
  }

  /** Waiting is acyclic in every reachable state: a path goes from an application to a service
      to a victim, and ends there. */
  lemma WaitingEnds(c: Config, s: State, path: seq<Party>)
    requires Reachable(c, s) && IsWaitPath(c, s, path)
    ensures |path| <= 3
    ensures forall i, j | 0 <= i < j < |path| :: path[i] != path[j]
  {
    ReachableInv(c, s);
    if |path| >= 2 {
      assert WaitsFor(c, s, path[0], path[1]);
    }
    if |path| >= 3 {
      SecondIsService(c, s, path, 0);
      assert WaitsFor(c, s, path[1], path[2]);
      VictimWaitsForNobody(c, s, path[1], path[2], path[1]);
    }
    if |path| >= 4 {
      SecondIsService(c, s, path, 1);
    }
  }

  lemma SecondIsService(c: Config, s: State, path: seq<Party>, i: nat)
    requires Inv(c, s) && IsWaitPath(c, s, path) && i + 2 < |path|
    ensures path[i + 1].Service?
  {
    assert WaitsFor(c, s, path[i], path[i + 1]) && WaitsFor(c, s, path[i + 1], path[i + 2]);
    if path[i].Service? {
      VictimWaitsForNobody(c, s, path[i], path[i + 1], path[i + 2]);
    }
  }

  lemma VictimWaitsForNobody(c: Config, s: State, p: Party, d: Party, q: Party)
    requires Inv(c, s) && p.Service? && WaitsFor(c, s, p, d)
    ensures !WaitsFor(c, s, d, q)
  {
    assert FlagOk(s.apps[d.a].pc, s.flags[d.a]);
  }
}
