/** The counted lock table of this build serves the protocol: over every run in which no attempt
    asks twice for a write lock, or sends a service 65536 requests, each service could keep its
    locks in such a table. */
module ServiceRuns {
  import opened Locks
  import opened Protocol
  import opened Invariant
  import opened Accounting
  import opened Runs
  import opened Theorems
  import opened SlotSpec
  import opened ServiceRefinement
  import S = Service

  function AsRequest(m: Msg): S.Request {
    match m
    case Request(x, Rd, _) => S.Load(x)
    case Request(x, Wr, _) => S.Store(x)
    case RemoveNode(_) => S.RmvNode
  }

  // ------------------------------------------------- what a service is asked for

  /** A request at the head of a channel is for a lock that the service has recorded for the
      sender only if the attempt was granted it -- and, as long as the attempt is not aborted,
      exactly then. */
  lemma RequestedAgainExactly(c: Config, s: State, v: nat, a: nat, m: Mode)
    requires Reachable(c, s) && v < c.svcs && a < c.apps && s.svcs[v].pc.Ready? && (a, v) !in s.skipped
    requires |s.svcs[v].inbox[a]| > 0 && s.svcs[v].inbox[a][0].Request?
    ensures var x := s.svcs[v].inbox[a][0].addr;
            && (Hold(a, x, m) in s.svcs[v].holds ==> Lock(x, m) in s.apps[a].granted)
            && (s.flags[a] == NoConflict && Lock(x, m) in s.apps[a].granted ==> Hold(a, x, m) in s.svcs[v].holds)
  {
    ReachableInv(c, s);
    HeldIsGranted(c, s, v, a, m);
  }

  lemma HeldIsGranted(c: Config, s: State, v: nat, a: nat, m: Mode)
    requires Inv(c, s) && v < c.svcs && a < c.apps && s.svcs[v].pc.Ready? && (a, v) !in s.skipped
    requires |s.svcs[v].inbox[a]| > 0 && s.svcs[v].inbox[a][0].Request?
    ensures var x := s.svcs[v].inbox[a][0].addr;
            && (Hold(a, x, m) in s.svcs[v].holds ==> Lock(x, m) in s.apps[a].granted)
            && (s.flags[a] == NoConflict && Lock(x, m) in s.apps[a].granted ==> Hold(a, x, m) in s.svcs[v].holds)
  {
    assert ChannelOk(c, v, s.svcs[v].inbox[a], s.apps[a]) && LeakOk(c, v, s.svcs[v], a, s.apps[a], s.skipped, s.under);
    assert TwoPhaseOk(c, s.svcs, a, s.apps[a], s.flags[a]);
  }

  // ------------------------------------------------------------------ runs

  /** The transactions of the run use no address 0, and ask for a write lock once in an attempt. */
  ghost predicate AsksWell(s: State, t: Step) {
    t.Send? ==> t.addr != 0 && t.a < |s.apps| && (t.mode == Wr ==> Lock(t.addr, Wr) !in s.apps[t.a].granted)
  }

  ghost predicate WellBehaved(c: Config, states: seq<State>, steps: seq<Step>) {
    && IsTrace(c, states, steps) && ValidConfig(c) && Init(c, states[0]) && c.apps <= NO_WRITER
    && (forall i | 0 <= i < |steps| :: AsksWell(states[i], steps[i]))
    && (forall i | 0 <= i < |steps| :: FewRequests(states[i]))
  }

  lemma RunInv(c: Config, states: seq<State>, steps: seq<Step>, i: nat)
    requires WellBehaved(c, states, steps) && i <= |steps|
    ensures Inv(c, states[i]) && states[i].skipped == {}
  {
    NothingSkipped(c, states, steps, i);
  }

  ghost predicate AsksForNew(app: App) {
    Blocked(app) ==> app.pc.addr != 0 && (app.pc.mode == Wr ==> Lock(app.pc.addr, Wr) !in app.granted)
  }

  lemma StillAsksForNew(c: Config, s: State, t: Step, s': State, a: nat)
    requires Next(c, s, t, s') && a < c.apps && AsksForNew(s.apps[a]) && AsksWell(s, t)
    ensures a < |s'.apps| && AsksForNew(s'.apps[a])
  {
    if !IsAppStep(t) {
      ServicesAskNothing(c, s, t, a);
    }
  }

  lemma ServicesAskNothing(c: Config, s: State, t: Step, a: nat)
    requires WellFormed(c, s) && !IsAppStep(t) && SvcEnabled(c, s, t) && a < c.apps && AsksForNew(s.apps[a])
    ensures AsksForNew(ApplySvc(c, s, t).apps[a])
  {
  }

  lemma {:induction false} AlwaysAsksForNew(c: Config, states: seq<State>, steps: seq<Step>, i: nat, a: nat)
    requires WellBehaved(c, states, steps) && i <= |steps| && a < c.apps
    ensures a < |states[i].apps| && AsksForNew(states[i].apps[a])
  {
    if i > 0 {
      AlwaysAsksForNew(c, states, steps, i - 1, a);
      assert StepAt(c, states, steps, i - 1);
      StillAsksForNew(c, states[i - 1], steps[i - 1], states[i], a);
    }
  }

  /** Every message that a service takes in such a run is one that its counted table can cope with. */
  lemma EveryMessageIsExpected(c: Config, states: seq<State>, steps: seq<Step>, i: nat)
    requires WellBehaved(c, states, steps) && i < |steps| && steps[i].Serve?
    ensures var s, v, a := states[i], steps[i].v, steps[i].a;
            && v < |s.svcs| && a < |s.svcs[v].inbox| && |s.svcs[v].inbox[a]| > 0
            && var req := AsRequest(s.svcs[v].inbox[a][0]);
            S.Expected(s.svcs[v].holds, a, req) && S.Addressed(req)
  {
    var s, v, a := states[i], steps[i].v, steps[i].a;
    RunInv(c, states, steps, i);
    assert StepAt(c, states, steps, i);
    AlwaysAsksForNew(c, states, steps, i, a);
    if s.svcs[v].inbox[a][0].Request? {
      assert ChannelOk(c, v, s.svcs[v].inbox[a], s.apps[a]);
      HeldIsGranted(c, s, v, a, Wr);
    }
  }

  // ------------------------------------------------------ rounds of one service

  /** The message that service `v` takes in a step, if it takes one. */
  ghost function TakenIn(s: State, t: Step, v: nat): seq<(nat, Msg)> {
    if t.Serve? && t.v == v && v < |s.svcs| && t.a < |s.svcs[v].inbox| && |s.svcs[v].inbox[t.a]| > 0
    then [(t.a, s.svcs[v].inbox[t.a][0])]
    else []
  }

  ghost function TookOf(c: Config, states: seq<State>, steps: seq<Step>, v: nat): (r: seq<seq<(nat, Msg)>>)
    requires Shaped(c, states, steps, v)
    ensures |r| == |steps| && forall k {:trigger r[k]} | 0 <= k < |steps| :: r[k] == TakenIn(states[k], steps[k], v)
  {
    seq(|steps|, k requires 0 <= k < |steps| => TakenIn(states[k], steps[k], v))
  }

  /** The messages that service `v` has taken in the first `n` steps. */
  ghost function Took(c: Config, states: seq<State>, steps: seq<Step>, v: nat, n: nat): seq<(nat, Msg)>
    requires Shaped(c, states, steps, v) && n <= |steps|
  {
    Flat(TookOf(c, states, steps, v), 0, n)
  }

  /** Two moments between which the service only waited. */
  ghost predicate Rests(svc: Svc, svc': Svc) {
    svc.pc.Ready? && svc'.pc.Ready? && svc'.holds == svc.holds && svc'.prios == svc.prios
  }

  lemma RestingStep(c: Config, s: State, t: Step, s': State, v: nat)
    requires Next(c, s, t, s') && v < c.svcs && s.svcs[v].pc.Ready? && !(t.Serve? && t.v == v)
    ensures Rests(s.svcs[v], s'.svcs[v]) && Called(s.svcs[v], t, s'.svcs[v], v) == []
  {
    OthersLeaveService(c, s, t, v);
  }

  lemma StepWhenReady(c: Config, states: seq<State>, steps: seq<Step>, v: nat, k: nat)
    requires Shaped(c, states, steps, v) && k < |steps| && states[k].svcs[v].pc.Ready?
    ensures if steps[k].Serve? && steps[k].v == v then
              |Took(c, states, steps, v, k + 1)| == |Took(c, states, steps, v, k)| + 1
            else
              && Rests(states[k].svcs[v], states[k + 1].svcs[v])
              && Took(c, states, steps, v, k + 1) == Took(c, states, steps, v, k)
              && Calls(c, states, steps, v, 0, k + 1) == Calls(c, states, steps, v, 0, k)
  {
    assert StepAt(c, states, steps, k);
    if !(steps[k].Serve? && steps[k].v == v) {
      RestingStep(c, states[k], steps[k], states[k + 1], v);
    }
  }

  /** The next message that a ready service takes. */
  lemma {:induction false} NextServe(c: Config, states: seq<State>, steps: seq<Step>, v: nat, k: nat) returns (i: nat)
    requires Shaped(c, states, steps, v) && k <= |steps| && states[k].svcs[v].pc.Ready?
    requires |Took(c, states, steps, v, k)| < |Took(c, states, steps, v, |steps|)|
    ensures k <= i < |steps| && steps[i].Serve? && steps[i].v == v && Rests(states[k].svcs[v], states[i].svcs[v])
    ensures Took(c, states, steps, v, i) == Took(c, states, steps, v, k)
    ensures Calls(c, states, steps, v, 0, i) == Calls(c, states, steps, v, 0, k)
    decreases |steps| - k
  {
    if steps[k].Serve? && steps[k].v == v {
      i := k;
    } else {
      StepWhenReady(c, states, steps, v, k);
      i := NextServe(c, states, steps, v, k + 1);
    }
  }

  ghost predicate BusyBetween(c: Config, states: seq<State>, steps: seq<Step>, v: nat, i: nat, j: nat)
    requires Shaped(c, states, steps, v) && j < |states|
  {
    forall k | i < k < j :: !states[k].svcs[v].pc.Ready?
  }

  lemma {:induction false} FirstReady(c: Config, states: seq<State>, steps: seq<Step>, v: nat, i: nat, k: nat)
    returns (j: nat)
    requires Shaped(c, states, steps, v) && i < k <= |steps| && states[|steps|].svcs[v].pc.Ready?
    requires BusyBetween(c, states, steps, v, i, k)
    ensures k <= j <= |steps| && states[j].svcs[v].pc.Ready? && BusyBetween(c, states, steps, v, i, j)
    decreases |steps| - k
  {
    if states[k].svcs[v].pc.Ready? {
      j := k;
    } else {
      j := FirstReady(c, states, steps, v, i, k + 1);
    }
  }

  /** A busy service takes no message and notes no priority. */
  lemma BusyStep(c: Config, s: State, t: Step, s': State, v: nat)
    requires Next(c, s, t, s') && v < c.svcs && !s.svcs[v].pc.Ready?
    ensures s'.svcs[v].prios == s.svcs[v].prios && !(t.Serve? && t.v == v)
  {
    if IsAppStep(t) || t.v != v {
      OthersLeaveService(c, s, t, v);
    }
  }

  lemma {:induction false} BusyKeeps(c: Config, states: seq<State>, steps: seq<Step>, v: nat, i: nat, k: nat)
    requires Shaped(c, states, steps, v) && i < k <= |steps| && BusyBetween(c, states, steps, v, i, k)
    ensures states[k].svcs[v].prios == states[i + 1].svcs[v].prios
  {
    if k > i + 1 {
      BusyKeeps(c, states, steps, v, i, k - 1);
      assert StepAt(c, states, steps, k - 1);
      BusyStep(c, states[k - 1], steps[k - 1], states[k], v);
    }
  }

  lemma BusyTakesNone(c: Config, states: seq<State>, steps: seq<Step>, v: nat, i: nat, k: nat)
    requires Shaped(c, states, steps, v) && i < k <= |steps| && BusyBetween(c, states, steps, v, i, k)
    ensures Took(c, states, steps, v, k) == Took(c, states, steps, v, i + 1)
  {
    var ss := TookOf(c, states, steps, v);
    forall j | i + 1 <= j < k ensures ss[j] == [] {
      assert StepAt(c, states, steps, j);
      BusyStep(c, states[j], steps[j], states[j + 1], v);
    }
    FlatSplit(ss, 0, i + 1, k);
    FlatNone(ss, i + 1, k);
  }

  /** What one round -- from taking message `msg` of `a` to being ready again -- does to holdings and
      priorities, and the calls of abort_node it makes. */
  ghost predicate RoundDid(svc: Svc, a: nat, msg: Msg, svc': Svc, calls: seq<Abort>)
    requires a < |svc.prios| && forall x | x in svc.holds :: x.node < |svc.prios|
  {
    && svc'.prios == svc.prios[a := msg.prio]
    && match msg
       case RemoveNode(_) => svc'.holds == Without(svc.holds, {a}) && calls == []
       case Request(x, m, _) =>
         var d := Decision(svc.holds, svc'.prios, a, x, m);
         svc'.holds == Kept(d.holds, a, d.reply) && calls == d.calls
  }

  lemma RemoveRound(c: Config, states: seq<State>, steps: seq<Step>, v: nat, a: nat, i: nat, j: nat)
    requires WellBehaved(c, states, steps) && Shaped(c, states, steps, v) && a < c.apps && i < j <= |steps|
    requires Inv(c, states[i]) && steps[i] == Serve(v, a) && |states[i].svcs[v].inbox[a]| > 0
             && states[i].svcs[v].inbox[a][0].RemoveNode?
    requires BusyBetween(c, states, steps, v, i, j)
    ensures j == i + 1
    ensures RoundDid(states[i].svcs[v], a, states[i].svcs[v].inbox[a][0], states[j].svcs[v],
                     Calls(c, states, steps, v, i, j))
  {
    assert StepAt(c, states, steps, i);
    assert states[i + 1].svcs[v].pc.Ready?;
    assert Calls(c, states, steps, v, i, i) == [];
  }

  lemma RefusedRound(c: Config, states: seq<State>, steps: seq<Step>, v: nat, a: nat, i: nat, j: nat)
    requires WellBehaved(c, states, steps) && Shaped(c, states, steps, v) && a < c.apps && i < j <= |steps|
    requires Inv(c, states[i]) && steps[i] == Serve(v, a) && |states[i].svcs[v].inbox[a]| > 0
             && states[i].svcs[v].inbox[a][0].Request? && !Admitted(states[i], v, a)
    requires BusyBetween(c, states, steps, v, i, j) && states[j].svcs[v].pc.Ready?
    ensures RoundDid(states[i].svcs[v], a, states[i].svcs[v].inbox[a][0], states[j].svcs[v],
                     Calls(c, states, steps, v, i, j))
  {
    var s, msg := states[i], states[i].svcs[v].inbox[a][0];
    assert StepAt(c, states, steps, i);
    RefusedAsOneInsert(c, s, v, a, states[i + 1]);
    PurgesSelf(c, states, steps, v, a, i, j);
    NoCallsThen(c, states, steps, v, a, i, j);
    BusyKeeps(c, states, steps, v, i, j);
  }

  /** What a service that purges the refused sender may come to. */
  ghost predicate PurgedOnce(svc: Svc, svc': Svc, a: nat) {
    if svc'.pc.Ready? then svc'.holds == Without(svc.holds, {a}) else svc'.pc == svc.pc && svc'.holds == svc.holds
  }

  /** While it purges the refused sender, nothing else happens at a service. */
  lemma {:induction false} PurgesSelf(c: Config, states: seq<State>, steps: seq<Step>, v: nat, a: nat, i: nat, k: nat)
    requires Shaped(c, states, steps, v) && i < k <= |steps| && BusyBetween(c, states, steps, v, i, k)
    requires states[i + 1].svcs[v].pc == PurgingSelf(a)
    ensures PurgedOnce(states[i + 1].svcs[v], states[k].svcs[v], a)
  {
    if k > i + 1 {
      PurgesSelf(c, states, steps, v, a, i, k - 1);
      assert StepAt(c, states, steps, k - 1);
      PurgingStep(c, states[k - 1], steps[k - 1], states[k], v);
    }
  }

  lemma NoCallsThen(c: Config, states: seq<State>, steps: seq<Step>, v: nat, a: nat, i: nat, j: nat)
    requires Shaped(c, states, steps, v) && i < j <= |steps| && BusyBetween(c, states, steps, v, i, j)
    requires states[i + 1].svcs[v].pc == PurgingSelf(a) && steps[i].Serve?
    ensures Calls(c, states, steps, v, i, j) == []
  {
    var ss := CallsOf(c, states, steps, v);
    forall k | i <= k < j ensures ss[k] == [] {
      if k > i {
        PurgesSelf(c, states, steps, v, a, i, k);
        assert StepAt(c, states, steps, k);
        PurgingStep(c, states[k], steps[k], states[k + 1], v);
      }
    }
    FlatNone(ss, i, j);
  }

  lemma PurgingStep(c: Config, s: State, t: Step, s': State, v: nat)
    requires Next(c, s, t, s') && v < c.svcs && s.svcs[v].pc.PurgingSelf?
    ensures Called(s.svcs[v], t, s'.svcs[v], v) == []
    ensures var svc, svc' := s.svcs[v], s'.svcs[v];
            if svc'.pc.Ready? then svc'.holds == Without(svc.holds, {svc.pc.node})
            else svc'.pc == svc.pc && svc'.holds == svc.holds
  {
    if IsAppStep(t) || t.v != v {
      OthersLeaveService(c, s, t, v);
    }
  }

  lemma BecomesReady(c: Config, s: State, t: Step, s': State, v: nat)
    requires Next(c, s, t, s') && v < c.svcs && !s.svcs[v].pc.Ready? && s'.svcs[v].pc.Ready?
    ensures t == Grant(v) || (t == DeleteSelf(v) && s.svcs[v].pc.PurgingSelf?)
  {
    if IsAppStep(t) || t.v != v {
      OthersLeaveService(c, s, t, v);
    }
  }

  lemma {:induction false} NoGrantInside(c: Config, states: seq<State>, steps: seq<Step>, v: nat, i: nat, j: nat, k: nat)
    requires Shaped(c, states, steps, v) && i < k < j < |states| && BusyBetween(c, states, steps, v, i, j)
             && k + 1 < j
    ensures steps[k] != Grant(v)
  {
    assert StepAt(c, states, steps, k) && !states[k + 1].svcs[v].pc.Ready?;
  }

  lemma AdmittedRound(c: Config, states: seq<State>, steps: seq<Step>, v: nat, a: nat, i: nat, j: nat)
    requires WellBehaved(c, states, steps) && Shaped(c, states, steps, v) && a < c.apps && i < j <= |steps|
    requires Inv(c, states[i]) && steps[i] == Serve(v, a) && |states[i].svcs[v].inbox[a]| > 0
             && states[i].svcs[v].inbox[a][0].Request? && Admitted(states[i], v, a)
    requires BusyBetween(c, states, steps, v, i, j) && states[j].svcs[v].pc.Ready?
    ensures RoundDid(states[i].svcs[v], a, states[i].svcs[v].inbox[a][0], states[j].svcs[v],
                     Calls(c, states, steps, v, i, j))
  {
    var s, msg := states[i], states[i].svcs[v].inbox[a][0];
    assert StepAt(c, states, steps, i);
    BusyKeeps(c, states, steps, v, i, j);
    EndsInGrant(c, states, steps, v, i, j);
    AdmittedIsDecided(c, states, steps, v, a, i, j);
    var svc, h := s.svcs[v], states[j].svcs[v].holds;
    assert Kept(h, a, NoConflict) == h && states[j].svcs[v].prios == Taken(svc, a).prios;
  }

  lemma AdmittedIsDecided(c: Config, states: seq<State>, steps: seq<Step>, v: nat, a: nat, i: nat, j: nat)
    requires WellBehaved(c, states, steps) && Shaped(c, states, steps, v) && a < c.apps && i + 1 < j <= |steps|
    requires Inv(c, states[i]) && steps[i] == Serve(v, a) && |states[i].svcs[v].inbox[a]| > 0
             && states[i].svcs[v].inbox[a][0].Request? && Admitted(states[i], v, a)
    requires BusyBetween(c, states, steps, v, i, j) && steps[j - 1] == Grant(v)
    ensures var svc, msg := states[i].svcs[v], states[i].svcs[v].inbox[a][0];
            Decision(svc.holds, Taken(svc, a).prios, a, msg.addr, msg.mode)
            == Outcome(NoConflict, states[j].svcs[v].holds, Calls(c, states, steps, v, i, j))
  {
    forall k | i < k < j - 1 ensures steps[k] != Grant(v) {
      NoGrantInside(c, states, steps, v, i, j, k);
    }
    GrantedAsOneInsert(c, states, steps, v, a, i, j - 1, states[i], states[j]);
    CallsAround(c, states, steps, v, i, j);
  }

  /** An admitted request is served up to its grant. */
  lemma EndsInGrant(c: Config, states: seq<State>, steps: seq<Step>, v: nat, i: nat, j: nat)
    requires Shaped(c, states, steps, v) && i < j <= |steps| && BusyBetween(c, states, steps, v, i, j)
    requires states[i + 1].svcs[v].pc.Evicting? && states[j].svcs[v].pc.Ready?
    ensures i + 1 < j && steps[j - 1] == Grant(v)
  {
    NeverPurgesSelf(c, states, steps, v, i, j - 1);
    assert StepAt(c, states, steps, j - 1);
    BecomesReady(c, states[j - 1], steps[j - 1], states[j], v);
  }

  lemma {:induction false} NeverPurgesSelf(c: Config, states: seq<State>, steps: seq<Step>, v: nat, i: nat, k: nat)
    requires Shaped(c, states, steps, v) && i < k <= |steps| && BusyBetween(c, states, steps, v, i, k)
    requires states[i + 1].svcs[v].pc.Evicting?
    ensures !states[k].svcs[v].pc.PurgingSelf?
  {
    if k > i + 1 {
      NeverPurgesSelf(c, states, steps, v, i, k - 1);
      assert StepAt(c, states, steps, k - 1);
      EvictingStep(c, states[k - 1], steps[k - 1], states[k], v);
    }
  }

  lemma EvictingStep(c: Config, s: State, t: Step, s': State, v: nat)
    requires Next(c, s, t, s') && v < c.svcs && (s.svcs[v].pc.Evicting? || s.svcs[v].pc.Purging?)
    ensures !s'.svcs[v].pc.PurgingSelf?
  {
    if IsAppStep(t) || t.v != v {
      OthersLeaveService(c, s, t, v);
    }
  }

  /** Neither taking the request nor granting it aborts anybody. */
  lemma CallsAround(c: Config, states: seq<State>, steps: seq<Step>, v: nat, i: nat, j: nat)
    requires Shaped(c, states, steps, v) && i + 1 < j <= |steps| && steps[i].Serve? && steps[j - 1] == Grant(v)
    ensures Calls(c, states, steps, v, i, j) == Calls(c, states, steps, v, i + 1, j - 1)
  {
    FlatMiddle(CallsOf(c, states, steps, v), i, j);
  }

  lemma FlatMiddle<T>(ss: seq<seq<T>>, i: nat, j: nat)
    requires i + 1 < j <= |ss| && ss[i] == [] && ss[j - 1] == []
    ensures Flat(ss, i, j) == Flat(ss, i + 1, j - 1)
  {
    FlatSplit(ss, i, i + 1, j);
    FlatNone(ss, i, i + 1);
  }

  lemma RoundIs(c: Config, states: seq<State>, steps: seq<Step>, v: nat, a: nat, i: nat, j: nat)
    requires WellBehaved(c, states, steps) && Shaped(c, states, steps, v) && a < c.apps && i < j <= |steps|
    requires Inv(c, states[i]) && steps[i] == Serve(v, a) && |states[i].svcs[v].inbox[a]| > 0
    requires BusyBetween(c, states, steps, v, i, j) && states[j].svcs[v].pc.Ready?
    ensures RoundDid(states[i].svcs[v], a, states[i].svcs[v].inbox[a][0], states[j].svcs[v],
                     Calls(c, states, steps, v, i, j))
  {
    if states[i].svcs[v].inbox[a][0].RemoveNode? {
      RemoveRound(c, states, steps, v, a, i, j);
    } else if Admitted(states[i], v, a) {
      AdmittedRound(c, states, steps, v, a, i, j);
    } else {
      RefusedRound(c, states, steps, v, a, i, j);
    }
  }

  // ------------------------------------------------------- a table in step with it

  /** The table of `dsl` is in the state that the protocol's service `svc` is in. */
  ghost predicate InStep(dsl: S.Dsl, svc: Svc, calls: seq<Abort>, nodes: nat)
    reads dsl.table, dsl.table.buckets, dsl.table.logs, dsl.table.pos.Keys, dsl.table.owner.Keys
  {
    && dsl.table.Valid() && dsl.table.nodes == nodes == |svc.prios|
    && dsl.table.Locks() == svc.holds && dsl.table.prios == svc.prios && dsl.table.aborted == calls
  }

  lemma RoundInStep(dsl: S.Dsl, svc: Svc, a: nat, msg: Msg, svc': Svc, before: seq<Abort>, calls: seq<Abort>,
                    sent: seq<S.Reply>)
    requires a < |svc.prios| && (forall x | x in svc.holds :: x.node < |svc.prios|)
    requires dsl.table.prios == svc.prios[a := msg.prio] && RoundDid(svc, a, msg, svc', calls)
    requires dsl.Handled(svc.holds, before, sent, a, AsRequest(msg))
    ensures dsl.table.Locks() == svc'.holds && dsl.table.aborted == before + calls
  {
    assert before + [] == before;
  }

  /** One message: the table takes the whole round at once. */
  method ServeOne(dsl: S.Dsl, a: nat, msg: Msg, ghost c: Config, ghost svc: Svc, ghost svc': Svc,
                  ghost before: seq<Abort>, ghost calls: seq<Abort>)
    requires InStep(dsl, svc, before, c.apps) && a < c.apps && (forall x | x in svc.holds :: x.node < c.apps)
    requires S.Expected(svc.holds, a, AsRequest(msg)) && S.Addressed(AsRequest(msg))
    requires RoundDid(svc, a, msg, svc', calls)
    modifies dsl`sent, dsl.table`prios, dsl.table`aborted, dsl.table`chains, dsl.table`buckets, dsl.table`pos,
             dsl.table`owner, dsl.table`view, dsl.table`logged, dsl.table.buckets`next, dsl.table.pos.Keys`addr,
             dsl.table.pos.Keys`nr, dsl.table.pos.Keys`writer, dsl.table.owner.Keys, dsl.table.logs
    ensures InStep(dsl, svc', before + calls, c.apps) && dsl.table.OnlyNewAdded()
  {
    ghost var sent := dsl.sent;
    dsl.Handle(a, msg.prio, AsRequest(msg));
    RoundInStep(dsl, svc, a, msg, svc', before, calls, sent);
  }

  /** The receive loop of service `v` on a counted table, over the messages of a whole run: it keeps
      the same locks and priorities as the protocol and makes the same calls of abort_node. */
  method ServeAll(dsl: S.Dsl, msgs: seq<(nat, Msg)>, ghost c: Config, ghost states: seq<State>,
                  ghost steps: seq<Step>, ghost v: nat)
    requires WellBehaved(c, states, steps) && Shaped(c, states, steps, v) && states[|steps|].svcs[v].pc.Ready?
    requires msgs == Took(c, states, steps, v, |steps|) && InStep(dsl, states[0].svcs[v], [], c.apps)
    modifies dsl`sent, dsl.table`prios, dsl.table`aborted, dsl.table`chains, dsl.table`buckets, dsl.table`pos,
             dsl.table`owner, dsl.table`view, dsl.table`logged, dsl.table.buckets`next, dsl.table.pos.Keys`addr,
             dsl.table.pos.Keys`nr, dsl.table.pos.Keys`writer, dsl.table.owner.Keys, dsl.table.logs
    ensures InStep(dsl, states[|steps|].svcs[v], Calls(c, states, steps, v, 0, |steps|), c.apps)
  {
    ghost var k := 0;
    var n := 0;
    while n < |msgs|
      invariant 0 <= k <= |steps| && n <= |msgs| && states[k].svcs[v].pc.Ready?
      invariant Took(c, states, steps, v, k) == msgs[..n]
      invariant InStep(dsl, states[k].svcs[v], Calls(c, states, steps, v, 0, k), c.apps) && dsl.table.OnlyNewAdded()
    {
      ghost var i := NextServe(c, states, steps, v, k);
      ghost var j := NextRound(c, states, steps, v, i, n, msgs);
      ServeOne(dsl, msgs[n].0, msgs[n].1, c, states[i].svcs[v], states[j].svcs[v], Calls(c, states, steps, v, 0, i),
               Calls(c, states, steps, v, i, j));
      k := j;
      n := n + 1;
    }
    RestsToTheEnd(c, states, steps, v, k);
  }

  lemma NextRound(c: Config, states: seq<State>, steps: seq<Step>, v: nat, i: nat, n: nat, msgs: seq<(nat, Msg)>)
    returns (j: nat)
    requires WellBehaved(c, states, steps) && Shaped(c, states, steps, v) && states[|steps|].svcs[v].pc.Ready?
    requires msgs == Took(c, states, steps, v, |steps|) && n < |msgs| && i < |steps|
    requires steps[i].Serve? && steps[i].v == v && Took(c, states, steps, v, i) == msgs[..n]
    ensures i < j <= |steps| && states[j].svcs[v].pc.Ready? && Took(c, states, steps, v, j) == msgs[..n + 1]
    ensures Calls(c, states, steps, v, 0, j) == Calls(c, states, steps, v, 0, i) + Calls(c, states, steps, v, i, j)
    ensures var svc, a, msg := states[i].svcs[v], msgs[n].0, msgs[n].1;
            && a < c.apps == |svc.prios| && (forall x | x in svc.holds :: x.node < c.apps)
            && S.Expected(svc.holds, a, AsRequest(msg)) && S.Addressed(AsRequest(msg))
            && RoundDid(svc, a, msg, states[j].svcs[v], Calls(c, states, steps, v, i, j))
  {
    TakesNext(c, states, steps, v, i, n, msgs);
    var a := steps[i].a;
    j := FirstReady(c, states, steps, v, i, i + 1);
    BusyTakesNone(c, states, steps, v, i, j);
    FlatSplit(CallsOf(c, states, steps, v), 0, i, j);
    RunInv(c, states, steps, i);
    EveryMessageIsExpected(c, states, steps, i);
    RoundIs(c, states, steps, v, a, i, j);
  }

  lemma TakesNext(c: Config, states: seq<State>, steps: seq<Step>, v: nat, i: nat, n: nat, msgs: seq<(nat, Msg)>)
    requires Shaped(c, states, steps, v) && i < |steps| && steps[i].Serve? && steps[i].v == v
    requires msgs == Took(c, states, steps, v, |steps|) && n < |msgs| && Took(c, states, steps, v, i) == msgs[..n]
    ensures var svc, a := states[i].svcs[v], steps[i].a;
            && a < c.apps == |svc.inbox| && |svc.inbox[a]| > 0 && msgs[n] == (a, svc.inbox[a][0])
            && Took(c, states, steps, v, i + 1) == msgs[..n + 1]
  {
    assert StepAt(c, states, steps, i);
    FlatSplit(TookOf(c, states, steps, v), 0, i + 1, |steps|);
    assert Took(c, states, steps, v, i + 1) == msgs[..n] + [(steps[i].a, states[i].svcs[v].inbox[steps[i].a][0])];
    PrefixIs(msgs, n, Took(c, states, steps, v, i + 1));
  }

  lemma PrefixIs<T>(l: seq<T>, n: nat, p: seq<T>)
    requires n < |l| && |p| == n + 1 && p <= l
    ensures p == l[..n + 1] && p[n] == l[n]
  {
  }

  lemma TookGrows(c: Config, states: seq<State>, steps: seq<Step>, v: nat, k: nat, n: nat)
    requires Shaped(c, states, steps, v) && k <= n <= |steps|
    ensures Took(c, states, steps, v, k) <= Took(c, states, steps, v, n)
  {
    FlatSplit(TookOf(c, states, steps, v), 0, k, n);
  }

  /** When all messages are taken, the service has come to rest. */
  lemma {:induction false} RestsToTheEnd(c: Config, states: seq<State>, steps: seq<Step>, v: nat, k: nat)
    requires Shaped(c, states, steps, v) && k <= |steps| && states[k].svcs[v].pc.Ready?
    requires |Took(c, states, steps, v, k)| == |Took(c, states, steps, v, |steps|)|
    ensures Rests(states[k].svcs[v], states[|steps|].svcs[v])
    ensures Calls(c, states, steps, v, 0, |steps|) == Calls(c, states, steps, v, 0, k)
    decreases |steps| - k
  {
    if k < |steps| {
      TookGrows(c, states, steps, v, k + 1, |steps|);
      StepWhenReady(c, states, steps, v, k);
      RestsToTheEnd(c, states, steps, v, k + 1);
    }
  }
}
