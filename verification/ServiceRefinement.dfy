/** The fine-grained steps of a service refine the lock table: between the decision on a
    request and the grant, with every other thread running in between, a service does to its
    holdings and to the abort flags what one call of tm2c_ht_insert does. */
module ServiceRefinement {
  import opened Locks
  import opened Protocol
  import opened SlotSpec

  /** The call of abort_node that step `t` of service `v` completes; a spin completes none. */
  function Called(before: Svc, t: Step, after: Svc, v: nat): seq<Abort> {
    if t.AbortNode? && t.v == v && before.pc.Evicting? && after.pc.Purging?
    then [Abort(t.victim, before.pc.reason)]
    else []
  }

  ghost predicate Shaped(c: Config, states: seq<State>, steps: seq<Step>, v: nat) {
    && IsTrace(c, states, steps) && v < c.svcs
    && forall i | 0 <= i < |states| :: |states[i].svcs| == c.svcs
  }

  /** The entries of `ss` from place `i` up to place `k`, in one sequence. */
  function Flat<T>(ss: seq<seq<T>>, i: nat, k: nat): seq<T>
    requires i <= k <= |ss|
    decreases k - i
  {
    if i == k then [] else Flat(ss, i, k - 1) + ss[k - 1]
  }

  lemma {:induction false} FlatSplit<T>(ss: seq<seq<T>>, i: nat, j: nat, k: nat)
    requires i <= j <= k <= |ss|
    ensures Flat(ss, i, k) == Flat(ss, i, j) + Flat(ss, j, k)
    decreases k
  {
    if j < k {
      FlatSplit(ss, i, j, k - 1);
    }
  }

  lemma {:induction false} FlatNone<T>(ss: seq<seq<T>>, i: nat, k: nat)
    requires i <= k <= |ss| && forall j | i <= j < k :: ss[j] == []
    ensures Flat(ss, i, k) == []
    decreases k
  {
    if i < k {
      FlatNone(ss, i, k - 1);
    }
  }

  /** For every step, the calls that service `v` completes in it. */
  ghost function CallsOf(c: Config, states: seq<State>, steps: seq<Step>, v: nat): (r: seq<seq<Abort>>)
    requires Shaped(c, states, steps, v)
    ensures |r| == |steps|
    ensures forall k {:trigger r[k]} | 0 <= k < |steps| ::
              r[k] == Called(states[k].svcs[v], steps[k], states[k + 1].svcs[v], v)
  {
    seq(|steps|, k requires 0 <= k < |steps| => Called(states[k].svcs[v], steps[k], states[k + 1].svcs[v], v))
  }

  /** The calls that service `v` completes in the steps from `i` up to `k`. */
  ghost function Calls(c: Config, states: seq<State>, steps: seq<Step>, v: nat, i: nat, k: nat): seq<Abort>
    requires Shaped(c, states, steps, v) && i <= k <= |steps|
  {
    Flat(CallsOf(c, states, steps, v), i, k)
  }

  lemma CallsStep(c: Config, states: seq<State>, steps: seq<Step>, v: nat, i: nat, k: nat)
    requires Shaped(c, states, steps, v) && i < k <= |steps|
    ensures Calls(c, states, steps, v, i, k) ==
            Calls(c, states, steps, v, i, k - 1) + Called(states[k - 1].svcs[v], steps[k - 1], states[k].svcs[v], v)
  {
  }

  /** A service on its way through the eviction of `b`, on behalf of `a` and from holdings `h`. */
  ghost predicate Serving(svc: Svc, h: set<Hold>, calls: seq<Abort>, a: nat, x: int, m: Mode, reason: Conflict,
                          b: set<nat>, n: nat)
  {
    match svc.pc
    case Evicting(sender, addr, mode, r, todo) =>
      && sender == a && addr == x && mode == m && r == reason
      && Done(b, todo) && svc.holds == Without(h, b - todo) && calls == AbortedEach(b - todo, reason, n)
    case Purging(sender, addr, mode, r, todo, victim) =>
      && sender == a && addr == x && mode == m && r == reason && victim in b - todo
      && Done(b, todo) && svc.holds == Without(h, b - todo - {victim}) && calls == AbortedEach(b - todo, reason, n)
    case _ => false
  }

  /** The victims still `todo` come after those already dealt with. */
  ghost predicate Done(b: set<nat>, todo: set<nat>) {
    todo <= b && forall d, e | d in b - todo && e in todo :: d < e
  }

  lemma {:induction false} AbortedNext(done: set<nat>, d: nat, reason: Conflict, n: nat)
    requires forall e | e in done :: e < d
    ensures AbortedEach(done + {d}, reason, n) ==
            AbortedEach(done, reason, n) + if d < n then [Abort(d, reason)] else []
  {
    if n > 0 {
      AbortedNext(done, d, reason, n - 1);
      if n - 1 > d {
        assert n - 1 !in done;
      }
    }
  }

  lemma {:induction false} NoneAborted(reason: Conflict, n: nat)
    ensures AbortedEach({}, reason, n) == []
  {
    if n > 0 {
      NoneAborted(reason, n - 1);
    }
  }

  lemma StepAborts(svc: Svc, h: set<Hold>, calls: seq<Abort>, a: nat, x: int, m: Mode, reason: Conflict, b: set<nat>,
                   n: nat, d: nat)
    requires svc.pc.Evicting? && Serving(svc, h, calls, a, x, m, reason, b, n) && d < n
    requires d in svc.pc.todo && forall e | e in svc.pc.todo :: d <= e
    ensures Serving(svc.(pc := Purging(a, x, m, reason, svc.pc.todo - {d}, d)), h, calls + [Abort(d, reason)],
                    a, x, m, reason, b, n)
  {
    var todo := svc.pc.todo;
    AbortedNext(b - todo, d, reason, n);
    assert b - (todo - {d}) == (b - todo) + {d};
    assert b - (todo - {d}) - {d} == b - todo;
  }

  lemma StepPurges(svc: Svc, h: set<Hold>, calls: seq<Abort>, a: nat, x: int, m: Mode, reason: Conflict, b: set<nat>,
                   n: nat)
    requires svc.pc.Purging? && Serving(svc, h, calls, a, x, m, reason, b, n)
    ensures Serving(svc.(pc := Evicting(a, x, m, reason, svc.pc.todo), holds := Without(svc.holds, {svc.pc.victim})),
                    h, calls, a, x, m, reason, b, n)
  {
  }

  lemma AppsLeaveService(c: Config, s: State, t: Step, v: nat)
    requires WellFormed(c, s) && ValidConfig(c) && IsAppStep(t) && AppEnabled(c, s, t) && v < c.svcs
    ensures ApplyApp(c, s, t).svcs[v].pc == s.svcs[v].pc && ApplyApp(c, s, t).svcs[v].holds == s.svcs[v].holds
    ensures ApplyApp(c, s, t).svcs[v].prios == s.svcs[v].prios
  {
  }

  lemma OthersLeaveService(c: Config, s: State, t: Step, v: nat)
    requires WellFormed(c, s) && ValidConfig(c) && Enabled(c, s, t) && v < c.svcs && (!IsAppStep(t) ==> t.v != v)
    ensures Apply(c, s, t).svcs[v].pc == s.svcs[v].pc && Apply(c, s, t).svcs[v].holds == s.svcs[v].holds
    ensures Apply(c, s, t).svcs[v].prios == s.svcs[v].prios
  {
    if IsAppStep(t) {
      AppsLeaveService(c, s, t, v);
    }
  }

  lemma ServingGoesOn(c: Config, s: State, t: Step, s': State, v: nat, h: set<Hold>, calls: seq<Abort>,
                      a: nat, x: int, m: Mode, reason: Conflict, b: set<nat>)
    requires Next(c, s, t, s') && v < c.svcs == |s'.svcs| && t != Grant(v)
    requires Serving(s.svcs[v], h, calls, a, x, m, reason, b, c.apps)
    ensures Serving(s'.svcs[v], h, calls + Called(s.svcs[v], t, s'.svcs[v], v), a, x, m, reason, b, c.apps)
  {
    var svc := s.svcs[v];
    if IsAppStep(t) || t.v != v {
      OthersLeaveService(c, s, t, v);
    } else {
      match t
      case AbortNode(_, d) => StepAborts(svc, h, calls, a, x, m, reason, b, c.apps, d);
      case DeleteNode(_) => StepPurges(svc, h, calls, a, x, m, reason, b, c.apps);
      case _ =>
    }
  }

  lemma {:induction false} ServingAllAlong(c: Config, states: seq<State>, steps: seq<Step>, v: nat, i: nat, k: nat,
                                           h: set<Hold>, a: nat, x: int, m: Mode, reason: Conflict, b: set<nat>)
    requires Shaped(c, states, steps, v) && i <= k <= |steps|
    requires forall j | i <= j < k :: steps[j] != Grant(v)
    requires Serving(states[i].svcs[v], h, [], a, x, m, reason, b, c.apps)
    ensures Serving(states[k].svcs[v], h, Calls(c, states, steps, v, i, k), a, x, m, reason, b, c.apps)
  {
    if i < k {
      ServingAllAlong(c, states, steps, v, i, k - 1, h, a, x, m, reason, b);
      assert StepAt(c, states, steps, k - 1);
      ServingGoesOn(c, states[k - 1], steps[k - 1], states[k], v, h, Calls(c, states, steps, v, i, k - 1),
                    a, x, m, reason, b);
      CallsStep(c, states, steps, v, i, k);
    }
  }

  /** From the decision to let a request through (step `i`) to the grant (step `j`), whatever
      the other threads do meanwhile: holdings and calls of abort_node are those of one insert. */
  lemma GrantedAsOneInsert(c: Config, states: seq<State>, steps: seq<Step>, v: nat, a: nat, i: nat, j: nat, s: State,
                           s': State)
    requires Shaped(c, states, steps, v) && a < c.apps && i < j < |steps|
    requires s == states[i] && s' == states[j + 1] && WellFormed(c, s)
    requires steps[i] == Serve(v, a) && |s.svcs[v].inbox[a]| > 0 && s.svcs[v].inbox[a][0].Request? && Admitted(s, v, a)
    requires steps[j] == Grant(v) && forall k | i < k < j :: steps[k] != Grant(v)
    ensures var msg := s.svcs[v].inbox[a][0];
            Decision(s.svcs[v].holds, Taken(s.svcs[v], a).prios, a, msg.addr, msg.mode)
            == Outcome(NoConflict, s'.svcs[v].holds, Calls(c, states, steps, v, i + 1, j))
  {
    var msg, h := s.svcs[v].inbox[a][0], s.svcs[v].holds;
    var b, reason := Blockers(h, a, msg.addr, msg.mode), Reason(h, a, msg.addr, msg.mode);
    assert StepAt(c, states, steps, i);
    ServingStarts(c, s, v, a, states[i + 1]);
    ServingAllAlong(c, states, steps, v, i + 1, j, h, a, msg.addr, msg.mode, reason, b);
    assert StepAt(c, states, steps, j);
    GrantIsDecided(c, states[j], v, s', s, a, Calls(c, states, steps, v, i + 1, j));
  }

  lemma GrantIsDecided(c: Config, before: State, v: nat, s': State, s: State, a: nat, calls: seq<Abort>)
    requires Next(c, before, Grant(v), s') && WellFormed(c, s) && v < c.svcs && a < c.apps && |s.svcs[v].inbox[a]| > 0
    requires s.svcs[v].inbox[a][0].Request? && Admitted(s, v, a)
    requires var msg, h := s.svcs[v].inbox[a][0], s.svcs[v].holds;
             Serving(before.svcs[v], h, calls, a, msg.addr, msg.mode, Reason(h, a, msg.addr, msg.mode),
                     Blockers(h, a, msg.addr, msg.mode), c.apps)
    ensures var msg := s.svcs[v].inbox[a][0];
            Decision(s.svcs[v].holds, Taken(s.svcs[v], a).prios, a, msg.addr, msg.mode)
            == Outcome(NoConflict, s'.svcs[v].holds, calls)
  {
    var msg := s.svcs[v].inbox[a][0];
    var b := Blockers(s.svcs[v].holds, a, msg.addr, msg.mode);
    assert b - {} == b;
  }

  lemma ServingStarts(c: Config, s: State, v: nat, a: nat, s': State)
    requires Next(c, s, Serve(v, a), s') && v < c.svcs && a < c.apps && |s.svcs[v].inbox[a]| > 0
    requires s.svcs[v].inbox[a][0].Request? && Admitted(s, v, a)
    ensures var msg, h := s.svcs[v].inbox[a][0], s.svcs[v].holds;
            Serving(s'.svcs[v], h, [], a, msg.addr, msg.mode, Reason(h, a, msg.addr, msg.mode),
                    Blockers(h, a, msg.addr, msg.mode), c.apps)
  {
    var msg, h := s.svcs[v].inbox[a][0], s.svcs[v].holds;
    var b := Blockers(h, a, msg.addr, msg.mode);
    NoneAborted(Reason(h, a, msg.addr, msg.mode), c.apps);
    assert b - b == {} && Without(h, {}) == h;
  }

  /** A refusal is an insert that changes nothing. */
  lemma RefusedAsOneInsert(c: Config, s: State, v: nat, a: nat, s': State)
    requires Next(c, s, Serve(v, a), s') && v < c.svcs && a < c.apps && |s.svcs[v].inbox[a]| > 0
    requires s.svcs[v].inbox[a][0].Request? && !Admitted(s, v, a)
    ensures var msg := s.svcs[v].inbox[a][0];
            Decision(s.svcs[v].holds, Taken(s.svcs[v], a).prios, a, msg.addr, msg.mode)
            == Outcome(Reason(s.svcs[v].holds, a, msg.addr, msg.mode), s'.svcs[v].holds, [])
            && s'.flags == s.flags
  {
  }
}
