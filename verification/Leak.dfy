/** The 16-bit counters of nodes_contacted do lose locks: a run of one application and one
    service whose single attempt sends 65536 read requests and leaves its lock behind. */
module Leak {
  import opened Locks
  import opened Protocol
  import opened Runs

  const ONE := Config(1, 1, (x: int) => 0)
  const ADDR := 8

  function TheApp(pc: AppPc, granted: set<Lock>, n: nat): App {
    App(pc, 0, [], [], [], granted, [n % CONTACT_LIMIT], [n])
  }

  function Granted(h: set<Hold>): map<Hold, nat> { map x | x in h :: 0 }

  function TheState(app: App, flag: Conflict, svc: Svc): State {
    State([app], [flag], [svc], map[], map[], [], {}, Granted(svc.holds))
  }

  function Table(n: nat): set<Hold> { if n == 0 then {} else {Hold(0, ADDR, Rd)} }

  function Granting(n: nat): set<Lock> { if n == 0 then {} else {Lock(ADDR, Rd)} }

  /** The attempt has been granted `n` read requests. */
  function Looped(n: nat): State {
    TheState(TheApp(Running, Granting(n), n), NoConflict, Svc(Ready, Table(n), [0], [[]]))
  }

  lemma FirstState()
    ensures Reachable(ONE, Looped(0))
  {
    var s := TheState(TheApp(Idle, {}, 0), NoConflict, Svc(Ready, {}, [0], [[]]));
    var none: seq<Msg> := [];
    assert seq(1, _ => 0) == [0] && seq(1, _ => none) == [none];
    assert Init(ONE, s);
    var steps: seq<Step> := [];
    assert IsTrace(ONE, [s], steps) && Init(ONE, [s][0]) && s == [s][|steps|];
    ReachableNext(ONE, s, TxStart(0), Looped(0));
  }

  function Checked(n: nat): State {
    TheState(TheApp(Cleared, Granting(n), n), NoConflict, Looped(n).svcs[0])
  }

  function Asked(n: nat): State {
    TheState(TheApp(Waiting(ADDR, Rd, None), Granting(n), n + 1), NoConflict,
             Svc(Ready, Table(n), [0], [[Request(ADDR, Rd, 0)]]))
  }

  function Decided(n: nat): State {
    TheState(Asked(n).apps[0], NoConflict, Svc(Evicting(0, ADDR, Rd, ReadAfterWrite, {}), Table(n), [0], [[]]))
  }

  function Answered(n: nat): State {
    TheState(TheApp(Waiting(ADDR, Rd, Some(NoConflict)), Granting(n), n + 1), NoConflict, Looped(n + 1).svcs[0])
  }

  lemma OneCheck(n: nat)
    requires Reachable(ONE, Looped(n))
    ensures Reachable(ONE, Checked(n))
  {
    ReachableNext(ONE, Looped(n), CheckAborted(0), Checked(n));
  }

  lemma SendIsNext(n: nat)
    ensures Next(ONE, Checked(n), Send(0, ADDR, Rd), Asked(n))
  {
    assert NextCount(n % CONTACT_LIMIT) == (n + 1) % CONTACT_LIMIT;
    var q: seq<seq<Msg>> := [[]];
    assert q[0] + [Request(ADDR, Rd, 0)] == [Request(ADDR, Rd, 0)];
    assert q[0 := [Request(ADDR, Rd, 0)]] == [[Request(ADDR, Rd, 0)]];
    assert [n % CONTACT_LIMIT][0 := (n + 1) % CONTACT_LIMIT] == [(n + 1) % CONTACT_LIMIT] && [n][0 := n + 1] == [n + 1];
  }

  lemma OneSend(n: nat)
    requires Reachable(ONE, Checked(n))
    ensures Reachable(ONE, Asked(n))
  {
    SendIsNext(n);
    ReachableNext(ONE, Checked(n), Send(0, ADDR, Rd), Asked(n));
  }

  lemma OneServe(n: nat)
    requires Reachable(ONE, Asked(n))
    ensures Reachable(ONE, Decided(n))
  {
    assert Blockers(Table(n), 0, ADDR, Rd) == {};
    var q: seq<seq<Msg>> := [[Request(ADDR, Rd, 0)]];
    assert q[0][1..] == [];
    assert q[0 := []] == [[]];
    var prios: seq<nat> := [0];
    assert prios[0 := 0] == prios;
    assert DoEvict(Asked(n), 0, 0) == Decided(n);
    assert Admitted(Asked(n), 0, 0);
    ReachableNext(ONE, Asked(n), Serve(0, 0), Decided(n));
  }

  lemma OneGrant(n: nat)
    requires Reachable(ONE, Decided(n))
    ensures Reachable(ONE, Answered(n))
  {
    assert Table(n) + {Hold(0, ADDR, Rd)} == Table(n + 1);
    ReachableNext(ONE, Decided(n), Grant(0), Answered(n));
  }

  lemma OneReceive(n: nat)
    requires Reachable(ONE, Answered(n))
    ensures Reachable(ONE, Looped(n + 1))
  {
    assert Granting(n) + {Lock(ADDR, Rd)} == Granting(n + 1);
    ReachableNext(ONE, Answered(n), Receive(0), Looped(n + 1));
  }

  lemma Ask(n: nat)
    requires Reachable(ONE, Looped(n))
    ensures Reachable(ONE, Asked(n))
  {
    OneCheck(n);
    OneSend(n);
  }

  lemma Round(n: nat)
    requires Reachable(ONE, Looped(n))
    ensures Reachable(ONE, Looped(n + 1))
  {
    Ask(n);
    OneServe(n);
    OneGrant(n);
    OneReceive(n);
  }

  lemma {:induction false} Loop(n: nat)
    ensures Reachable(ONE, Looped(n))
  {
    if n == 0 {
      FirstState();
    } else {
      var k := n - 1;
      Loop(k);
      Round(k);
      assert n == k + 1;
    }
  }

  function Over(pc: AppPc, n: nat, flag: Conflict, skipped: set<(nat, nat)>): State {
    TheState(TheApp(pc, {Lock(ADDR, Rd)}, n), flag, Looped(1).svcs[0])
    .(log := [Commit(0, false, [], [], [])], skipped := skipped,
    under := if skipped == {} then Granted(Table(1)) else map[])
  }

  lemma Commits(n: nat)
    requires n > 0 && Reachable(ONE, Looped(n))
    ensures Reachable(ONE, Over(Persisting(0), n, PersistingWrites, {}))
  {
    ReachableNext(ONE, Looped(n), TryPersist(0), Over(Persisting(0), n, PersistingWrites, {}));
  }

  lemma Publishes(n: nat)
    requires Reachable(ONE, Over(Persisting(0), n, PersistingWrites, {}))
    ensures Reachable(ONE, Over(Releasing(0, true), n, TxCommitted, {}))
  {
    ReachableNext(ONE, Over(Persisting(0), n, PersistingWrites, {}), Publish(0),
                  Over(Releasing(0, true), n, TxCommitted, {}));
  }

  lemma PassesBy(n: nat)
    requires n > 0 && n % CONTACT_LIMIT == 0 && Reachable(ONE, Over(Releasing(0, true), n, TxCommitted, {}))
    ensures Reachable(ONE, Over(Releasing(1, true), 0, TxCommitted, {(0, 0)}))
  {
    assert [n][0 := 0] == [0] && {} + {(0, 0)} == {(0, 0)};
    ReachableNext(ONE, Over(Releasing(0, true), n, TxCommitted, {}), Release(0),
                  Over(Releasing(1, true), 0, TxCommitted, {(0, 0)}));
  }

  lemma Finishes()
    requires Reachable(ONE, Over(Releasing(1, true), 0, TxCommitted, {(0, 0)}))
    ensures Reachable(ONE, Over(Idle, 0, TxCommitted, {(0, 0)}))
  {
    ReachableNext(ONE, Over(Releasing(1, true), 0, TxCommitted, {(0, 0)}), Finish(0, 0),
                  Over(Idle, 0, TxCommitted, {(0, 0)}));
  }

  /** The application is idle, no message is in flight, the service is ready for the next
      one -- and still holds the lock. */
  lemma LockLeftBehind() returns (c: Config, s: State)
    ensures Reachable(c, s) && c.apps == 1 && c.svcs == 1
    ensures s.apps[0].pc.Idle? && s.svcs[0].pc.Ready? && s.svcs[0].inbox[0] == []
    ensures Hold(0, ADDR, Rd) in s.svcs[0].holds
  {
    Loop(CONTACT_LIMIT);
    Commits(CONTACT_LIMIT);
    Publishes(CONTACT_LIMIT);
    PassesBy(CONTACT_LIMIT);
    Finishes();
    c, s := ONE, Over(Idle, 0, TxCommitted, {(0, 0)});
  }
}
