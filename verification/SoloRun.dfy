/** A transaction that nobody disturbs commits, and does to memory what its operations do when they
    run straight on it: one run of the protocol for every program, from every state in which the
    services hold no lock and wait for messages. */
module SoloRun {
  import opened Locks
  import opened Protocol
  import opened Runs
  import opened WriteSet

  /** No service is busy or holds a lock of anybody but `a`, and none has a message of `a`. */
  ghost predicate Undisturbed(c: Config, s: State, a: nat) {
    && ValidConfig(c) && WellFormed(c, s) && a < c.apps
    && forall v | 0 <= v < c.svcs ::
         s.svcs[v].pc.Ready? && s.svcs[v].inbox[a] == [] && forall x | x in s.svcs[v].holds :: x.node == a
  }

  /** Memory, log and the lists of the attempt are the same. */
  predicate SameWork(s: State, s': State, a: nat)
    requires a < |s.apps| && a < |s'.apps|
  {
    && s'.mem == s.mem && s'.log == s.log && s'.init == s.init
    && s'.apps[a].ws == s.apps[a].ws && s'.apps[a].seen == s.apps[a].seen && s'.apps[a].peeked == s.apps[a].peeked
  }

  /** In the middle of the attempt of `a`. */
  ghost predicate Going(c: Config, s: State, a: nat) {
    Undisturbed(c, s, a) && Reachable(c, s) && s.apps[a].pc.Running? && s.flags[a] == NoConflict
  }

  // -------------------------------------------------------------- one lock

  lemma ChecksAlone(c: Config, s: State, a: nat) returns (s': State)
    requires Going(c, s, a)
    ensures s' == SetPc(s, a, Cleared) && Undisturbed(c, s', a) && Reachable(c, s')
  {
    s' := DoCheckAborted(s, a);
    ReachableNext(c, s, CheckAborted(a), s');
  }

  /** A request of `a` is alone in its channel. */
  ghost predicate Asked(c: Config, s: State, s': State, a: nat, x: int, m: Mode)
    requires WellFormed(c, s) && a < c.apps
  {
    && WellFormed(c, s') && Reachable(c, s') && c.route(x) < c.svcs && SameWork(s, s', a)
    && s'.flags == s.flags && s'.apps[a].pc == Waiting(x, m, None) && s'.apps[a].granted == s.apps[a].granted
    && s'.svcs[c.route(x)].inbox[a] == [Request(x, m, s.apps[a].prio)]
    && s'.svcs == s.svcs[c.route(x) := s'.svcs[c.route(x)]]
    && s'.svcs[c.route(x)].pc == s.svcs[c.route(x)].pc && s'.svcs[c.route(x)].holds == s.svcs[c.route(x)].holds
  }

  lemma AsksAlone(c: Config, s: State, a: nat, x: int, m: Mode) returns (s': State)
    requires Undisturbed(c, s, a) && Reachable(c, s) && s.apps[a].pc.Cleared? && (m == Rd ==> !Buffered(s.apps[a].ws, x))
    ensures Asked(c, s, s', a, x, m)
  {
    s' := DoSend(c, s, a, x, m);
    ReachableNext(c, s, Send(a, x, m), s');
  }

  /** The service has found nobody in the way. */
  ghost predicate Decided(c: Config, s: State, s': State, a: nat, x: int, m: Mode)
    requires WellFormed(c, s) && a < c.apps
  {
    && WellFormed(c, s') && Reachable(c, s') && c.route(x) < c.svcs && SameWork(s, s', a)
    && s'.flags == s.flags && s'.apps[a].pc == Waiting(x, m, None) && s'.apps[a].granted == s.apps[a].granted
    && s'.svcs[c.route(x)].inbox[a] == [] && s'.svcs == s.svcs[c.route(x) := s'.svcs[c.route(x)]]
    && s'.svcs[c.route(x)].pc.Evicting? && s'.svcs[c.route(x)].pc.sender == a && s'.svcs[c.route(x)].pc.addr == x
    && s'.svcs[c.route(x)].pc.mode == m && s'.svcs[c.route(x)].pc.todo == {}
    && s'.svcs[c.route(x)].holds == s.svcs[c.route(x)].holds
  }

  /** Its own locks do not stop `a`, unless it reads what it has locked for writing. */
  predicate Free(h: set<Hold>, a: nat, x: int, m: Mode) {
    (forall y | y in h :: y.node == a) && (m == Rd ==> forall y | y in h :: y.mode == Rd)
  }

  lemma ServesAlone(c: Config, s0: State, s: State, a: nat, x: int, m: Mode) returns (s': State)
    requires ValidConfig(c) && a < c.apps && WellFormed(c, s0) && Asked(c, s0, s, a, x, m)
    requires s0.svcs[c.route(x)].pc.Ready? && Free(s0.svcs[c.route(x)].holds, a, x, m)
    ensures Decided(c, s0, s', a, x, m)
  {
    var v := c.route(x);
    assert Blockers(s.svcs[v].holds, a, x, m) == {};
    assert s.svcs[v].inbox[a][1..] == [];
    s' := DoEvict(s, v, a);
    assert Admitted(s, v, a);
    ReachableNext(c, s, Serve(v, a), s');
  }

  lemma GrantsAlone(c: Config, s0: State, s: State, a: nat, x: int, m: Mode) returns (s': State)
    requires Undisturbed(c, s0, a) && Decided(c, s0, s, a, x, m)
    ensures Undisturbed(c, s', a) && Reachable(c, s') && SameWork(s0, s', a) && s'.flags == s0.flags
    ensures s'.apps[a].pc == Waiting(x, m, Some(NoConflict)) && s'.apps[a].granted == s0.apps[a].granted
    ensures forall v, y | 0 <= v < c.svcs && y in s'.svcs[v].holds :: y in s0.svcs[v].holds || y == Hold(a, x, m)
  {
    s' := DoGrant(s, c.route(x));
    ReachableNext(c, s, Grant(c.route(x)), s');
  }

  lemma ReceivesAlone(c: Config, s: State, a: nat, x: int, m: Mode) returns (s': State)
    requires Undisturbed(c, s, a) && Reachable(c, s) && s.apps[a].pc == Waiting(x, m, Some(NoConflict))
    requires s.flags[a] == NoConflict
    ensures Going(c, s', a) && SameWork(s, s', a) && s'.svcs == s.svcs
    ensures s'.apps[a].granted == s.apps[a].granted + {Lock(x, m)}
  {
    s' := DoReceive(c, s, a);
    ReachableNext(c, s, Receive(a), s');
  }

  /** An undisturbed request is granted. */
  lemma LocksAlone(c: Config, s: State, a: nat, x: int, m: Mode) returns (s': State)
    requires Going(c, s, a) && (m == Rd ==> !Buffered(s.apps[a].ws, x))
    requires m == Rd ==> forall v, y | 0 <= v < c.svcs && y in s.svcs[v].holds :: y.mode == Rd
    ensures Going(c, s', a) && SameWork(s, s', a) && s'.apps[a].granted == s.apps[a].granted + {Lock(x, m)}
    ensures forall v, y | 0 <= v < c.svcs && y in s'.svcs[v].holds :: y in s.svcs[v].holds || y == Hold(a, x, m)
  {
    var s1 := ChecksAlone(c, s, a);
    var s2 := AsksAlone(c, s1, a, x, m);
    var s3 := ServesAlone(c, s1, s2, a, x, m);
    var s4 := GrantsAlone(c, s1, s3, a, x, m);
    s' := ReceivesAlone(c, s4, a, x, m);
  }

  // -------------------------------------------------------------- the body

  /** The reads that go to memory: those of addresses not stored to before. */
  function Misses(m: map<int, int>, ops: seq<Op>): seq<Access> {
    if ops == [] then []
    else
      var before, op := ops[..|ops| - 1], ops[|ops| - 1];
      Misses(m, before) +
      if op.Read? && Last(Writes(before), op.addr) == None then [Access(op.addr, Load(m, op.addr))] else []
  }

  lemma {:induction false} BufferedIsFound(ws: seq<Access>, x: int)
    ensures Buffered(ws, x) <==> Last(ws, x).Some?
  {
    if ws != [] && ws[|ws| - 1].addr != x {
      BufferedIsFound(ws[..|ws| - 1], x);
      assert forall i | 0 <= i < |ws| - 1 :: ws[..|ws| - 1][i] == ws[i];
    }
  }

  ghost predicate OnlyReads(c: Config, s: State)
    requires WellFormed(c, s)
  {
    forall v, y | 0 <= v < c.svcs && y in s.svcs[v].holds :: y.mode == Rd
  }

  /** The attempt of `a` has done `ops`, starting on memory `m` and log `log`. */
  ghost predicate HasDone(c: Config, s: State, a: nat, m: map<int, int>, log: seq<Commit>, ops: seq<Op>) {
    && Going(c, s, a) && OnlyReads(c, s) && s.mem == m && s.log == log
    && s.apps[a].ws == Writes(ops) && s.apps[a].seen == Misses(m, ops) && s.apps[a].peeked == []
  }

  lemma ReadsAlone(c: Config, s: State, a: nat, x: int) returns (s': State)
    requires Going(c, s, a) && OnlyReads(c, s) && !Buffered(s.apps[a].ws, x)
    ensures Going(c, s', a) && OnlyReads(c, s') && s'.mem == s.mem && s'.log == s.log
    ensures s'.apps[a].ws == s.apps[a].ws && s'.apps[a].peeked == s.apps[a].peeked
    ensures s'.apps[a].seen == s.apps[a].seen + [Access(x, Load(s.mem, x))]
  {
    var s1 := LocksAlone(c, s, a, x, Rd);
    s' := DoRawRead(s1, a, x);
    ReachableNext(c, s1, RawRead(a, x), s');
  }

  lemma StoresAlone(c: Config, s: State, a: nat, x: int, val: int) returns (s': State)
    requires Going(c, s, a) && OnlyReads(c, s)
    ensures Going(c, s', a) && OnlyReads(c, s') && s'.mem == s.mem && s'.log == s.log
    ensures s'.apps[a].ws == s.apps[a].ws + [Access(x, val)] && s'.apps[a].peeked == s.apps[a].peeked
    ensures s'.apps[a].seen == s.apps[a].seen
  {
    var s1 := ChecksAlone(c, s, a);
    s' := DoInsert(s1, a, x, val);
    ReachableNext(c, s1, Insert(a, x, val), s');
  }

  lemma {:induction false} RunsBody(c: Config, s: State, a: nat, ops: seq<Op>) returns (s': State)
    requires HasDone(c, s, a, s.mem, s.log, [])
    ensures HasDone(c, s', a, s.mem, s.log, ops)
  {
    if ops == [] {
      s' := s;
    } else {
      var before, op := ops[..|ops| - 1], ops[|ops| - 1];
      var s1 := RunsBody(c, s, a, before);
      match op
      case Read(x) =>
        BufferedIsFound(Writes(before), x);
        s' := s1;
        if !Buffered(Writes(before), x) {
          s' := ReadsAlone(c, s1, a, x);
        }
      case Write(x, val) => s' := StoresAlone(c, s1, a, x, val);
    }
  }

  // ------------------------------------------------------------ the commit

  /** tm2c_rpc_store_all, for the first `k` entries. */
  lemma {:induction false} LocksStores(c: Config, s: State, a: nat, k: nat) returns (s': State)
    requires Going(c, s, a) && k <= |s.apps[a].ws|
    ensures Going(c, s', a) && SameWork(s, s', a)
    ensures forall i | 0 <= i < k :: Lock(s.apps[a].ws[i].addr, Wr) in s'.apps[a].granted
  {
    if k == 0 {
      s' := s;
    } else {
      var s1 := LocksStores(c, s, a, k - 1);
      s' := LocksAlone(c, s1, a, s.apps[a].ws[k - 1].addr, Wr);
    }
  }

  /** What of the state no step of the commit changes. */
  ghost predicate Committing(c: Config, s: State, a: nat, ws: seq<Access>, log: seq<Commit>) {
    WellFormed(c, s) && Reachable(c, s) && a < c.apps && s.apps[a].ws == ws && s.log == log
  }

  lemma {:induction false} PersistsAlone(c: Config, s: State, a: nat, k: nat) returns (s': State)
    requires ValidConfig(c) && WellFormed(c, s) && a < c.apps && Reachable(c, s)
    requires s.apps[a].pc == Persisting(0) && k <= |s.apps[a].ws|
    ensures Committing(c, s', a, s.apps[a].ws, s.log) && s'.apps[a].pc == Persisting(k)
    ensures s'.mem == Store(s.mem, s.apps[a].ws[..k])
  {
    if k == 0 {
      s' := s;
    } else {
      var s1 := PersistsAlone(c, s, a, k - 1);
      s' := DoPersistEntry(s1, a);
      ReachableNext(c, s1, PersistEntry(a), s');
      assert s.apps[a].ws[..k][..k - 1] == s.apps[a].ws[..k - 1];
    }
  }

  lemma {:induction false} ReleasesAlone(c: Config, s: State, a: nat, k: nat) returns (s': State)
    requires ValidConfig(c) && WellFormed(c, s) && a < c.apps && Reachable(c, s)
    requires s.apps[a].pc == Releasing(0, true) && k <= c.svcs
    ensures Committing(c, s', a, s.apps[a].ws, s.log) && s'.apps[a].pc == Releasing(k, true) && s'.mem == s.mem
  {
    if k == 0 {
      s' := s;
    } else {
      var s1 := ReleasesAlone(c, s, a, k - 1);
      s' := ReleaseOnce(c, s1, a);
    }
  }

  lemma ReleaseOnce(c: Config, s: State, a: nat) returns (s': State)
    requires ValidConfig(c) && WellFormed(c, s) && a < c.apps && Reachable(c, s)
    requires s.apps[a].pc.Releasing? && s.apps[a].pc.next < c.svcs
    ensures Committing(c, s', a, s.apps[a].ws, s.log) && s'.mem == s.mem
    ensures s'.apps[a].pc == Releasing(s.apps[a].pc.next + 1, s.apps[a].pc.committed)
  {
    s' := DoRelease(s, a);
    ReleaseLeaves(c, s, a);
    ReachableNext(c, s, Release(a), s');
  }

  lemma ReleaseLeaves(c: Config, s: State, a: nat)
    requires WellFormed(c, s) && a < c.apps && s.apps[a].pc.Releasing? && s.apps[a].pc.next < c.svcs
    ensures var s' := DoRelease(s, a);
            && WellFormed(c, s') && s'.mem == s.mem && s'.log == s.log && s'.apps[a].ws == s.apps[a].ws
            && s'.apps[a].pc == Releasing(s.apps[a].pc.next + 1, s.apps[a].pc.committed)
  {
  }

  lemma EndsAlone(c: Config, s: State, a: nat) returns (s': State)
    requires ValidConfig(c) && WellFormed(c, s) && a < c.apps && Reachable(c, s)
    requires s.apps[a].pc == Persisting(|s.apps[a].ws|)
    ensures Committing(c, s', a, s.apps[a].ws, s.log) && s'.apps[a].pc.Idle? && s'.mem == s.mem
  {
    var s1 := DoPublish(s, a);
    ReachableNext(c, s, Publish(a), s1);
    var s2 := ReleasesAlone(c, s1, a, c.svcs);
    s' := DoFinish(s2, a, s2.apps[a].prio);
    ReachableNext(c, s2, Finish(a, s2.apps[a].prio), s');
  }

  lemma CommitsAlone(c: Config, s: State, a: nat) returns (s': State)
    requires Going(c, s, a)
    ensures WellFormed(c, s') && Reachable(c, s') && s'.apps[a].pc.Idle?
    ensures s'.mem == Store(s.mem, s.apps[a].ws)
    ensures s'.log == s.log + [Commit(a, false, s.apps[a].seen, s.apps[a].peeked, s.apps[a].ws)]
  {
    var s1 := LocksStores(c, s, a, |s.apps[a].ws|);
    var s2 := DoTryPersist(s1, a);
    ReachableNext(c, s1, TryPersist(a), s2);
    var s3 := PersistsAlone(c, s2, a, |s.apps[a].ws|);
    assert s.apps[a].ws[..|s.apps[a].ws|] == s.apps[a].ws;
    s' := EndsAlone(c, s3, a);
  }

  /** Whatever its operations, an attempt that starts while no service holds a lock or is busy can
      run to its end, commits, and leaves the memory that its operations leave when they run
      straight on memory one after the other. */
  lemma SoloAttemptCommits(c: Config, s: State, a: nat, ops: seq<Op>) returns (s': State)
    requires Reachable(c, s) && Undisturbed(c, s, a) && s.apps[a].pc.Idle?
    requires forall v | 0 <= v < c.svcs :: s.svcs[v].holds == {}
    ensures WellFormed(c, s') && Reachable(c, s') && s'.apps[a].pc.Idle?
    ensures s'.mem == Direct(s.mem, ops).1
    ensures s'.log == s.log + [Commit(a, false, Misses(s.mem, ops), [], Writes(ops))]
  {
    var s1 := DoTxStart(s, a);
    ReachableNext(c, s, TxStart(a), s1);
    var s2 := RunsBody(c, s1, a, ops);
    s' := CommitsAlone(c, s2, a);
    CommitIsDirect(s.mem, ops, true);
  }
}
