/** Committed attempts are serializable in the order of their successful CAS to PERSISTING. */
module Serializability {
  import opened Locks
  import opened Protocol
  import opened Invariant

  /** Every raw read returned what memory `m` holds. */
  ghost predicate ReadsMatch(seen: seq<Access>, m: map<int, int>) {
    forall i | 0 <= i < |seen| :: seen[i].val == Load(m, seen[i].addr)
  }

  function Serial(s: State): map<int, int> { SerialMem(s.init, s.log) }

  /** `app` is past its CAS and has yet to store `x`. */
  predicate Pending(app: App, x: int) {
    app.pc.Persisting? && exists j | 0 <= j < |app.ws| :: app.pc.next <= j && app.ws[j].addr == x
  }

  /** What a committed attempt read is what the serial execution had in memory at its place. */
  ghost predicate CommittedReadsSerial(s: State) {
    forall i | 0 <= i < |s.log| :: ReadsMatch(s.log[i].seen, SerialMem(s.init, s.log[..i]))
  }

  /** Memory, overlaid with the stores that persisting attempts still owe, is the serial memory;
      in the serial memory all their stores have happened. */
  ghost predicate MemorySerial(c: Config, s: State)
    requires WellFormed(c, s)
  {
    && (forall a | 0 <= a < c.apps :: PendingSerial(s.apps[a], Serial(s)))
    && (forall x | (forall a | 0 <= a < c.apps :: !Pending(s.apps[a], x)) :: Load(s.mem, x) == Load(Serial(s), x))
  }

  ghost predicate PendingSerial(app: App, m: map<int, int>) {
    app.pc.Persisting? ==>
      forall j | 0 <= j < |app.ws| && IsLatest(app.ws, j) :: Load(m, app.ws[j].addr) == app.ws[j].val
  }

  /** No later entry stores to the address of entry `j`. */
  ghost predicate IsLatest(ws: seq<Access>, j: nat)
    requires j < |ws|
  {
    forall k | j < k < |ws| :: ws[k].addr != ws[j].addr
  }

  /** An attempt that can still commit has read nothing but serial memory. */
  ghost predicate LiveReadsSerial(c: Config, s: State)
    requires WellFormed(c, s)
  {
    forall a | 0 <= a < c.apps && Live(s.apps[a], s.flags[a]) && !s.apps[a].pc.Persisting? ::
      ReadsMatch(s.apps[a].seen, Serial(s))
  }

  ghost predicate SerInv(c: Config, s: State)
    requires WellFormed(c, s)
  {
    CommittedReadsSerial(s) && MemorySerial(c, s) && LiveReadsSerial(c, s)
  }

  // ------------------------------------------------------------- write sets

  /** Storing a write set leaves other addresses alone ... */
  lemma {:induction false} StoreElsewhere(m: map<int, int>, ws: seq<Access>, x: int)
    requires !Buffered(ws, x)
    ensures Load(Store(m, ws), x) == Load(m, x)
  {
    if ws != [] {
      assert forall i | 0 <= i < |ws| - 1 :: ws[..|ws| - 1][i] == ws[i];
      StoreElsewhere(m, ws[..|ws| - 1], x);
    }
  }

  /** ... and puts the value of the latest entry for an address there. */
  lemma {:induction false} StoreAt(m: map<int, int>, ws: seq<Access>, j: nat)
    requires j < |ws| && IsLatest(ws, j)
    ensures Load(Store(m, ws), ws[j].addr) == ws[j].val
  {
    if j < |ws| - 1 {
      StoreAt(m, ws[..|ws| - 1], j);
    }
  }

  // ------------------------------------------------------------ exclusion

  /** No two applications that can still commit hold one address in conflicting modes. */
  lemma LiveExclusion(c: Config, s: State, a: nat, b: nat, x: int, m: Mode)
    requires Struct(c, s) && a < c.apps && b < c.apps
    requires Live(s.apps[a], s.flags[a]) && Live(s.apps[b], s.flags[b])
    requires HasLock(s.apps[a], Lock(x, Wr)) && HasLock(s.apps[b], Lock(x, m))
    ensures a == b
  {
    var svc := s.svcs[c.route(x)];
    assert TwoPhaseOk(c, s.svcs, a, s.apps[a], s.flags[a]) && TwoPhaseOk(c, s.svcs, b, s.apps[b], s.flags[b]);
    assert HoldsOk(c, c.route(x), svc.holds);
    assert Hold(a, x, Wr) in svc.holds && Hold(b, x, m) in svc.holds;
  }

  // ---------------------------------------------------------------- steps

  /** A step that touches neither memory nor log, and gives no attempt new reads or writes. */
  lemma KeepQuiet(c: Config, s: State, s': State)
    requires WellFormed(c, s) && WellFormed(c, s') && SerInv(c, s)
    requires s'.mem == s.mem && s'.init == s.init && s'.log == s.log
    requires forall a | 0 <= a < c.apps ::
               && (Live(s'.apps[a], s'.flags[a]) && !s'.apps[a].pc.Persisting? ==>
                     s'.apps[a].seen == [] ||
                     (Live(s.apps[a], s.flags[a]) && !s.apps[a].pc.Persisting? && s'.apps[a].seen == s.apps[a].seen))
               && (s.apps[a].pc.Persisting? || s'.apps[a].pc.Persisting? ==> s'.apps[a] == s.apps[a])
    ensures SerInv(c, s')
  {
    forall x | (forall a | 0 <= a < c.apps :: !Pending(s'.apps[a], x)) ensures Load(s'.mem, x) == Load(Serial(s'), x) {
      forall a | 0 <= a < c.apps ensures !Pending(s.apps[a], x) {
        assert !Pending(s'.apps[a], x);
      }
    }
  }

  lemma KeepTxStart(c: Config, s: State, a: nat)
    requires Struct(c, s) && SerInv(c, s) && a < c.apps && s.apps[a].pc.Idle?
    requires WellFormed(c, DoTxStart(s, a))
    ensures SerInv(c, DoTxStart(s, a))
  {
    KeepQuiet(c, s, DoTxStart(s, a));
  }

  lemma KeepCheckAborted(c: Config, s: State, a: nat)
    requires Struct(c, s) && SerInv(c, s) && a < c.apps && s.apps[a].pc.Running?
    requires WellFormed(c, DoCheckAborted(s, a))
    ensures SerInv(c, DoCheckAborted(s, a))
  {
    KeepQuiet(c, s, DoCheckAborted(s, a));
  }

  lemma KeepSend(c: Config, s: State, a: nat, x: int, m: Mode)
    requires Struct(c, s) && SerInv(c, s) && a < c.apps && s.apps[a].pc.Cleared?
    requires WellFormed(c, DoSend(c, s, a, x, m))
    ensures SerInv(c, DoSend(c, s, a, x, m))
  {
    KeepQuiet(c, s, DoSend(c, s, a, x, m));
  }

  lemma KeepReceive(c: Config, s: State, a: nat)
    requires Struct(c, s) && SerInv(c, s) && a < c.apps && s.apps[a].pc.Waiting? && s.apps[a].pc.reply.Some?
    requires WellFormed(c, DoReceive(c, s, a))
    ensures SerInv(c, DoReceive(c, s, a))
  {
    KeepQuiet(c, s, DoReceive(c, s, a));
  }

  lemma KeepInsert(c: Config, s: State, a: nat, x: int, val: int)
    requires Struct(c, s) && SerInv(c, s) && AppEnabled(c, s, Insert(a, x, val))
    requires WellFormed(c, DoInsert(s, a, x, val))
    ensures SerInv(c, DoInsert(s, a, x, val))
  {
    KeepQuiet(c, s, DoInsert(s, a, x, val));
  }

  lemma KeepSendRelease(c: Config, s: State, a: nat)
    requires Struct(c, s) && SerInv(c, s) && a < c.apps && s.apps[a].pc.Releasing? && s.apps[a].pc.next < c.svcs
    requires WellFormed(c, DoSendRelease(s, a))
    ensures SerInv(c, DoSendRelease(s, a))
  {
    KeepQuiet(c, s, DoSendRelease(s, a));
  }

  lemma KeepPassBy(c: Config, s: State, a: nat)
    requires Struct(c, s) && SerInv(c, s) && a < c.apps && s.apps[a].pc.Releasing? && s.apps[a].pc.next < c.svcs
    requires WellFormed(c, DoPassBy(s, a))
    ensures SerInv(c, DoPassBy(s, a))
  {
    KeepQuiet(c, s, DoPassBy(s, a));
  }

  lemma KeepFinish(c: Config, s: State, a: nat, p: nat)
    requires Struct(c, s) && SerInv(c, s) && AppEnabled(c, s, Finish(a, p))
    requires WellFormed(c, DoFinish(s, a, p))
    ensures SerInv(c, DoFinish(s, a, p))
  {
    KeepQuiet(c, s, DoFinish(s, a, p));
  }

  lemma KeepRemoveNode(c: Config, s: State, v: nat, a: nat)
    requires Struct(c, s) && SerInv(c, s) && SvcEnabled(c, s, Serve(v, a)) && s.svcs[v].inbox[a][0].RemoveNode?
    requires WellFormed(c, DoRemoveNode(s, v, a))
    ensures SerInv(c, DoRemoveNode(s, v, a))
  {
    KeepQuiet(c, s, DoRemoveNode(s, v, a));
  }

  lemma KeepEvict(c: Config, s: State, v: nat, a: nat)
    requires Struct(c, s) && SerInv(c, s) && SvcEnabled(c, s, Serve(v, a)) && s.svcs[v].inbox[a][0].Request?
    requires WellFormed(c, DoEvict(s, v, a))
    ensures SerInv(c, DoEvict(s, v, a))
  {
    KeepQuiet(c, s, DoEvict(s, v, a));
  }

  lemma KeepRefuse(c: Config, s: State, v: nat, a: nat)
    requires Struct(c, s) && SerInv(c, s) && SvcEnabled(c, s, Serve(v, a)) && s.svcs[v].inbox[a][0].Request?
    requires WellFormed(c, DoRefuse(s, v, a))
    ensures SerInv(c, DoRefuse(s, v, a))
  {
    KeepQuiet(c, s, DoRefuse(s, v, a));
  }

  lemma KeepAbortNode(c: Config, s: State, v: nat, d: nat)
    requires Struct(c, s) && SerInv(c, s) && SvcEnabled(c, s, AbortNode(v, d))
    requires WellFormed(c, DoAbortNode(s, v, d))
    ensures SerInv(c, DoAbortNode(s, v, d))
  {
    KeepQuiet(c, s, DoAbortNode(s, v, d));
  }

  lemma KeepDeleteNode(c: Config, s: State, v: nat)
    requires Struct(c, s) && SerInv(c, s) && v < c.svcs && s.svcs[v].pc.Purging?
    requires WellFormed(c, DoDeleteNode(s, v))
    ensures SerInv(c, DoDeleteNode(s, v))
  {
    KeepQuiet(c, s, DoDeleteNode(s, v));
  }

  lemma KeepGrant(c: Config, s: State, v: nat)
    requires Struct(c, s) && SerInv(c, s) && SvcEnabled(c, s, Grant(v))
    requires WellFormed(c, DoGrant(s, v))
    ensures SerInv(c, DoGrant(s, v))
  {
    KeepQuiet(c, s, DoGrant(s, v));
  }

  lemma KeepDeleteSelf(c: Config, s: State, v: nat)
    requires Struct(c, s) && SerInv(c, s) && v < c.svcs && s.svcs[v].pc.PurgingSelf?
    requires WellFormed(c, DoDeleteSelf(s, v))
    ensures SerInv(c, DoDeleteSelf(s, v))
  {
    KeepQuiet(c, s, DoDeleteSelf(s, v));
  }

  lemma KeepPeek(c: Config, s: State, a: nat, x: int)
    requires Struct(c, s) && SerInv(c, s) && AppEnabled(c, s, Peek(a, x))
    requires WellFormed(c, DoPeek(s, a, x))
    ensures SerInv(c, DoPeek(s, a, x))
  {
    KeepQuiet(c, s, DoPeek(s, a, x));
  }

  /** A plain store to memory that no live attempt has locked comes after all that has
      committed and before all that will. */
  lemma KeepPlainStore(c: Config, s: State, a: nat, x: int, val: int)
    requires Struct(c, s) && SerInv(c, s) && AppEnabled(c, s, PlainStore(a, x, val))
    ensures SerInv(c, DoPlainStore(s, a, x, val))
  {
    var s' := DoPlainStore(s, a, x, val);
    SerialGrows(s.init, s.log, Commit(a, true, [], [], [Access(x, val)]));
    assert [Access(x, val)][..0] == [];
    assert Serial(s') == Serial(s)[x := val];
    forall b | 0 <= b < c.apps ensures PendingSerial(s'.apps[b], Serial(s')) {
      assert PendingSerial(s.apps[b], Serial(s)) && AppOk(s.apps[b]);
    }
    forall y | (forall b | 0 <= b < c.apps :: !Pending(s'.apps[b], y)) ensures Load(s'.mem, y) == Load(Serial(s'), y) {
      forall b | 0 <= b < c.apps ensures !Pending(s.apps[b], y) {
        assert !Pending(s'.apps[b], y);
      }
      assert Load(s.mem, y) == Load(Serial(s), y);
    }
    forall b | 0 <= b < c.apps && Live(s.apps[b], s.flags[b]) && !s.apps[b].pc.Persisting?
      ensures ReadsMatch(s.apps[b].seen, Serial(s'))
    {
      assert AppOk(s.apps[b]);
    }
    forall i | 0 <= i < |s'.log| ensures ReadsMatch(s'.log[i].seen, SerialMem(s'.init, s'.log[..i])) {
      assert s'.log[..i] == s.log[..i];
      assert i < |s.log| ==> s'.log[i] == s.log[i];
    }
  }

  lemma SerialGrows(init: map<int, int>, log: seq<Commit>, e: Commit)
    ensures SerialMem(init, log + [e]) == Store(SerialMem(init, log), e.ws)
  {
    assert (log + [e])[..|log|] == log;
  }

  /** Publishing TX_COMMITTED after the last store leaves nothing pending. */
  lemma KeepPublish(c: Config, s: State, a: nat)
    requires Struct(c, s) && SerInv(c, s) && AppEnabled(c, s, Publish(a))
    ensures SerInv(c, DoPublish(s, a))
  {
    var s' := DoPublish(s, a);
    forall x | (forall b | 0 <= b < c.apps :: !Pending(s'.apps[b], x)) ensures Load(s'.mem, x) == Load(Serial(s'), x) {
      forall b | 0 <= b < c.apps ensures !Pending(s.apps[b], x) {
        assert !Pending(s'.apps[b], x);
      }
    }
  }

  lemma KeepRawRead(c: Config, s: State, a: nat, x: int)
    requires Struct(c, s) && SerInv(c, s) && AppEnabled(c, s, RawRead(a, x))
    ensures SerInv(c, DoRawRead(s, a, x))
  {
    var s' := DoRawRead(s, a, x);
    if Live(s.apps[a], s.flags[a]) {
      var m := if Lock(x, Rd) in s.apps[a].granted then Rd else Wr;
      forall b | 0 <= b < c.apps ensures !Pending(s.apps[b], x) {
        if Pending(s.apps[b], x) {
          assert AppOk(s.apps[b]);
          LiveExclusion(c, s, b, a, x, m);
        }
      }
    }
    forall y | (forall b | 0 <= b < c.apps :: !Pending(s'.apps[b], y)) ensures Load(s'.mem, y) == Load(Serial(s'), y) {
      forall b | 0 <= b < c.apps ensures !Pending(s.apps[b], y) {
        assert !Pending(s'.apps[b], y);
      }
    }
  }

  lemma KeepPersistEntry(c: Config, s: State, a: nat)
    requires Struct(c, s) && SerInv(c, s) && AppEnabled(c, s, PersistEntry(a))
    ensures SerInv(c, DoPersistEntry(s, a))
  {
    var s' := DoPersistEntry(s, a);
    forall x | (forall b | 0 <= b < c.apps :: !Pending(s'.apps[b], x)) ensures Load(s'.mem, x) == Load(Serial(s'), x) {
      PersistedIsSerial(c, s, a, x);
    }
    forall b | 0 <= b < c.apps ensures PendingSerial(s'.apps[b], Serial(s')) {
      assert PendingSerial(s.apps[b], Serial(s));
    }
  }

  lemma PersistedIsSerial(c: Config, s: State, a: nat, x: int)
    requires WellFormed(c, s) && ValidConfig(c) && SerInv(c, s) && AppEnabled(c, s, PersistEntry(a))
    requires forall b | 0 <= b < c.apps :: !Pending(DoPersistEntry(s, a).apps[b], x)
    ensures Load(DoPersistEntry(s, a).mem, x) == Load(Serial(s), x)
  {
    var s' := DoPersistEntry(s, a);
    if x != s.apps[a].ws[s.apps[a].pc.next].addr {
      forall b | 0 <= b < c.apps ensures !Pending(s.apps[b], x) {
        assert !Pending(s'.apps[b], x);
      }
    } else {
      assert PendingSerial(s.apps[a], Serial(s)) && !Pending(s'.apps[a], x);
      assert IsLatest(s.apps[a].ws, s.apps[a].pc.next);
    }
  }

  /** What one attempt commits, the others that can still commit have not read. */
  lemma OthersReadElsewhere(c: Config, s: State, a: nat, b: nat)
    requires Struct(c, s) && SerInv(c, s) && AppEnabled(c, s, TryPersist(a)) && s.flags[a] == NoConflict
    requires b < c.apps && b != a && Live(s.apps[b], s.flags[b]) && !s.apps[b].pc.Persisting?
    ensures ReadsMatch(s.apps[b].seen, Store(Serial(s), s.apps[a].ws))
  {
    var seen, ws := s.apps[b].seen, s.apps[a].ws;
    assert AppOk(s.apps[b]);
    forall i | 0 <= i < |seen| ensures seen[i].val == Load(Store(Serial(s), ws), seen[i].addr) {
      var x := seen[i].addr;
      if Buffered(ws, x) {
        LiveExclusion(c, s, a, b, x, if Lock(x, Rd) in s.apps[b].granted then Rd else Wr);
      }
      StoreElsewhere(Serial(s), ws, x);
    }
  }

  /** The CAS to PERSISTING is the serialization point. */
  lemma KeepTryPersist(c: Config, s: State, a: nat)
    requires Struct(c, s) && SerInv(c, s) && AppEnabled(c, s, TryPersist(a))
    ensures SerInv(c, DoTryPersist(s, a))
  {
    var s' := DoTryPersist(s, a);
    if s.flags[a] != NoConflict {
      KeepQuiet(c, s, s');
    } else {
      KeepTryPersistMemory(c, s, a);
      KeepTryPersistReads(c, s, a);
    }
  }

  lemma KeepTryPersistReads(c: Config, s: State, a: nat)
    requires Struct(c, s) && SerInv(c, s) && AppEnabled(c, s, TryPersist(a)) && s.flags[a] == NoConflict
    ensures CommittedReadsSerial(DoTryPersist(s, a)) && LiveReadsSerial(c, DoTryPersist(s, a))
  {
    var s' := DoTryPersist(s, a);
    SerialGrows(s.init, s.log, Committing(s.apps[a], a));
    forall i | 0 <= i < |s'.log| ensures ReadsMatch(s'.log[i].seen, SerialMem(s'.init, s'.log[..i])) {
      assert s'.log[..i] == s.log[..i];
      assert s.log[..|s.log|] == s.log;
    }
    forall b | 0 <= b < c.apps && Live(s'.apps[b], s'.flags[b]) && !s'.apps[b].pc.Persisting?
      ensures ReadsMatch(s'.apps[b].seen, Serial(s'))
    {
      OthersReadElsewhere(c, s, a, b);
    }
  }

  lemma KeepTryPersistMemory(c: Config, s: State, a: nat)
    requires Struct(c, s) && SerInv(c, s) && AppEnabled(c, s, TryPersist(a)) && s.flags[a] == NoConflict
    ensures MemorySerial(c, DoTryPersist(s, a))
  {
    var s' := DoTryPersist(s, a);
    var app := s.apps[a];
    SerialGrows(s.init, s.log, Committing(app, a));
    assert AppOk(app);
    forall b | 0 <= b < c.apps ensures PendingSerial(s'.apps[b], Serial(s')) {
      assert PendingSerial(s.apps[b], Serial(s)) && AppOk(s.apps[b]);
      if s'.apps[b].pc.Persisting? {
        forall j | 0 <= j < |s'.apps[b].ws| && IsLatest(s'.apps[b].ws, j)
          ensures Load(Serial(s'), s'.apps[b].ws[j].addr) == s'.apps[b].ws[j].val
        {
          var x := s.apps[b].ws[j].addr;
          if b == a {
            StoreAt(Serial(s), app.ws, j);
          } else {
            if Buffered(app.ws, x) { LiveExclusion(c, s, a, b, x, Wr); }
            StoreElsewhere(Serial(s), app.ws, x);
          }
        }
      }
    }
    forall x | (forall b | 0 <= b < c.apps :: !Pending(s'.apps[b], x)) ensures Load(s'.mem, x) == Load(Serial(s'), x) {
      forall b | 0 <= b < c.apps ensures !Pending(s.apps[b], x) {
        assert !Pending(s'.apps[b], x);
      }
      assert !Pending(s'.apps[a], x);
      StoreElsewhere(Serial(s), app.ws, x);
    }
  }
}
