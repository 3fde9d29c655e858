/** The contents of the lock table as plain values: what each slot holds, what each node's
    log points at, when the two agree, and which set of holdings they stand for.  Slots are
    told apart by an arbitrary type `S`; `LockTable.dfy` uses references. */
module SlotSpec {
  import opened Locks

  const NO_WRITER: nat := 0xFF

  /** addr[i] and entry[i] of a bucket. */
  datatype SlotView = SlotView(addr: int, nr: int, readers: set<nat>, writer: nat)

  const EMPTY := SlotView(0, 0, {}, NO_WRITER)

  predicate Vacant(v: SlotView) { v.readers == {} && v.writer == NO_WRITER }

  predicate HeldBy(v: SlotView, k: nat) { v.writer == k || k in v.readers }

  function Times(v: SlotView, k: nat): nat {
    (if v.writer == k then 1 else 0) + (if k in v.readers then 1 else 0)
  }

  ghost predicate SlotOk(v: SlotView, nodes: nat) {
    && v.nr == |v.readers|
    && (forall k | k in v.readers :: k < nodes)
    && (v.writer == NO_WRITER || v.writer < nodes)
    && (v.addr == 0 ==> Vacant(v))
    && (v.writer != NO_WRITER ==> v.readers <= {v.writer})
  }

  /** Table and logs agree: every holding has its own log entry and every log entry its
      holding, and no address is in two slots. */
  ghost predicate Coherent<S>(nodes: nat, view: map<S, SlotView>, logs: seq<seq<S>>) {
    && |logs| == nodes <= NO_WRITER
    && (forall s | s in view :: SlotOk(view[s], nodes))
    && (forall s, t | s in view && t in view && view[s].addr == view[t].addr != 0 :: s == t)
    && (forall k, s | 0 <= k < nodes && s in logs[k] :: s in view)
    && (forall k, s | 0 <= k < nodes && s in view :: multiset(logs[k])[s] == Times(view[s], k))
  }

  predicate Holding(v: SlotView, x: Hold) {
    x.addr == v.addr && if x.mode == Rd then x.node in v.readers else x.node == v.writer != NO_WRITER
  }

  ghost function SlotHolds(v: SlotView): (h: set<Hold>)
    ensures forall x :: x in h <==> Holding(v, x)
  {
    (set k | k in v.readers :: Hold(k, v.addr, Rd)) +
    (if v.writer == NO_WRITER then {} else {Hold(v.writer, v.addr, Wr)})
  }

  /** The holdings a table stands for. */
  ghost function Holds<S>(view: map<S, SlotView>): set<Hold> {
    set s, x | s in view && x in SlotHolds(view[s]) :: x
  }

  // ------------------------------------------------- removing one holder

  /** ssht_bucket_remove_index: drop the write lock if there is one, else the read lock. */
  function Dropped(v: SlotView, k: nat): SlotView {
    var u := if v.writer == k then v.(writer := NO_WRITER) else v.(readers := v.readers - {k}, nr := (v.nr - 1) % 256);
    if u.nr == 0 && u.writer == NO_WRITER then u.(addr := 0) else u
  }

  /** All of `k`'s holdings gone from a slot; a slot that this vacates is free again. */
  function Purged(v: SlotView, k: nat): SlotView {
    if !HeldBy(v, k) then v
    else
      var r := v.readers - {k};
      var w := if v.writer == k then NO_WRITER else v.writer;
      SlotView(if r == {} && w == NO_WRITER then 0 else v.addr, |r|, r, w)
  }

  function PurgedAll<S>(view: map<S, SlotView>, k: nat): map<S, SlotView> {
    map s | s in view :: Purged(view[s], k)
  }

  /** A counter of eight bits is wide enough for the readers of one slot. */
  lemma {:induction false} ReadersFit(r: set<nat>, nodes: nat)
    requires forall k | k in r :: k < nodes
    ensures |r| <= nodes
  {
    if nodes == 0 {
      assert r == {};
    } else {
      ReadersFit(r - {nodes - 1}, nodes - 1);
    }
  }

  /** Dropping as often as the log says is purging. */
  lemma DroppedIsPurged(v: SlotView, k: nat, nodes: nat)
    requires SlotOk(v, nodes) && nodes <= NO_WRITER && k < nodes && HeldBy(v, k)
    ensures SlotOk(Dropped(v, k), nodes) && Times(Dropped(v, k), k) == Times(v, k) - 1
    ensures Purged(Dropped(v, k), k) == Purged(v, k)
    ensures forall j: nat | j != k && j < nodes :: Times(Dropped(v, k), j) == Times(v, j)
  {
    ReadersFit(v.readers, nodes);
  }

  /** The write lock goes first, nobody else's goes with it, and the slot is free when it was the
      last. */
  lemma WriteLockGoesFirst(v: SlotView, k: nat, nodes: nat)
    requires SlotOk(v, nodes) && nodes <= NO_WRITER && k < nodes && HeldBy(v, k)
    ensures var u := Dropped(v, k);
            && (forall j: nat :: j in u.readers <==> j in v.readers && (v.writer == k || j != k))
            && u.writer == (if v.writer == k then NO_WRITER else v.writer)
            && u.addr == if u.readers == {} && u.writer == NO_WRITER then 0 else v.addr
  {
    ReadersFit(v.readers, nodes);
    if v.writer != k {
      assert v.readers == v.readers - {k} + {k};
    }
  }

  lemma PurgedSlotOk(v: SlotView, k: nat, nodes: nat)
    requires SlotOk(v, nodes) && nodes <= NO_WRITER && k < nodes
    ensures SlotOk(Purged(v, k), nodes)
    ensures Times(Purged(v, k), k) == 0
    ensures forall j: nat | j != k && j < nodes :: Times(Purged(v, k), j) == Times(v, j)
    ensures Purged(v, k).addr == v.addr || (Purged(v, k).addr == 0 && Vacant(Purged(v, k)))
  {
  }

  lemma PurgedSlotHolds(v: SlotView, k: nat, nodes: nat)
    requires SlotOk(v, nodes) && nodes <= NO_WRITER && k < nodes
    ensures forall x :: Holding(Purged(v, k), x) <==> Holding(v, x) && x.node != k
  {
  }

  /** A purge takes exactly the node's holdings and leaves table and logs in agreement. */
  lemma PurgeKeepsCoherent<S>(nodes: nat, view: map<S, SlotView>, logs: seq<seq<S>>, k: nat)
    requires Coherent(nodes, view, logs) && k < nodes
    ensures Coherent(nodes, PurgedAll(view, k), logs[k := []])
    ensures Holds(PurgedAll(view, k)) == Without(Holds(view), {k})
  {
    forall s | s in view
      ensures SlotOk(PurgedAll(view, k)[s], nodes) && Times(PurgedAll(view, k)[s], k) == 0
      ensures forall j: nat | j != k && j < nodes :: Times(PurgedAll(view, k)[s], j) == Times(view[s], j)
      ensures PurgedAll(view, k)[s].addr == view[s].addr || PurgedAll(view, k)[s].addr == 0
    {
      PurgedSlotOk(view[s], k, nodes);
    }
    PurgeHolds(nodes, view, k);
  }

  lemma PurgeHolds<S>(nodes: nat, view: map<S, SlotView>, k: nat)
    requires nodes <= NO_WRITER && k < nodes && forall s | s in view :: SlotOk(view[s], nodes)
    ensures Holds(PurgedAll(view, k)) == Without(Holds(view), {k})
  {
    forall x ensures x in Holds(PurgedAll(view, k)) <==> x in Holds(view) && x.node != k {
      if s :| s in view && x in SlotHolds(view[s]) && x.node != k {
        PurgedSlotHolds(view[s], k, nodes);
        assert x in SlotHolds(PurgedAll(view, k)[s]);
      }
      if s :| s in view && x in SlotHolds(PurgedAll(view, k)[s]) {
        PurgedSlotHolds(view[s], k, nodes);
        assert x in SlotHolds(view[s]);
      }
    }
  }

  /** A purge under way: `now` is what `view` has become, `rest` the log entries to come. */
  ghost predicate PartlyPurged<S>(nodes: nat, view: map<S, SlotView>, now: map<S, SlotView>, rest: seq<S>, k: nat) {
    && now.Keys == view.Keys
    && (forall s | s in rest :: s in view)
    && forall s | s in view ::
         SlotOk(now[s], nodes) && Purged(now[s], k) == Purged(view[s], k) && Times(now[s], k) == multiset(rest)[s]
  }

  lemma PurgeStarts<S>(nodes: nat, view: map<S, SlotView>, logs: seq<seq<S>>, k: nat)
    requires Coherent(nodes, view, logs) && k < nodes
    ensures PartlyPurged(nodes, view, view, logs[k], k)
  {
  }

  lemma PurgeProceeds<S>(nodes: nat, view: map<S, SlotView>, now: map<S, SlotView>, rest: seq<S>, k: nat)
    requires PartlyPurged(nodes, view, now, rest, k) && rest != [] && k < nodes <= NO_WRITER
    ensures PartlyPurged(nodes, view, now[rest[0] := Dropped(now[rest[0]], k)], rest[1..], k)
  {
    FirstAndRest(rest);
    DroppedIsPurged(now[rest[0]], k, nodes);
    PurgeStep(nodes, view, now, rest, k, Dropped(now[rest[0]], k));
  }

  lemma PurgeStep<S>(nodes: nat, view: map<S, SlotView>, now: map<S, SlotView>, rest: seq<S>, k: nat, v: SlotView)
    requires PartlyPurged(nodes, view, now, rest, k) && rest != []
    requires SlotOk(v, nodes) && Purged(v, k) == Purged(now[rest[0]], k) && Times(v, k) == Times(now[rest[0]], k) - 1
    ensures PartlyPurged(nodes, view, now[rest[0] := v], rest[1..], k)
  {
    FirstAndRest(rest);
  }

  lemma FirstAndRest<S>(l: seq<S>)
    requires l != []
    ensures forall u :: multiset(l)[u] == multiset(l[1..])[u] + if u == l[0] then 1 else 0
    ensures forall u | u in l[1..] :: u in l
  {
    assert l == [l[0]] + l[1..];
  }

  lemma PurgeEnds<S>(nodes: nat, view: map<S, SlotView>, now: map<S, SlotView>, k: nat)
    requires PartlyPurged(nodes, view, now, [], k)
    ensures now == PurgedAll(view, k)
  {
    forall s | s in view ensures now[s] == Purged(view[s], k) {
      assert Times(now[s], k) == 0;
    }
  }

  // -------------------------------------------------- adding one holder

  /** The last log entry moves into the hole. */
  lemma SwapOut<S>(l: seq<S>, j: nat)
    requires j < |l|
    ensures multiset(l[j := l[|l| - 1]][..|l| - 1]) == multiset(l) - multiset{l[j]}
  {
    var n := |l| - 1;
    if j == n {
      assert l == l[..n] + [l[n]] && l[j := l[n]][..n] == l[..n];
    } else {
      var b, e := l[..j], l[j + 1..n];
      assert l == b + [l[j]] + e + [l[n]];
      assert l[j := l[n]][..n] == b + [l[n]] + e;
      LastForFirst(b, l[j], e, l[n]);
    }
  }

  lemma LastForFirst<S>(b: seq<S>, x: S, e: seq<S>, y: S)
    ensures multiset(b + [y] + e) == multiset(b + [x] + e + [y]) - multiset{x}
  {
  }

  function WithReader(v: SlotView, a: int, id: nat): SlotView {
    if id in v.readers then v.(addr := a)
    else v.(addr := a, readers := v.readers + {id}, nr := (v.nr + 1) % 256)
  }

  function WithWriter(v: SlotView, a: int, id: nat): SlotView {
    v.(addr := a, writer := id)
  }

  function Entered(v: SlotView, a: int, id: nat, m: Mode): SlotView {
    if m == Rd then WithReader(v, a, id) else WithWriter(v, a, id)
  }

  /** `s` is the slot for address `a`: the one that has it, or a free one when none has. */
  ghost predicate SlotFor<S>(view: map<S, SlotView>, s: S, a: int) {
    && a != 0 && s in view && (view[s].addr == a || view[s].addr == 0)
    && forall t | t in view && t != s :: view[t].addr != a
  }

  lemma FoundIsFor<S>(nodes: nat, view: map<S, SlotView>, logs: seq<seq<S>>, s: S, a: int, id: nat)
    requires Coherent(nodes, view, logs) && s in view && view[s].addr == a != 0 && id < nodes
    ensures SlotFor(view, s, a) && (Hold(id, a, Wr) in Holds(view) <==> view[s].writer == id)
  {
    HoldsAt(view, s, Hold(id, a, Wr));
  }

  lemma HoldsUpdated<S>(view: map<S, SlotView>, s: S, v: SlotView, x: Hold)
    requires s in view && SlotHolds(v) == SlotHolds(view[s]) + {x}
    ensures Holds(view[s := v]) == Holds(view) + {x}
  {
    var view' := view[s := v];
    forall y | y in Holds(view) + {x} ensures y in Holds(view') {
      if y in Holds(view) {
        var u :| u in view && y in SlotHolds(view[u]);
        assert y in SlotHolds(view'[u]);
      } else {
        assert y in SlotHolds(view'[s]);
      }
    }
    forall y | y in Holds(view') ensures y in Holds(view) + {x} {
      var u :| u in view' && y in SlotHolds(view'[u]);
      assert u in view;
    }
  }

  /** One more holding and one more log entry keep table and logs in agreement. */
  lemma AddedIsCoherent<S>(nodes: nat, view: map<S, SlotView>, logs: seq<seq<S>>, s: S, v: SlotView, id: nat, n: nat)
    requires Coherent(nodes, view, logs) && id < nodes && SlotFor(view, s, v.addr) && SlotOk(v, nodes) && n <= 1
    requires forall k: nat | k < nodes :: Times(v, k) == Times(view[s], k) + if k == id then n else 0
    ensures Coherent(nodes, view[s := v], if n == 0 then logs else logs[id := logs[id] + [s]])
  {
    var logs' := if n == 0 then logs else logs[id := logs[id] + [s]];
    forall k, u | 0 <= k < nodes && u in view
      ensures multiset(logs'[k])[u] == multiset(logs[k])[u] + if k == id && u == s then n else 0
    {
    }
  }

  lemma TakeRead<S>(nodes: nat, view: map<S, SlotView>, logs: seq<seq<S>>, s: S, id: nat, a: int)
    requires Coherent(nodes, view, logs) && id < nodes && SlotFor(view, s, a) && view[s].writer == NO_WRITER
    ensures Coherent(nodes, view[s := WithReader(view[s], a, id)],
                     if id in view[s].readers then logs else logs[id := logs[id] + [s]])
    ensures Holds(view[s := WithReader(view[s], a, id)]) == Holds(view) + {Hold(id, a, Rd)}
  {
    var v := WithReader(view[s], a, id);
    ReadersFit(view[s].readers, nodes);
    ReadersFit(v.readers, nodes);
    AddedIsCoherent(nodes, view, logs, s, v, id, if id in view[s].readers then 0 else 1);
    HoldsUpdated(view, s, v, Hold(id, a, Rd));
  }

  lemma TakeWrite<S>(nodes: nat, view: map<S, SlotView>, logs: seq<seq<S>>, s: S, id: nat, a: int)
    requires Coherent(nodes, view, logs) && id < nodes && SlotFor(view, s, a)
    requires view[s].writer == NO_WRITER && view[s].readers <= {id}
    ensures Coherent(nodes, view[s := WithWriter(view[s], a, id)], logs[id := logs[id] + [s]])
    ensures Holds(view[s := WithWriter(view[s], a, id)]) == Holds(view) + {Hold(id, a, Wr)}
  {
    AddedIsCoherent(nodes, view, logs, s, WithWriter(view[s], a, id), id, 1);
    HoldsUpdated(view, s, WithWriter(view[s], a, id), Hold(id, a, Wr));
  }

  // ------------------------------------------------------ single release

  /** ssht_remove on the slot of a log entry; unlike a purge it leaves the address. */
  function Released(v: SlotView, id: nat, m: Mode): SlotView {
    if m == Wr then (if v.writer == id then v.(writer := NO_WRITER) else v)
    else v.(readers := v.readers - {id}, nr := (v.nr - 1) % 256)
  }

  /** What ssht_remove needs of its caller: the node has that lock, or none on the address. */
  ghost predicate MayRelease(h: set<Hold>, id: nat, a: int, m: Mode) {
    Hold(id, a, m) in h || (Hold(id, a, Rd) !in h && Hold(id, a, Wr) !in h)
  }

  ghost predicate SameAddresses<S>(view: map<S, SlotView>, view': map<S, SlotView>) {
    view'.Keys == view.Keys && forall s | s in view :: view'[s].addr == view[s].addr
  }

  /** Releasing one lock takes that holding -- but only a node that has the lock may do it:
      otherwise a log entry, or the reader counter, goes out of step. */
  lemma ReleasedExactly<S>(nodes: nat, view: map<S, SlotView>, logs: seq<seq<S>>, s: S, id: nat, m: Mode, log: seq<S>)
    requires Coherent(nodes, view, logs) && id < nodes && s in logs[id]
    requires multiset(log) == multiset(logs[id]) - multiset{s}
    ensures Coherent(nodes, view[s := Released(view[s], id, m)], logs[id := log])
            <==> Hold(id, view[s].addr, m) in SlotHolds(view[s])
    ensures Holds(view[s := Released(view[s], id, m)]) == Holds(view) - {Hold(id, view[s].addr, m)}
  {
    if Hold(id, view[s].addr, m) in SlotHolds(view[s]) {
      ReleaseKeepsCoherent(nodes, view, logs, s, id, m, log);
    } else {
      ReleaseBreaks(nodes, view, logs, s, id, m, log);
    }
  }

  lemma ReleasedSlotOk(v: SlotView, id: nat, m: Mode, nodes: nat)
    requires SlotOk(v, nodes) && id < nodes <= NO_WRITER && Hold(id, v.addr, m) in SlotHolds(v)
    ensures SlotOk(Released(v, id, m), nodes) && Released(v, id, m).addr == v.addr
    ensures forall k: nat | k < nodes :: Times(Released(v, id, m), k) == Times(v, k) - if k == id then 1 else 0
    ensures forall x :: Holding(Released(v, id, m), x) <==> Holding(v, x) && x != Hold(id, v.addr, m)
  {
    ReadersFit(v.readers, nodes);
  }

  lemma ReleaseKeepsCoherent<S>(nodes: nat, view: map<S, SlotView>, logs: seq<seq<S>>, s: S, id: nat, m: Mode,
                                log: seq<S>)
    requires Coherent(nodes, view, logs) && id < nodes && s in logs[id]
    requires multiset(log) == multiset(logs[id]) - multiset{s}
    requires Hold(id, view[s].addr, m) in SlotHolds(view[s])
    ensures Coherent(nodes, view[s := Released(view[s], id, m)], logs[id := log])
    ensures Holds(view[s := Released(view[s], id, m)]) == Holds(view) - {Hold(id, view[s].addr, m)}
  {
    ReleasedSlotOk(view[s], id, m, nodes);
    ReleasedHolds(view, s, Released(view[s], id, m), Hold(id, view[s].addr, m));
    LogShrinks(logs, id, s, log);
  }

  lemma LogShrinks<S>(logs: seq<seq<S>>, id: nat, s: S, log: seq<S>)
    requires id < |logs| && s in logs[id] && multiset(log) == multiset(logs[id]) - multiset{s}
    ensures forall u | u in log :: u in logs[id]
    ensures forall k: nat, u | k < |logs| ::
              multiset(logs[id := log][k])[u] == multiset(logs[k])[u] - if k == id && u == s then 1 else 0
  {
    forall u | u in log ensures u in logs[id] {
      assert u in multiset(log);
    }
    assert s in multiset(logs[id]);
  }

  /** Releasing a lock that the node does not have leaves the holdings as they are. */
  lemma MissingIsNotReleased<S>(nodes: nat, view: map<S, SlotView>, logs: seq<seq<S>>, s: S, id: nat, m: Mode)
    requires Coherent(nodes, view, logs) && id < nodes && s in view && HeldBy(view[s], id)
    requires Hold(id, view[s].addr, m) !in SlotHolds(view[s])
    ensures Holds(view[s := Released(view[s], id, m)]) == Holds(view) - {Hold(id, view[s].addr, m)}
  {
    var v, view' := Released(view[s], id, m), view[s := Released(view[s], id, m)];
    assert forall y :: Holding(v, y) <==> Holding(view[s], y);
    forall y ensures y in Holds(view') <==> y in Holds(view) {
      if u :| u in view && y in SlotHolds(view[u]) {
        assert y in SlotHolds(view'[u]);
      }
      if u :| u in view' && y in SlotHolds(view'[u]) {
        assert y in SlotHolds(view[u]);
      }
    }
    assert SlotFor(view, s, view[s].addr);
    HoldsAt(view, s, Hold(id, view[s].addr, m));
  }

  lemma ReleaseBreaks<S>(nodes: nat, view: map<S, SlotView>, logs: seq<seq<S>>, s: S, id: nat, m: Mode, log: seq<S>)
    requires Coherent(nodes, view, logs) && id < nodes && s in logs[id]
    requires multiset(log) == multiset(logs[id]) - multiset{s}
    requires Hold(id, view[s].addr, m) !in SlotHolds(view[s])
    ensures !Coherent(nodes, view[s := Released(view[s], id, m)], logs[id := log])
    ensures Holds(view[s := Released(view[s], id, m)]) == Holds(view) - {Hold(id, view[s].addr, m)}
  {
    MissingIsNotReleased(nodes, view, logs, s, id, m);
    var view', logs' := view[s := Released(view[s], id, m)], logs[id := log];
    assert s in view && multiset(logs[id])[s] == Times(view[s], id) > 0;
    assert multiset(logs'[id])[s] == Times(view[s], id) - 1;
    if m == Wr {
      assert view[s].writer != id && view'[s] == view[s];
    } else {
      assert id !in view[s].readers && view[s].readers == {};
      assert !SlotOk(view'[s], nodes);
    }
  }

  lemma ReleasedHolds<S>(view: map<S, SlotView>, s: S, v: SlotView, x: Hold)
    requires s in view && Holding(view[s], x) && view[s].addr != 0
    requires forall y :: Holding(v, y) <==> Holding(view[s], y) && y != x
    requires forall t, u | t in view && u in view && view[t].addr == view[u].addr != 0 :: t == u
    ensures Holds(view[s := v]) == Holds(view) - {x}
  {
    var view' := view[s := v];
    forall y | y in Holds(view) - {x} ensures y in Holds(view') {
      var u :| u in view && y in SlotHolds(view[u]);
      assert y in SlotHolds(view'[u]);
    }
    forall y | y in Holds(view') ensures y in Holds(view) - {x} {
      var u :| u in view' && y in SlotHolds(view'[u]);
      assert y in SlotHolds(view[u]);
    }
  }

  /** A node has a lock on an address exactly if its log points at a slot with that address. */
  lemma EntryFound<S>(nodes: nat, view: map<S, SlotView>, logs: seq<seq<S>>, s: S, id: nat, a: int)
    requires Coherent(nodes, view, logs) && id < nodes && s in logs[id] && view[s].addr == a != 0
    ensures SlotFor(view, s, a) && (Hold(id, a, Rd) in Holds(view) || Hold(id, a, Wr) in Holds(view))
  {
    assert s in view && multiset(logs[id])[s] == Times(view[s], id) > 0;
    assert Hold(id, a, Rd) in SlotHolds(view[s]) || Hold(id, a, Wr) in SlotHolds(view[s]);
  }

  lemma NoEntry<S>(nodes: nat, view: map<S, SlotView>, logs: seq<seq<S>>, id: nat, a: int)
    requires Coherent(nodes, view, logs) && id < nodes
    requires forall s | s in logs[id] :: s in view && view[s].addr != a
    ensures Hold(id, a, Rd) !in Holds(view) && Hold(id, a, Wr) !in Holds(view)
  {
    forall s | s in view && view[s].addr == a ensures !HeldBy(view[s], id) {
      assert multiset(logs[id])[s] == Times(view[s], id);
    }
  }

  // ------------------------------------------------- writing a lock twice

  /** Every granted write request logs the slot again: table and log stay in step exactly
      if the node did not have the write lock yet. */
  lemma TakeWriteExactly<S>(nodes: nat, view: map<S, SlotView>, logs: seq<seq<S>>, s: S, id: nat, a: int)
    requires Coherent(nodes, view, logs) && id < nodes && SlotFor(view, s, a)
    requires (view[s].writer == NO_WRITER || view[s].writer == id) && view[s].readers <= {id}
    ensures Coherent(nodes, view[s := WithWriter(view[s], a, id)], logs[id := logs[id] + [s]])
            <==> Hold(id, a, Wr) !in Holds(view)
    ensures Holds(view[s := WithWriter(view[s], a, id)]) == Holds(view) + {Hold(id, a, Wr)}
  {
    var view', logs' := view[s := WithWriter(view[s], a, id)], logs[id := logs[id] + [s]];
    HoldsAt(view, s, Hold(id, a, Wr));
    HoldsUpdated(view, s, WithWriter(view[s], a, id), Hold(id, a, Wr));
    if view[s].writer == NO_WRITER {
      TakeWrite(nodes, view, logs, s, id, a);
    } else {
      assert multiset(logs'[id])[s] == Times(view[s], id) + 1 && Times(view'[s], id) == Times(view[s], id);
    }
  }

  /** What that leads to.  Node 0 takes the write lock of a free slot twice and is purged:
      the counter ends at 255 with no reader.  The next reader brings it back to 0, and the
      guard of bucket_insert_w then lets a third node write while that reader holds on. */
  lemma WrittenTwiceLosesExclusion(a: int)
    requires a != 0
    ensures var twice := WithWriter(WithWriter(EMPTY, a, 0), a, 0);
            var purged := Dropped(Dropped(twice, 0), 0);
            var read := WithReader(purged, a, 1);
            && purged.nr == 255 && Vacant(purged)
            && read.readers == {1} && read.writer == NO_WRITER
            && !(read.nr > 1 || (read.nr == 1 && 2 !in read.readers))
            && !Exclusive(SlotHolds(WithWriter(read, a, 2)))
  {
    var w := WithWriter(WithReader(Dropped(Dropped(WithWriter(WithWriter(EMPTY, a, 0), a, 0), 0), 0), a, 1), a, 2);
    assert Hold(1, a, Rd) in SlotHolds(w) && Hold(2, a, Wr) in SlotHolds(w);
  }

  // ----------------------------------------------------- reading the table

  lemma HoldsAt<S>(view: map<S, SlotView>, s: S, x: Hold)
    requires SlotFor(view, s, x.addr) && (view[s].addr == 0 ==> Vacant(view[s]))
    ensures x in Holds(view) <==> x in SlotHolds(view[s])
  {
  }

  lemma CoherentIsExclusive<S>(nodes: nat, view: map<S, SlotView>, logs: seq<seq<S>>)
    requires Coherent(nodes, view, logs)
    ensures Exclusive(Holds(view)) && forall x | x in Holds(view) :: x.node < nodes && x.addr != 0
  {
    forall x, y | x in Holds(view) && y in Holds(view) && x.addr == y.addr && x.mode == Wr ensures x.node == y.node {
      var s :| s in view && x in SlotHolds(view[s]);
      var u :| u in view && y in SlotHolds(view[u]);
      assert s == u;
    }
  }

  /** Who blocks a request can be read off the one slot of the address. */
  lemma BlockersAt<S>(nodes: nat, view: map<S, SlotView>, logs: seq<seq<S>>, s: S, id: nat, a: int)
    requires Coherent(nodes, view, logs) && SlotFor(view, s, a) && id < nodes
    ensures Blockers(Holds(view), id, a, Rd) == (if view[s].writer == NO_WRITER then {} else {view[s].writer})
    ensures view[s].writer == NO_WRITER || view[s].writer == id
            ==> Blockers(Holds(view), id, a, Wr) == view[s].readers - {id}
    ensures view[s].writer != NO_WRITER && view[s].writer != id ==> Blockers(Holds(view), id, a, Wr) == {view[s].writer}
    ensures Reason(Holds(view), id, a, Wr) ==
            if view[s].writer != NO_WRITER && view[s].writer != id then WriteAfterWrite else WriteAfterRead
  {
    forall k: nat, m ensures Hold(k, a, m) in Holds(view) <==> Hold(k, a, m) in SlotHolds(view[s]) {
      HoldsAt(view, s, Hold(k, a, m));
    }
    BlockersFrom(view, s, id, a);
  }

  lemma BlockersFrom<S>(view: map<S, SlotView>, s: S, id: nat, a: int)
    requires SlotFor(view, s, a) && (view[s].addr == 0 ==> Vacant(view[s]))
    requires forall k: nat, m :: Hold(k, a, m) in Holds(view) <==> Hold(k, a, m) in SlotHolds(view[s])
    requires view[s].writer != NO_WRITER ==> view[s].readers <= {view[s].writer}
    ensures Blockers(Holds(view), id, a, Rd) == (if view[s].writer == NO_WRITER then {} else {view[s].writer})
    ensures Blockers(Holds(view), id, a, Wr) ==
            (view[s].readers + if view[s].writer == NO_WRITER then {} else {view[s].writer}) - {id}
    ensures Reason(Holds(view), id, a, Wr) ==
            if view[s].writer != NO_WRITER && view[s].writer != id then WriteAfterWrite else WriteAfterRead
  {
    var h := Holds(view);
    forall k: nat ensures k in Blockers(h, id, a, Rd) <==> Hold(k, a, Wr) in h {
      if k in Blockers(h, id, a, Rd) {
        var x :| x in h && x.addr == a && x.mode == Wr && x.node == k;
        assert x == Hold(k, a, Wr);
      }
    }
    forall k: nat ensures k in Blockers(h, id, a, Wr) <==> k != id && (Hold(k, a, Rd) in h || Hold(k, a, Wr) in h) {
      if k in Blockers(h, id, a, Wr) {
        var x :| x in h && x.addr == a && x.node != id && x.node == k;
        assert x == Hold(k, a, x.mode);
      }
    }
    if x :| x in h && x.addr == a && x.mode == Wr && x.node != id {
      assert x == Hold(x.node, a, Wr);
    }
  }

  /** The counter tells whether a slot is read by anybody but `id`. */
  lemma OthersRead(v: SlotView, id: nat, nodes: nat)
    requires SlotOk(v, nodes)
    ensures v.nr > 1 || (v.nr == 1 && id !in v.readers) <==> v.readers - {id} != {}
  {
    if v.readers - {id} == {} {
      assert v.readers <= {id};
      assert v.readers == {} || v.readers == {id};
    } else if v.nr <= 1 {
      var d :| d in v.readers - {id};
      assert |v.readers - {d}| == 0;
    }
  }

  // ----------------------------------------------- purging several nodes

  /** The purges of the nodes below `n` that are in `victims`, in ascending order. */
  function PurgedEach<S>(view: map<S, SlotView>, victims: set<nat>, n: nat): (r: map<S, SlotView>)
    ensures r.Keys == view.Keys
  {
    if n == 0 then view
    else
      var v := PurgedEach(view, victims, n - 1);
      if n - 1 in victims then PurgedAll(v, n - 1) else v
  }

  function ClearedEach<S>(logs: seq<seq<S>>, victims: set<nat>, n: nat): (r: seq<seq<S>>)
    requires n <= |logs|
    ensures |r| == |logs|
  {
    if n == 0 then logs
    else
      var l := ClearedEach(logs, victims, n - 1);
      if n - 1 in victims then l[n - 1 := []] else l
  }

  /** The calls of abort_node that go with them. */
  function AbortedEach(victims: set<nat>, reason: Conflict, n: nat): seq<Abort> {
    if n == 0 then []
    else AbortedEach(victims, reason, n - 1) + if n - 1 in victims then [Abort(n - 1, reason)] else []
  }

  datatype Outcome = Outcome(reply: Conflict, holds: set<Hold>, calls: seq<Abort>)

  /** What tm2c_ht_insert must do with a request, in terms of the holdings `h` alone: if the
      requester comes before every holder in its way, they are aborted and lose all they
      had and it gets the lock; if not, nothing changes. */
  ghost function Decision(h: set<Hold>, prios: seq<nat>, id: nat, a: int, m: Mode): Outcome
    requires id < |prios| && forall x | x in h :: x.node < |prios|
  {
    if Wins(h, prios, id, a, m) then
      Outcome(NoConflict, Granted(h, id, a, m), AbortedEach(Blockers(h, id, a, m), Reason(h, id, a, m), |prios|))
    else
      Outcome(Reason(h, id, a, m), h, [])
  }

  /** Holding `x` is in the way of node `id`, which asks for `a`: a reader is stopped by a writer, were
      it itself, a writer by everybody else. */
  predicate InTheWay(x: Hold, id: nat, a: int, m: Mode) {
    x.addr == a && if m == Rd then x.mode == Wr else x.node != id
  }

  /** The nodes with a holding in the way are aborted once each, in ascending order, and nobody else;
      the reason is the kind of conflict. */
  ghost predicate AbortsAll(h: set<Hold>, id: nat, a: int, m: Mode, calls: seq<Abort>) {
    && (forall i, j | 0 <= i < j < |calls| :: calls[i].node < calls[j].node)
    && (forall i | 0 <= i < |calls| ::
          && (exists x :: x in h && InTheWay(x, id, a, m) && x.node == calls[i].node)
          && calls[i].reason == (if m == Rd then ReadAfterWrite
                                 else if exists x :: x in h && InTheWay(x, id, a, m) && x.mode == Wr then WriteAfterWrite
                                 else WriteAfterRead))
    && (forall x | x in h && InTheWay(x, id, a, m) :: exists i :: 0 <= i < |calls| && calls[i].node == x.node)
  }

  /** That is: a request is granted exactly if every holder in its way has a higher priority number,
      or the same and a higher id.  Then these holders lose all they have and nobody else loses
      anything.  A refusal says what stood in the way and changes nothing. */
  lemma DecidedExactly(h: set<Hold>, prios: seq<nat>, id: nat, a: int, m: Mode)
    requires id < |prios| && forall x | x in h :: x.node < |prios|
    ensures var d := Decision(h, prios, id, a, m);
            && (d.reply == NoConflict <==>
                forall x | x in h && InTheWay(x, id, a, m) ::
                  prios[id] < prios[x.node] || (prios[id] == prios[x.node] && id < x.node))
            && (d.reply == NoConflict ==>
                  forall y :: y in d.holds <==>
                    y == Hold(id, a, m) || (y in h && forall x | x in h && InTheWay(x, id, a, m) :: x.node != y.node))
            && (d.reply == NoConflict ==> AbortsAll(h, id, a, m, d.calls))
            && (d.reply != NoConflict ==>
                  && d.holds == h && d.calls == []
                  && d.reply == (if m == Rd then ReadAfterWrite
                                 else if exists x :: x in h && InTheWay(x, id, a, m) && x.mode == Wr then WriteAfterWrite
                                 else WriteAfterRead))
  {
    forall x | x in h && InTheWay(x, id, a, m) ensures x.node in Blockers(h, id, a, m) {
    }
    forall k | k in Blockers(h, id, a, m) ensures exists x :: x in h && InTheWay(x, id, a, m) && x.node == k {
    }
    AbortedEachExactly(Blockers(h, id, a, m), Reason(h, id, a, m), |prios|);
  }

  /** A write request by a node that has the write lock already: the slot is logged again. */
  ghost predicate Again(h: set<Hold>, id: nat, a: int, m: Mode) {
    m == Wr && Hold(id, a, Wr) in h
  }

  lemma AgainIsGranted(h: set<Hold>, id: nat, a: int, m: Mode)
    requires Exclusive(h)
    ensures Again(h, id, a, m) ==> Blockers(h, id, a, m) == {}
  {
    if Again(h, id, a, m) {
      assert forall x | x in h && x.addr == a :: x.node == id;
    }
  }

  /** A refused requester also loses all it had. */
  ghost function Kept(h: set<Hold>, id: nat, r: Conflict): set<Hold> {
    if r == NoConflict then h else Without(h, {id})
  }

  /** The victims below `n` are aborted once each, in ascending order, and nobody else is. */
  ghost predicate OneEach(r: seq<Abort>, victims: set<nat>, reason: Conflict, n: nat) {
    && (forall i | 0 <= i < |r| :: r[i].reason == reason && r[i].node in victims && r[i].node < n)
    && (forall i, j | 0 <= i < j < |r| :: r[i].node < r[j].node)
    && (forall d | d in victims && d < n :: Abort(d, reason) in r)
  }

  lemma {:induction false} AbortedEachExactly(victims: set<nat>, reason: Conflict, n: nat)
    ensures OneEach(AbortedEach(victims, reason, n), victims, reason, n)
  {
    if n > 0 {
      AbortedEachExactly(victims, reason, n - 1);
      OneAbortMore(AbortedEach(victims, reason, n - 1), victims, reason, n - 1);
    }
  }

  lemma OneAbortMore(q: seq<Abort>, victims: set<nat>, reason: Conflict, n: nat)
    requires OneEach(q, victims, reason, n)
    ensures OneEach(q + if n in victims then [Abort(n, reason)] else [], victims, reason, n + 1)
  {
    var r := q + if n in victims then [Abort(n, reason)] else [];
    forall d | d in victims && d < n + 1 ensures Abort(d, reason) in r {
      if d < n {
        assert Abort(d, reason) in q;
      } else {
        assert r[|q|] == Abort(n, reason);
      }
    }
  }

  function Below(victims: set<nat>, n: nat): set<nat> {
    set d | d in victims && d < n
  }

  lemma WithoutOneMore(h: set<Hold>, victims: set<nat>, n: nat)
    ensures Without(h, Below(victims, n + 1)) ==
            if n in victims then Without(Without(h, Below(victims, n)), {n}) else Without(h, Below(victims, n))
  {
    assert Below(victims, n + 1) == if n in victims then Below(victims, n) + {n} else Below(victims, n);
  }

  lemma {:induction false} PurgeEachKeepsCoherent<S>(nodes: nat, view: map<S, SlotView>, logs: seq<seq<S>>,
                                                     victims: set<nat>, n: nat)
    requires Coherent(nodes, view, logs) && n <= nodes
    ensures Coherent(nodes, PurgedEach(view, victims, n), ClearedEach(logs, victims, n))
    ensures Holds(PurgedEach(view, victims, n)) == Without(Holds(view), Below(victims, n))
  {
    if n == 0 {
      assert Without(Holds(view), Below(victims, 0)) == Holds(view);
    } else {
      PurgeEachKeepsCoherent(nodes, view, logs, victims, n - 1);
      WithoutOneMore(Holds(view), victims, n - 1);
      EachStep(view, logs, [], victims, NoConflict, n - 1);
      PurgeOneMore(nodes, PurgedEach(view, victims, n - 1), ClearedEach(logs, victims, n - 1), n - 1, n - 1 in victims,
                   PurgedEach(view, victims, n), ClearedEach(logs, victims, n));
    }
  }

  lemma PurgeOneMore<S>(nodes: nat, view: map<S, SlotView>, logs: seq<seq<S>>, k: nat, hit: bool,
                        view': map<S, SlotView>, logs': seq<seq<S>>)
    requires Coherent(nodes, view, logs) && k < nodes
    requires view' == (if hit then PurgedAll(view, k) else view) && logs' == if hit then logs[k := []] else logs
    ensures Coherent(nodes, view', logs') && Holds(view') == if hit then Without(Holds(view), {k}) else Holds(view)
  {
    if hit {
      PurgeKeepsCoherent(nodes, view, logs, k);
    }
  }

  /** What the purges leave of one slot: who held nothing else is gone, the rest stays. */
  lemma {:induction false} PurgedEachAt<S>(view: map<S, SlotView>, victims: set<nat>, n: nat, s: S)
    requires n <= NO_WRITER && s in view
    ensures var v := PurgedEach(view, victims, n)[s];
            && v.readers == view[s].readers - Below(victims, n)
            && v.writer == (if view[s].writer in victims && view[s].writer < n then NO_WRITER else view[s].writer)
            && (v.addr == view[s].addr || v.addr == 0)
  {
    if n > 0 {
      PurgedEachAt(view, victims, n - 1, s);
    }
  }

  /** The purges so far have not touched the reader that the loop looks at next. */
  lemma StillThere<S>(view: map<S, SlotView>, victims: set<nat>, d: nat, s: S)
    requires d <= NO_WRITER && s in view
    ensures s in PurgedEach(view, victims, d)
    ensures d in PurgedEach(view, victims, d)[s].readers <==> d in view[s].readers
  {
    PurgedEachAt(view, victims, d, s);
  }

  /** What evicting node `d`, if it is a victim, makes of the evictions so far. */
  lemma EachStep<S>(view: map<S, SlotView>, logs: seq<seq<S>>, calls: seq<Abort>, victims: set<nat>,
                    reason: Conflict, d: nat)
    requires d < |logs|
    ensures var v, l := PurgedEach(view, victims, d), ClearedEach(logs, victims, d);
            var c := calls + AbortedEach(victims, reason, d);
            && PurgedEach(view, victims, d + 1) == (if d in victims then PurgedAll(v, d) else v)
            && ClearedEach(logs, victims, d + 1) == (if d in victims then l[d := []] else l)
            && calls + AbortedEach(victims, reason, d + 1) == c + if d in victims then [Abort(d, reason)] else []
  {
  }

  /** One victim is purged, cleared and aborted once. */
  lemma {:induction false} OneVictim<S>(view: map<S, SlotView>, logs: seq<seq<S>>, d: nat, reason: Conflict, n: nat)
    requires n <= |logs|
    ensures PurgedEach(view, {d}, n) == if d < n then PurgedAll(view, d) else view
    ensures ClearedEach(logs, {d}, n) == if d < n then logs[d := []] else logs
    ensures AbortedEach({d}, reason, n) == if d < n then [Abort(d, reason)] else []
  {
    if n > 0 {
      OneVictim(view, logs, d, reason, n - 1);
    }
  }

  lemma {:induction false} NoVictim<S>(view: map<S, SlotView>, logs: seq<seq<S>>, reason: Conflict, n: nat)
    requires n <= |logs|
    ensures PurgedEach(view, {}, n) == view && ClearedEach(logs, {}, n) == logs && AbortedEach({}, reason, n) == []
  {
    if n > 0 {
      NoVictim(view, logs, reason, n - 1);
    }
  }

  /** Once its blockers are purged, the slot of `a` -- which the purge may have freed -- can
      take the requester. */
  lemma EvictedSlot<S>(nodes: nat, view: map<S, SlotView>, logs: seq<seq<S>>, s: S, id: nat, a: int, m: Mode)
    requires Coherent(nodes, view, logs) && SlotFor(view, s, a) && id < nodes
    ensures var b := Blockers(Holds(view), id, a, m);
            var view', logs' := PurgedEach(view, b, nodes), ClearedEach(logs, b, nodes);
            && Coherent(nodes, view', logs') && view'.Keys == view.Keys && SlotFor(view', s, a)
            && Holds(view') == Without(Holds(view), b)
            && (m == Rd ==> view'[s].writer == NO_WRITER)
            && (m == Wr ==>
                  && view'[s].readers <= {id}
                  && (view'[s].writer == NO_WRITER || view'[s].writer == view[s].writer == id))
  {
    var b := Blockers(Holds(view), id, a, m);
    BlockersAt(nodes, view, logs, s, id, a);
    PurgeEachKeepsCoherent(nodes, view, logs, b, nodes);
    CoherentIsExclusive(nodes, view, logs);
    assert Below(b, nodes) == b;
    PurgedEachAt(view, b, nodes, s);
    EvictedElsewhere(view, b, nodes, s, a);
  }

  /** The log of `id` after it entered a slot that was `v`: a reader that is there already
      is not logged again. */
  function EnteredLog<S>(l: seq<S>, s: S, v: SlotView, id: nat, m: Mode): seq<S> {
    if m == Rd && id in v.readers then l else l + [s]
  }

  /** The requester enters the slot that the evictions have left.  That is the granted holding,
      and table and logs still agree unless it was a write lock that the node had already. */
  lemma EnteredSlot<S>(nodes: nat, view: map<S, SlotView>, logs: seq<seq<S>>, s: S, id: nat, a: int, m: Mode)
    requires Coherent(nodes, view, logs) && SlotFor(view, s, a) && id < nodes
    ensures var b := Blockers(Holds(view), id, a, m);
            var view', logs' := PurgedEach(view, b, nodes), ClearedEach(logs, b, nodes);
            var v := Entered(view'[s], a, id, m);
            && (Coherent(nodes, view'[s := v], logs'[id := EnteredLog(logs'[id], s, view'[s], id, m)])
                <==> !(m == Wr && Hold(id, a, Wr) in Holds(view)))
            && Holds(view'[s := v]) == Granted(Holds(view), id, a, m)
  {
    EvictedSlot(nodes, view, logs, s, id, a, m);
    var b := Blockers(Holds(view), id, a, m);
    var view', logs' := PurgedEach(view, b, nodes), ClearedEach(logs, b, nodes);
    if m == Rd {
      TakeRead(nodes, view', logs', s, id, a);
      assert id in view'[s].readers ==> logs'[id := logs'[id]] == logs';
    } else {
      HoldsAt(view, s, Hold(id, a, Wr));
      TakeWriteExactly(nodes, view', logs', s, id, a);
    }
  }

  lemma EvictedElsewhere<S>(view: map<S, SlotView>, b: set<nat>, n: nat, s: S, a: int)
    requires SlotFor(view, s, a) && n <= NO_WRITER
    ensures SlotFor(PurgedEach(view, b, n), s, a)
  {
    PurgedEachAt(view, b, n, s);
    PurgedAddresses(view, b, n);
  }

  lemma PurgedAddresses<S>(view: map<S, SlotView>, b: set<nat>, n: nat)
    requires n <= NO_WRITER
    ensures forall t | t in view ::
              t in PurgedEach(view, b, n)
                  && (PurgedEach(view, b, n)[t].addr == view[t].addr || PurgedEach(view, b, n)[t].addr == 0)
  {
    forall t | t in view
      ensures t in PurgedEach(view, b, n)
              && (PurgedEach(view, b, n)[t].addr == view[t].addr || PurgedEach(view, b, n)[t].addr == 0)
    {
      PurgedEachAt(view, b, n, t);
    }
  }

  /** Every occupied slot has a holder. */
  ghost predicate Tidy<S>(view: map<S, SlotView>) {
    forall s | s in view && view[s].addr != 0 :: !Vacant(view[s])
  }

  lemma {:induction false} PurgedEachTidy<S>(view: map<S, SlotView>, victims: set<nat>, n: nat)
    requires Tidy(view)
    ensures Tidy(PurgedEach(view, victims, n))
  {
    if n > 0 {
      PurgedEachTidy(view, victims, n - 1);
    }
  }

  lemma EmptyIsCoherent<S>(nodes: nat, view: map<S, SlotView>, logs: seq<seq<S>>)
    requires |logs| == nodes <= NO_WRITER
    requires (forall s | s in view :: view[s] == EMPTY) && forall k | 0 <= k < nodes :: logs[k] == []
    ensures Coherent(nodes, view, logs) && Holds(view) == {} && Tidy(view)
  {
  }

  /** New slots that hold nothing change nothing. */
  lemma EmptySlotsAdded<S>(nodes: nat, view: map<S, SlotView>, logs: seq<seq<S>>, view': map<S, SlotView>)
    requires Coherent(nodes, view, logs) && view.Keys <= view'.Keys
    requires forall s | s in view' :: view'[s] == if s in view then view[s] else EMPTY
    ensures Coherent(nodes, view', logs) && Holds(view') == Holds(view)
  {
    forall x | x in Holds(view) ensures x in Holds(view') {
      var s :| s in view && x in SlotHolds(view[s]);
      assert x in SlotHolds(view'[s]);
    }
    forall x | x in Holds(view') ensures x in Holds(view) {
      var s :| s in view' && x in SlotHolds(view'[s]);
      assert s in view;
    }
  }
}
