/** The lock table with slots of the other form (BIT_OPTS).  There every granted read is logged
    again, so a log may have more entries for a slot than its node has locks on it.  That is all
    such a table needs: requests of every kind, purges and single releases keep it that way, and
    do to the holdings what they must -- for write locks taken twice as well. */
module MaskTable {
  import opened Locks
  import opened SlotSpec
  import opened ReaderMask

  /** Every holding has a log entry, but not every log entry a holding. */
  ghost predicate Covered<S>(nodes: nat, view: map<S, SlotView>, logs: seq<seq<S>>) {
    && |logs| == nodes <= MAX_READERS
    && (forall s | s in view :: SlotOk(view[s], nodes))
    && (forall s, t | s in view && t in view && view[s].addr == view[t].addr != 0 :: s == t)
    && (forall k, s | 0 <= k < nodes && s in logs[k] :: s in view)
    && (forall k, s | 0 <= k < nodes && s in view :: multiset(logs[k])[s] >= Times(view[s], k))
  }

  lemma CoherentIsCovered<S>(nodes: nat, view: map<S, SlotView>, logs: seq<seq<S>>)
    requires Coherent(nodes, view, logs) && nodes <= MAX_READERS
    ensures Covered(nodes, view, logs)
  {
  }

  lemma CoveredIsExclusive<S>(nodes: nat, view: map<S, SlotView>, logs: seq<seq<S>>)
    requires Covered(nodes, view, logs)
    ensures Exclusive(Holds(view)) && forall x | x in Holds(view) :: x.node < nodes && x.addr != 0
  {
    forall x, y | x in Holds(view) && y in Holds(view) && x.addr == y.addr && x.mode == Wr ensures x.node == y.node {
      var s :| s in view && x in SlotHolds(view[s]);
      var u :| u in view && y in SlotHolds(view[u]);
      assert s == u;
    }
  }

  // --------------------------------------------------------------- purges

  /** tm2c_ht_delete_node: one drop for each entry of the log. */
  function DroppedEach<S>(view: map<S, SlotView>, log: seq<S>, k: nat): (r: map<S, SlotView>)
    ensures r.Keys == view.Keys
    decreases |log|
  {
    if log == [] then view
    else if log[0] !in view then DroppedEach(view, log[1..], k)
    else DroppedEach(view[log[0] := BitDropped(view[log[0]], k)], log[1..], k)
  }

  lemma {:induction false} DroppedEachAt<S>(view: map<S, SlotView>, log: seq<S>, k: nat, s: S)
    requires (forall u | u in log :: u in view) && s in view
    ensures DroppedEach(view, log, k)[s] == DroppedTimes(view[s], k, multiset(log)[s])
    decreases |log|
  {
    if log != [] {
      FirstAndRest(log);
      DroppedEachAt(view[log[0] := BitDropped(view[log[0]], k)], log[1..], k, s);
    }
  }

  /** A node without locks on a slot leaves it as it is, or frees it if nobody has any. */
  lemma {:induction false} NotHeldDropped(v: SlotView, k: nat, n: nat)
    requires !HeldBy(v, k) && v.nr == |v.readers|
    ensures DroppedTimes(v, k, n) == if n > 0 && Vacant(v) then v.(addr := 0) else v
    decreases n
  {
    if n > 0 {
      assert v.readers - {k} == v.readers;
      NotHeldDropped(BitDropped(v, k), k, n - 1);
    }
  }

  /** What a purge makes of a slot. */
  lemma PurgedSlot<S>(nodes: nat, view: map<S, SlotView>, logs: seq<seq<S>>, k: nat, s: S)
    requires Covered(nodes, view, logs) && k < nodes && s in view
    ensures var v, u := view[s], DroppedEach(view, logs[k], k)[s];
            && SlotOk(u, nodes) && Times(u, k) == 0 && (u.addr == v.addr || (u.addr == 0 && Vacant(u)))
            && (forall j: nat | j != k && j < nodes :: Times(u, j) == Times(v, j))
            && (forall x :: Holding(u, x) <==> Holding(v, x) && x.node != k)
  {
    var v := view[s];
    DroppedEachAt(view, logs[k], k, s);
    if HeldBy(v, k) {
      LoggedTooOftenIsPurged(v, k, multiset(logs[k])[s], nodes);
      PurgedSlotOk(v, k, nodes);
      PurgedSlotHolds(v, k, nodes);
    } else {
      NotHeldDropped(v, k, multiset(logs[k])[s]);
    }
  }

  /** A purge takes exactly the node's holdings and empties its log. */
  lemma PurgeKeepsCovered<S>(nodes: nat, view: map<S, SlotView>, logs: seq<seq<S>>, k: nat)
    requires Covered(nodes, view, logs) && k < nodes
    ensures Covered(nodes, DroppedEach(view, logs[k], k), logs[k := []])
    ensures Holds(DroppedEach(view, logs[k], k)) == Without(Holds(view), {k})
    ensures SameOrFree(view, DroppedEach(view, logs[k], k))
  {
    var view' := DroppedEach(view, logs[k], k);
    forall s | s in view
      ensures SlotOk(view'[s], nodes) && Times(view'[s], k) == 0
      ensures view'[s].addr == view[s].addr || view'[s].addr == 0
      ensures forall j: nat | j != k && j < nodes :: Times(view'[s], j) == Times(view[s], j)
    {
      PurgedSlot(nodes, view, logs, k, s);
    }
    forall s | s in view ensures forall x :: Holding(view'[s], x) <==> Holding(view[s], x) && x.node != k {
      PurgedSlot(nodes, view, logs, k, s);
    }
    FewerHolds(view, view', k);
  }

  lemma FewerHolds<S>(view: map<S, SlotView>, view': map<S, SlotView>, k: nat)
    requires view'.Keys == view.Keys
    requires forall s | s in view :: forall x :: Holding(view'[s], x) <==> Holding(view[s], x) && x.node != k
    ensures Holds(view') == Without(Holds(view), {k})
  {
    forall x ensures x in Holds(view') <==> x in Holds(view) && x.node != k {
      if s :| s in view && x in SlotHolds(view[s]) && x.node != k {
        assert x in SlotHolds(view'[s]);
      }
      if s :| s in view && x in SlotHolds(view'[s]) {
        assert x in SlotHolds(view[s]);
      }
    }
  }

  ghost predicate SameOrFree<S>(view: map<S, SlotView>, view': map<S, SlotView>) {
    view'.Keys == view.Keys && forall s | s in view :: view'[s].addr == view[s].addr || view'[s].addr == 0
  }

  /** Slots and logs after the purges of the nodes below `n` that are in `victims`. */
  function Evicted<S>(view: map<S, SlotView>, logs: seq<seq<S>>, victims: set<nat>, n: nat)
    : (r: (map<S, SlotView>, seq<seq<S>>))
    requires n <= |logs|
    ensures r.0.Keys == view.Keys && |r.1| == |logs|
  {
    if n == 0 then (view, logs)
    else
      var (v, l) := Evicted(view, logs, victims, n - 1);
      if n - 1 in victims then (DroppedEach(v, l[n - 1], n - 1), l[n - 1 := []]) else (v, l)
  }

  /** Covered slots and logs that evictions of the victims below `n` have made of `view`. */
  ghost predicate EvictedTo<S>(nodes: nat, view: map<S, SlotView>, v: map<S, SlotView>, l: seq<seq<S>>, victims: set<nat>,
                               n: nat)
  {
    Covered(nodes, v, l) && SameOrFree(view, v) && Holds(v) == Without(Holds(view), Below(victims, n))
  }

  lemma FreeOnceMore<S>(u: map<S, SlotView>, v: map<S, SlotView>, w: map<S, SlotView>)
    requires SameOrFree(u, v) && SameOrFree(v, w)
    ensures SameOrFree(u, w)
  {
  }

  lemma OneMoreEvicted<S>(nodes: nat, view: map<S, SlotView>, v: map<S, SlotView>, l: seq<seq<S>>, victims: set<nat>,
                          n: nat, v': map<S, SlotView>, l': seq<seq<S>>)
    requires EvictedTo(nodes, view, v, l, victims, n) && n < nodes
    requires v' == (if n in victims then DroppedEach(v, l[n], n) else v) && l' == if n in victims then l[n := []] else l
    ensures EvictedTo(nodes, view, v', l', victims, n + 1)
  {
    WithoutOneMore(Holds(view), victims, n);
    if n in victims {
      PurgeKeepsCovered(nodes, v, l, n);
      FreeOnceMore(view, v, v');
    }
  }

  lemma {:induction false} EvictedIs<S>(nodes: nat, view: map<S, SlotView>, logs: seq<seq<S>>, victims: set<nat>, n: nat)
    requires Covered(nodes, view, logs) && n <= nodes
    ensures var (v, l) := Evicted(view, logs, victims, n); EvictedTo(nodes, view, v, l, victims, n)
  {
    if n == 0 {
      assert Without(Holds(view), Below(victims, 0)) == Holds(view);
    } else {
      EvictedIs(nodes, view, logs, victims, n - 1);
      var p, q := Evicted(view, logs, victims, n - 1), Evicted(view, logs, victims, n);
      OneMoreEvicted(nodes, view, p.0, p.1, victims, n - 1, q.0, q.1);
    }
  }

  // ------------------------------------------------------------- requests

  function BitEntered(v: SlotView, a: int, id: nat, m: Mode): SlotView {
    if m == Rd then BitRead(v, a, id) else WithWriter(v, a, id)
  }

  /** A granted request: its blockers purged, the slot entered and logged -- once more even if the
      node had the lock.  Whatever is asked for, the table stays covered and the holdings are
      those of a granted request. */
  lemma InsertKeepsCovered<S>(nodes: nat, view: map<S, SlotView>, logs: seq<seq<S>>, s: S, id: nat, a: int, m: Mode)
    requires Covered(nodes, view, logs) && SlotFor(view, s, a) && id < nodes
    ensures var (v, l) := Evicted(view, logs, Blockers(Holds(view), id, a, m), nodes);
            var u := BitEntered(v[s], a, id, m);
            && Covered(nodes, v[s := u], l[id := l[id] + [s]])
            && Holds(v[s := u]) == Granted(Holds(view), id, a, m)
  {
    var b := Blockers(Holds(view), id, a, m);
    var (v, l) := Evicted(view, logs, b, nodes);
    EvictedIs(nodes, view, logs, b, nodes);
    CoveredIsExclusive(nodes, view, logs);
    assert Below(b, nodes) == b;
    Unblocked(nodes, view, v, l, s, id, a, m);
    EnterKeepsCovered(nodes, v, l, s, id, a, m);
  }

  /** Nobody is left in the way. */
  lemma Unblocked<S>(nodes: nat, view: map<S, SlotView>, v: map<S, SlotView>, l: seq<seq<S>>, s: S, id: nat, a: int,
                     m: Mode)
    requires Covered(nodes, v, l) && SlotFor(view, s, a) && SameOrFree(view, v)
    requires Holds(v) == Without(Holds(view), Blockers(Holds(view), id, a, m))
    ensures SlotFor(v, s, a)
    ensures if m == Rd then v[s].writer == NO_WRITER
            else v[s].readers <= {id} && (v[s].writer == NO_WRITER || v[s].writer == id)
  {
    if v[s].writer != NO_WRITER {
      assert Hold(v[s].writer, a, Wr) in SlotHolds(v[s]) && Hold(v[s].writer, a, Wr) in Holds(v);
    }
    forall k | k in v[s].readers && k != id ensures m == Rd {
      assert Hold(k, a, Rd) in SlotHolds(v[s]) && Hold(k, a, Rd) in Holds(v);
    }
  }

  lemma EnterKeepsCovered<S>(nodes: nat, v: map<S, SlotView>, l: seq<seq<S>>, s: S, id: nat, a: int, m: Mode)
    requires Covered(nodes, v, l) && SlotFor(v, s, a) && id < nodes
    requires if m == Rd then v[s].writer == NO_WRITER
             else v[s].readers <= {id} && (v[s].writer == NO_WRITER || v[s].writer == id)
    ensures Covered(nodes, v[s := BitEntered(v[s], a, id, m)], l[id := l[id] + [s]])
    ensures Holds(v[s := BitEntered(v[s], a, id, m)]) == Holds(v) + {Hold(id, a, m)}
  {
    var u := BitEntered(v[s], a, id, m);
    EnteredSlotIs(v[s], a, id, m, nodes);
    HoldsUpdated(v, s, u, Hold(id, a, m));
    LoggedMore(nodes, v, l, s, u, id);
  }

  lemma EnteredSlotIs(v: SlotView, a: int, id: nat, m: Mode, nodes: nat)
    requires SlotOk(v, nodes) && id < nodes <= MAX_READERS && a != 0 && (v.addr == a || v.addr == 0)
    requires if m == Rd then v.writer == NO_WRITER
             else v.readers <= {id} && (v.writer == NO_WRITER || v.writer == id)
    ensures var u := BitEntered(v, a, id, m);
            && SlotOk(u, nodes) && u.addr == a && SlotHolds(u) == SlotHolds(v) + {Hold(id, a, m)}
            && (forall k: nat | k < nodes :: Times(u, k) <= Times(v, k) + if k == id then 1 else 0)
  {
    EnteredSlotHolds(v, a, id, m);
  }

  lemma EnteredSlotHolds(v: SlotView, a: int, id: nat, m: Mode)
    requires v.addr == a || Vacant(v)
    requires if m == Rd then v.writer == NO_WRITER else v.writer == NO_WRITER || v.writer == id
    requires id != NO_WRITER
    ensures SlotHolds(BitEntered(v, a, id, m)) == SlotHolds(v) + {Hold(id, a, m)}
  {
    var u := BitEntered(v, a, id, m);
    forall x ensures x in SlotHolds(u) <==> x in SlotHolds(v) + {Hold(id, a, m)} {
      assert x in SlotHolds(u) <==> Holding(u, x);
      assert x in SlotHolds(v) <==> Holding(v, x);
    }
  }

  /** A slot with at most one more holding, and one more log entry. */
  lemma LoggedMore<S>(nodes: nat, v: map<S, SlotView>, l: seq<seq<S>>, s: S, u: SlotView, id: nat)
    requires Covered(nodes, v, l) && id < nodes && SlotFor(v, s, u.addr) && SlotOk(u, nodes)
    requires forall k: nat | k < nodes :: Times(u, k) <= Times(v[s], k) + if k == id then 1 else 0
    ensures Covered(nodes, v[s := u], l[id := l[id] + [s]])
  {
    var l' := l[id := l[id] + [s]];
    forall k, t | 0 <= k < nodes && t in v
      ensures multiset(l'[k])[t] == multiset(l[k])[t] + if k == id && t == s then 1 else 0
    {
    }
  }

  // ------------------------------------------------------ single releases

  function BitReleased(v: SlotView, id: nat, m: Mode): SlotView {
    if m == Wr then (if v.writer == id then v.(writer := NO_WRITER) else v)
    else v.(readers := v.readers - {id}, nr := |v.readers - {id}|)
  }

  /** ssht_remove on the mask: the holding goes, and the table stays covered exactly if the node
      had the lock or the slot was logged too often anyway. */
  lemma ReleaseKeepsCoveredExactly<S>(nodes: nat, view: map<S, SlotView>, logs: seq<seq<S>>, s: S, id: nat, m: Mode,
                                      log: seq<S>)
    requires Covered(nodes, view, logs) && id < nodes && s in logs[id] && view[s].addr != 0
    requires multiset(log) == multiset(logs[id]) - multiset{s}
    ensures var x, view' := Hold(id, view[s].addr, m), view[s := BitReleased(view[s], id, m)];
            && (Covered(nodes, view', logs[id := log]) <==>
                Holding(view[s], x) || multiset(logs[id])[s] > Times(view[s], id))
            && Holds(view') == Holds(view) - {x}
  {
    var x, u := Hold(id, view[s].addr, m), BitReleased(view[s], id, m);
    LogShrinks(logs, id, s, log);
    ReleasedSlotIs(view[s], id, m, nodes);
    OneLess(view, s, u, x);
    if Holding(view[s], x) || multiset(logs[id])[s] > Times(view[s], id) {
      LoggedLess(nodes, view, logs, s, u, id, log);
    } else {
      assert multiset(logs[id := log][id])[s] < Times(view[s := u][s], id);
    }
  }

  lemma ReleasedSlotIs(v: SlotView, id: nat, m: Mode, nodes: nat)
    requires SlotOk(v, nodes) && id < nodes <= MAX_READERS && v.addr != 0
    ensures var u, x := BitReleased(v, id, m), Hold(id, v.addr, m);
            && SlotOk(u, nodes) && u.addr == v.addr && (forall y :: Holding(u, y) <==> Holding(v, y) && y != x)
            && (forall k: nat | k < nodes :: Times(u, k) == Times(v, k) - if k == id && Holding(v, x) then 1 else 0)
  {
  }

  lemma LoggedLess<S>(nodes: nat, v: map<S, SlotView>, l: seq<seq<S>>, s: S, u: SlotView, id: nat, log: seq<S>)
    requires Covered(nodes, v, l) && id < nodes && s in l[id] && SlotOk(u, nodes) && u.addr == v[s].addr
    requires multiset(log) == multiset(l[id]) - multiset{s}
    requires forall k: nat | k < nodes :: Times(u, k) <= multiset(l[k])[s] - if k == id then 1 else 0
    ensures Covered(nodes, v[s := u], l[id := log])
  {
    LogShrinks(l, id, s, log);
  }

  lemma OneLess<S>(view: map<S, SlotView>, s: S, v: SlotView, x: Hold)
    requires s in view && view[s].addr != 0 && x.addr == view[s].addr
    requires forall y :: Holding(v, y) <==> Holding(view[s], y) && y != x
    requires forall t, u | t in view && u in view && view[t].addr == view[u].addr != 0 :: t == u
    ensures Holds(view[s := v]) == Holds(view) - {x}
  {
    var view' := view[s := v];
    forall y | y in Holds(view) - {x} ensures y in Holds(view') {
      var u :| u in view && y in SlotHolds(view[u]);
      assert y in SlotHolds(view'[u]);
    }
    forall y | y in Holds(view') ensures y in Holds(view) - {x} {
      var u :| u in view' && y in SlotHolds(view'[u]);
      assert y in SlotHolds(view[u]);
    }
  }
}
