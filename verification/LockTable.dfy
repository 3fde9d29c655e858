/** The lock table of one service: bucket chains of three slots, each with a writer and a
    counted reader array, and one growable log per node that points into the slots. */
module LockTable {
  import opened Locks
  import opened SlotSpec

  const NUM_BUCKETS: nat := 64
  const ADDR_PER_CL: nat := 3
  const LOG_SIZE: nat := 8

  /** addr[i] of a bucket together with its entry[i]. */
  class Slot {
    var addr: int
    var nr: nat
    const reader: array<bool>
    var writer: nat

    ghost predicate Shows(v: SlotView)
      reads this, reader
    {
      && addr == v.addr && nr == v.nr && writer == v.writer
      && (forall k | 0 <= k < reader.Length :: reader[k] <==> k in v.readers)
      && (forall k | k in v.readers :: k < reader.Length)
    }

    constructor (nodes: nat)
      ensures Shows(EMPTY) && reader.Length == nodes && fresh(reader)
    {
      addr, nr, writer := 0, 0, NO_WRITER;
      reader := new bool[nodes](_ => false);
    }

    /** ssht_bucket_remove_index. */
    method Drop(id: nat, ghost v: SlotView)
      requires id < reader.Length && Shows(v)
      modifies `addr, `nr, `writer, reader
      ensures Shows(Dropped(v, id))
    {
      if writer == id {
        writer := NO_WRITER;
      } else {
        reader[id] := false;
        nr := (nr - 1) % 256;
      }
      if nr == 0 && writer == NO_WRITER {
        addr := 0;
      }
    }

    /** The body of ssht_remove. */
    method Release(id: nat, m: Mode, ghost v: SlotView)
      requires id < reader.Length && Shows(v)
      modifies `nr, `writer, reader
      ensures Shows(Released(v, id, m))
    {
      if m == Wr {
        if writer == id {
          writer := NO_WRITER;
        }
      } else {
        reader[id] := false;
        nr := (nr - 1) % 256;
      }
    }

    /** The reader half of a granted insert; says whether the node is new to the slot. */
    method AddReader(a: int, id: nat, ghost v: SlotView) returns (added: bool)
      requires id < reader.Length && Shows(v)
      modifies `addr, `nr, reader
      ensures Shows(WithReader(v, a, id)) && added == (id !in v.readers)
    {
      addr := a;
      added := !reader[id];
      if added {
        nr := (nr + 1) % 256;
        reader[id] := true;
      }
    }

    /** The writer half of a granted insert. */
    method SetWriter(a: int, id: nat, ghost v: SlotView)
      requires Shows(v)
      modifies `addr, `writer
      ensures Shows(WithWriter(v, a, id))
    {
      addr := a;
      writer := id;
    }
  }

  class Bucket {
    const slots: seq<Slot>
    var next: Bucket?

    ghost predicate New(nodes: nat)
      reads slots, set s | s in slots :: s.reader
    {
      && |slots| == ADDR_PER_CL
      && (forall i | 0 <= i < ADDR_PER_CL :: slots[i].Shows(EMPTY) && slots[i].reader.Length == nodes)
      && (forall i, k | 0 <= i < k < ADDR_PER_CL :: slots[i] != slots[k] && slots[i].reader != slots[k].reader)
    }

    /** ssht_bucket_new. */
    constructor (nodes: nat)
      ensures next == null && New(nodes) && forall i | 0 <= i < ADDR_PER_CL :: fresh(slots[i]) && fresh(slots[i].reader)
    {
      var s0 := new Slot(nodes);
      var s1 := new Slot(nodes);
      var s2 := new Slot(nodes);
      slots := [s0, s1, s2];
      next := null;
    }
  }

  /** ssht_log_set_t: `size` entries, `nb` of them in use; the size doubles when they are full. */
  class LogSet {
    var entries: seq<Slot?>
    var nb: nat
    ghost var contents: seq<Slot?>

    ghost predicate Valid()
      reads this
    {
      nb <= |entries| && |entries| > 0 && contents == entries[..nb]
    }

    constructor ()
      ensures Valid() && contents == []
    {
      entries := seq(LOG_SIZE, _ => null);
      nb := 0;
      contents := [];
    }

    method Insert(s: Slot)
      requires Valid()
      modifies this
      ensures Valid() && contents == old(contents) + [s]
    {
      if nb == |entries| {
        entries := entries + seq(|entries|, _ => null);
      }
      entries := entries[nb := s];
      nb := nb + 1;
      contents := contents + [s];
    }

    method Clear()
      requires Valid()
      modifies this
      ensures Valid() && contents == []
    {
      nb := 0;
      contents := [];
    }

    /** The last entry moves into the hole. */
    method RemoveAt(j: nat)
      requires Valid() && j < nb
      modifies this
      ensures Valid() && multiset(contents) == multiset(old(contents)) - multiset{old(contents)[j]}
    {
      SwapOut(contents, j);
      nb := nb - 1;
      entries := entries[j := entries[nb]];
      contents := entries[..nb];
      assert contents == old(contents)[j := old(contents)[nb]][..nb];
    }
  }

  ghost predicate HasSlots(bu: Bucket, b: nat, j: nat, pos: map<Slot?, (nat, nat, nat)>) {
    && |bu.slots| == ADDR_PER_CL
    && forall i | 0 <= i < ADDR_PER_CL :: bu.slots[i] in pos && pos[bu.slots[i]] == (b, j, i)
  }

  /** `pos` says for every slot of the chains where it is. */
  ghost predicate Disjoint(chains: seq<seq<Bucket>>, pos: map<Slot?, (nat, nat, nat)>) {
    && (forall b: nat, j: nat | b < |chains| && j < |chains[b]| :: HasSlots(chains[b][j], b, j, pos))
    && (forall s | s in pos ::
          && pos[s].0 < |chains| && pos[s].1 < |chains[pos[s].0]| && pos[s].2 < ADDR_PER_CL
          && |chains[pos[s].0][pos[s].1].slots| == ADDR_PER_CL
          && chains[pos[s].0][pos[s].1].slots[pos[s].2] == s)
  }

  /** A bucket of new slots at the end of a chain. */
  lemma OneMoreBucket(chains: seq<seq<Bucket>>, pos: map<Slot?, (nat, nat, nat)>, b: nat, bu: Bucket,
                      pos': map<Slot?, (nat, nat, nat)>)
    requires Disjoint(chains, pos) && b < |chains| && HasSlots(bu, b, |chains[b]|, pos')
    requires forall s | s in pos' :: if s in pos then pos'[s] == pos[s] && s !in bu.slots else s in bu.slots
    requires pos.Keys <= pos'.Keys
    ensures Disjoint(chains[b := chains[b] + [bu]], pos')
  {
    var chains' := chains[b := chains[b] + [bu]];
    forall c: nat, j: nat | c < |chains'| && j < |chains'[c]| ensures HasSlots(chains'[c][j], c, j, pos') {
      if c == b && j == |chains[b]| {
        assert chains'[c][j] == bu;
      } else {
        assert chains'[c][j] == chains[c][j] && HasSlots(chains[c][j], c, j, pos);
      }
    }
  }

  /** The old slots are where and what they were, the new ones are free. */
  ghost predicate Grown(pos: map<Slot?, (nat, nat, nat)>, view: map<Slot?, SlotView>,
                        pos': map<Slot?, (nat, nat, nat)>, view': map<Slot?, SlotView>)
  {
    && pos.Keys <= pos'.Keys && view.Keys <= view'.Keys
    && (forall s | s in pos :: pos'[s] == pos[s])
    && (forall s | s in view' :: view'[s] == if s in view then view[s] else EMPTY)
  }

  lemma ThreeMore(pos: map<Slot?, (nat, nat, nat)>, owner: map<array<bool>, Slot>, view: map<Slot?, SlotView>,
                  bu: Bucket, b: nat, j: nat)
    requires |bu.slots| == ADDR_PER_CL && pos.Keys == view.Keys
    requires forall i | 0 <= i < ADDR_PER_CL :: bu.slots[i] !in pos && bu.slots[i].reader !in owner
    requires bu.slots[0] != bu.slots[1] && bu.slots[0] != bu.slots[2] && bu.slots[1] != bu.slots[2]
    ensures var s0, s1, s2 := bu.slots[0], bu.slots[1], bu.slots[2];
            var pos' := pos[s0 := (b, j, 0)][s1 := (b, j, 1)][s2 := (b, j, 2)];
            && Grown(pos, view, pos', view[s0 := EMPTY][s1 := EMPTY][s2 := EMPTY])
            && HasSlots(bu, b, j, pos')
            && pos'.Keys == pos.Keys + set s | s in bu.slots
            && owner[s0.reader := s0][s1.reader := s1][s2.reader := s2].Keys ==
               owner.Keys + set s | s in bu.slots :: s.reader
  {
    var s0, s1, s2 := bu.slots[0], bu.slots[1], bu.slots[2];
    assert bu.slots == [s0, s1, s2];
  }

  lemma OnePlace(chains: seq<seq<Bucket>>, pos: map<Slot?, (nat, nat, nat)>, b: nat, j: nat)
    requires Disjoint(chains, pos) && b < |chains| && j < |chains[b]|
    ensures forall c: nat, k: nat | c < |chains| && k < |chains[c]| && chains[c][k] == chains[b][j] :: c == b && k == j
  {
    assert HasSlots(chains[b][j], b, j, pos);
    forall c: nat, k: nat | c < |chains| && k < |chains[c]| && chains[c][k] == chains[b][j] ensures c == b && k == j {
      assert HasSlots(chains[c][k], c, k, pos);
      assert pos[chains[b][j].slots[0]] == (b, j, 0) == (c, k, 0);
    }
  }

  class Table {
    const nodes: nat
    const hash: int -> nat
    const heads: seq<Bucket>
    const logs: seq<LogSet>
    var prios: seq<nat>                     // cm_metadata_core
    var aborted: seq<Abort>       // the calls of abort_node, in order
    ghost var buckets: set<Bucket>
    ghost var chains: seq<seq<Bucket>>
    ghost var pos: map<Slot?, (nat, nat, nat)>    // bucket chain, bucket and index of every slot
    ghost var owner: map<array<bool>, Slot>       // whose reader array an array is
    ghost var view: map<Slot?, SlotView>          // what every slot holds
    ghost var logged: seq<seq<Slot?>>             // what every log points at

    /** The chains: lists of buckets, every bucket with slots of its own. */
    ghost predicate Chained()
      reads `chains, `buckets, `pos, buckets`next
    {
      && |heads| == |chains| == NUM_BUCKETS
      && (forall b | 0 <= b < NUM_BUCKETS :: |chains[b]| > 0 && chains[b][0] == heads[b])
      && (forall b: nat, j: nat | b < NUM_BUCKETS && j < |chains[b]| :: Linked(b, j))
      && Disjoint(chains, pos)
    }

    ghost predicate Linked(b: nat, j: nat)
      requires b < |chains| && j < |chains[b]|
      reads `chains, `buckets, buckets`next
    {
      chains[b][j] in buckets && chains[b][j].next == if j + 1 < |chains[b]| then chains[b][j + 1] else null
    }

    /** `view` and `logged` are what the slots and the logs hold; no two share an array. */
    ghost predicate Synced()
      reads `pos, `owner, `view, `logged, `prios, logs, pos.Keys, owner.Keys
    {
      && null !in pos && view.Keys == pos.Keys
      && (forall s | s in pos ::
            s.reader.Length == nodes && s.reader in owner && owner[s.reader] == s && s.Shows(view[s]))
      && |logs| == |logged| == |prios| == nodes <= NO_WRITER
      && (forall k | 0 <= k < nodes :: logs[k].Valid() && logs[k].contents == logged[k])
      && (forall k, m | 0 <= k < m < nodes :: logs[k] != logs[m])
    }

    /** Every address lives in the chain its hash selects. */
    ghost predicate Placed()
      reads `pos, `view
    {
      forall s | s in view && s in pos && view[s].addr != 0 :: hash(view[s].addr) % NUM_BUCKETS == pos[s].0
    }

    ghost predicate LogsAgree()
      reads `view, `logged
    {
      Coherent(nodes, view, logged)
    }

    ghost predicate Agrees()
      reads `pos, `owner, `view, `logged, `prios, logs, pos.Keys, owner.Keys
    {
      Synced() && Coherent(nodes, view, logged)
    }

    /** The table is well formed, whether its logs agree with its slots or not ... */
    ghost predicate Sound()
      reads `chains, `buckets, `pos, `owner, `view, `logged, `prios, buckets`next, logs, pos.Keys, owner.Keys
    {
      Chained() && Synced() && Placed()
    }

    /** ... and as an operation needs it. */
    ghost predicate Valid()
      reads `chains, `buckets, `pos, `owner, `view, `logged, `prios, buckets`next, logs, pos.Keys, owner.Keys
    {
      Chained() && Agrees() && Placed()
    }

    /** The holdings the table stands for. */
    ghost function Locks(): set<Hold>
      reads `view
    {
      SlotSpec.Holds(view)
    }

    /** The same slots in the same chains. */
    twostate predicate Unmoved()
      reads `pos, `owner, `buckets, `chains, buckets`next
    {
      && pos == old(pos) && owner == old(owner) && buckets == old(buckets) && chains == old(chains)
      && forall b | b in buckets :: b.next == old(b.next)
    }

    twostate lemma StillChained()
      requires old(Chained()) && Unmoved()
      ensures Chained()
    {
      forall b: nat, j: nat | b < NUM_BUCKETS && j < |chains[b]| ensures Linked(b, j) {
        assert old(Linked(b, j));
      }
    }

    /** The old slots and perhaps new ones. */
    twostate predicate OnlyNewAdded()
      reads `pos, `owner, `buckets
    {
      && (forall b | b in buckets :: b in old(buckets) || fresh(b))
      && (forall s | s in pos :: s in old(pos) || fresh(s))
      && (forall r | r in owner :: r in old(owner) || fresh(r))
    }

    // ------------------------------------------- one slot, one log entry

    method DropFrom(s: Slot, id: nat)
      requires Synced() && s in pos && id < nodes
      modifies `view, s`addr, s`nr, s`writer, s.reader
      ensures Synced() && view == old(view)[s := Dropped(old(view)[s], id)]
      ensures Unmoved()
    {
      s.Drop(id, view[s]);
      view := view[s := Dropped(view[s], id)];
      assert forall u | u in pos && u != s :: u.reader != s.reader;
    }

    method AddReaderTo(s: Slot, a: int, id: nat) returns (added: bool)
      requires Synced() && s in pos && id < nodes
      modifies `view, s`addr, s`nr, s.reader
      ensures Synced() && view == old(view)[s := WithReader(old(view)[s], a, id)]
              && added == (id !in old(view)[s].readers)
      ensures Unmoved()
    {
      added := s.AddReader(a, id, view[s]);
      view := view[s := WithReader(view[s], a, id)];
      assert forall u | u in pos && u != s :: u.reader != s.reader;
    }

    method SetWriterOf(s: Slot, a: int, id: nat)
      requires Synced() && s in pos && id < nodes
      modifies `view, s`addr, s`writer
      ensures Synced() && view == old(view)[s := WithWriter(old(view)[s], a, id)]
      ensures Unmoved()
    {
      s.SetWriter(a, id, view[s]);
      view := view[s := WithWriter(view[s], a, id)];
    }

    method LogInsert(id: nat, s: Slot)
      requires Synced() && id < nodes
      modifies `logged, logs[id]
      ensures Synced() && logged == old(logged)[id := old(logged)[id] + [s]]
      ensures Unmoved()
    {
      logs[id].Insert(s);
      logged := logged[id := logged[id] + [s]];
    }

    method LogClear(id: nat)
      requires Synced() && id < nodes
      modifies `logged, logs[id]
      ensures Synced() && logged == old(logged)[id := []]
      ensures Unmoved()
    {
      logs[id].Clear();
      logged := logged[id := []];
    }

    // -------------------------------------------------------------- purge

    /** One round of the loop of tm2c_ht_delete_node; `rest` are the entries from here on. */
    method DropEntry(k: nat, j: nat, ghost from: map<Slot?, SlotView>, ghost rest: seq<Slot?>)
      requires Synced() && k < nodes && j < logs[k].nb && rest == logged[k][j..]
      requires PartlyPurged(nodes, from, view, rest, k)
      modifies `view, pos.Keys`addr, pos.Keys`nr, pos.Keys`writer, owner.Keys
      ensures Synced() && Unmoved() && PartlyPurged(nodes, from, view, rest[1..], k)
    {
      PurgeProceeds(nodes, from, view, rest, k);
      if logs[k].entries[j] != null {
        DropFrom(logs[k].entries[j], k);
      }
    }

    method DropAll(k: nat)
      requires Synced() && k < nodes && PartlyPurged(nodes, view, view, logged[k], k)
      modifies `view, pos.Keys`addr, pos.Keys`nr, pos.Keys`writer, owner.Keys
      ensures Synced() && view == PurgedAll(old(view), k)
      ensures Unmoved()
    {
      ghost var from, rest := view, logged[k];
      var j := 0;
      while j < logs[k].nb
        invariant Synced() && Unmoved() && j <= logs[k].nb == |logged[k]| && rest == logged[k][j..]
        invariant PartlyPurged(nodes, from, view, rest, k)
      {
        DropEntry(k, j, from, rest);
        rest := rest[1..];
        j := j + 1;
      }
      PurgeEnds(nodes, from, view, k);
    }

    /** tm2c_ht_delete_node: walk the node's log, dropping one holding per entry. */
    method DeleteNode(k: nat)
      requires Agrees() && k < nodes
      modifies `view, `logged, pos.Keys`addr, pos.Keys`nr, pos.Keys`writer, owner.Keys, logs[k]
      ensures Agrees() && view == PurgedAll(old(view), k) && logged == old(logged)[k := []]
      ensures Locks() == Without(old(Locks()), {k}) && aborted == old(aborted)
      ensures Unmoved()
    {
      PurgeStarts(nodes, view, logged, k);
      PurgeKeepsCoherent(nodes, view, logged, k);
      DropAll(k);
      LogClear(k);
    }

    // ------------------------------------------------ contention manager

    /** abort_node and tm2c_ht_delete_node, as the contention manager calls them. */
    method Evict(d: nat, reason: Conflict)
      requires Agrees() && d < nodes
      modifies `aborted, `view, `logged, pos.Keys`addr, pos.Keys`nr, pos.Keys`writer, owner.Keys, logs[d]
      ensures Agrees() && view == PurgedAll(old(view), d) && logged == old(logged)[d := []]
      ensures aborted == old(aborted) + [Abort(d, reason)]
      ensures Unmoved()
    {
      NoteAbort(d, reason);
      DeleteNode(d);
    }

    /** abort_node as the table sees it. */
    method NoteAbort(d: nat, reason: Conflict)
      requires Agrees()
      modifies `aborted
      ensures Agrees() && view == old(view) && logged == old(logged) && pos == old(pos) && owner == old(owner)
      ensures aborted == old(aborted) + [Abort(d, reason)]
    {
      aborted := aborted + [Abort(d, reason)];
    }

    /** contention_manager_raw_waw: one defender. */
    method RawWaw(attacker: nat, defender: nat, reason: Conflict) returns (won: bool)
      requires Agrees() && attacker < nodes && defender < nodes
      modifies `aborted, `view, `logged, pos.Keys`addr, pos.Keys`nr, pos.Keys`writer, owner.Keys, logs[defender]
      ensures Agrees()
      ensures won <==> prios[attacker] < prios[defender]
                       || (prios[attacker] == prios[defender] && attacker < defender)
      ensures EvictedUpTo(old(view), old(logged), old(aborted), if won then {defender} else {}, reason, nodes)
      ensures Unmoved()
    {
      won := prios[attacker] < prios[defender] || (prios[attacker] == prios[defender] && attacker < defender);
      if won {
        OneVictim(view, logged, defender, reason, nodes);
        Evict(defender, reason);
      } else {
        NoVictim(view, logged, reason, nodes);
      }
    }

    /** The first loop of contention_manager_war. */
    method BeatsAll(attacker: nat, defenders: array<bool>) returns (won: bool)
      requires attacker < nodes == defenders.Length == |prios|
      ensures won <==> forall d | 0 <= d < nodes && defenders[d] && d != attacker ::
                         prios[attacker] < prios[d] || (prios[attacker] == prios[d] && attacker < d)
    {
      var d := 0;
      while d < nodes
        invariant d <= nodes
        invariant forall e | 0 <= e < d && defenders[e] && e != attacker ::
                    prios[attacker] < prios[e] || (prios[attacker] == prios[e] && attacker < e)
      {
        if defenders[d] && (prios[attacker] > prios[d] || (prios[attacker] == prios[d] && d < attacker)) {
          return false;
        }
        d := d + 1;
      }
      return true;
    }

    /** The evictions of the `victims` below `d` have turned `from` and `was` into the table. */
    ghost predicate EvictedUpTo(from: map<Slot?, SlotView>, was: seq<seq<Slot?>>, calls: seq<Abort>,
                                victims: set<nat>, reason: Conflict, d: nat)
      requires d <= |was|
      reads `view, `logged, `aborted
    {
      && view == PurgedEach(from, victims, d)
      && logged == ClearedEach(was, victims, d)
      && aborted == calls + AbortedEach(victims, reason, d)
    }

    /** One round of the second loop: the array it reads is the one the purges change. */
    method EvictReader(e: Slot, attacker: nat, d: nat, reason: Conflict, ghost victims: set<nat>,
                       ghost from: map<Slot?, SlotView>, ghost was: seq<seq<Slot?>>, ghost calls: seq<Abort>)
      requires Synced() && Coherent(nodes, from, was) && e in pos && e in from && d < nodes
      requires victims == from[e].readers - {attacker} && EvictedUpTo(from, was, calls, victims, reason, d)
      modifies `aborted, `view, `logged, pos.Keys`addr, pos.Keys`nr, pos.Keys`writer, owner.Keys, logs
      ensures Synced() && EvictedUpTo(from, was, calls, victims, reason, d + 1)
      ensures Unmoved()
    {
      PurgeEachKeepsCoherent(nodes, from, was, victims, d);
      StillThere(from, victims, d, e);
      EachStep(from, was, calls, victims, reason, d);
      if e.reader[d] && d != attacker {
        Evict(d, reason);
      }
    }

    /** The second loop: every other reader is evicted, in ascending order. */
    method EvictReaders(e: Slot, attacker: nat, reason: Conflict, ghost victims: set<nat>,
                        ghost from: map<Slot?, SlotView>, ghost was: seq<seq<Slot?>>, ghost calls: seq<Abort>)
      requires Synced() && Coherent(nodes, from, was) && e in pos && e in from
      requires victims == from[e].readers - {attacker} && EvictedUpTo(from, was, calls, victims, reason, 0)
      modifies `aborted, `view, `logged, pos.Keys`addr, pos.Keys`nr, pos.Keys`writer, owner.Keys, logs
      ensures Synced() && EvictedUpTo(from, was, calls, victims, reason, nodes)
      ensures Unmoved()
    {
      ghost var places, owners := pos, owner;
      var d := 0;
      while d < nodes
        invariant d <= nodes && pos == places && owner == owners && Unmoved() && Synced()
        invariant EvictedUpTo(from, was, calls, victims, reason, d)
      {
        EvictReader(e, attacker, d, reason, victims, from, was, calls);
        d := d + 1;
      }
    }

    method EvictOthers(attacker: nat, e: Slot, reason: Conflict)
      requires Agrees() && attacker < nodes && e in pos
      modifies `aborted, `view, `logged, pos.Keys`addr, pos.Keys`nr, pos.Keys`writer, owner.Keys, logs
      ensures Agrees()
      ensures EvictedUpTo(old(view), old(logged), old(aborted), old(view)[e].readers - {attacker}, reason, nodes)
      ensures Unmoved()
    {
      PurgeEachKeepsCoherent(nodes, view, logged, view[e].readers - {attacker}, nodes);
      EvictReaders(e, attacker, reason, view[e].readers - {attacker}, view, logged, aborted);
    }

    /** contention_manager_war: all readers of a slot. */
    method War(attacker: nat, e: Slot, reason: Conflict) returns (won: bool)
      requires Agrees() && attacker < nodes && e in pos
      modifies `aborted, `view, `logged, pos.Keys`addr, pos.Keys`nr, pos.Keys`writer, owner.Keys, logs
      ensures Agrees()
      ensures won <==> forall d | d in old(view)[e].readers && d != attacker ::
                         prios[attacker] < prios[d] || (prios[attacker] == prios[d] && attacker < d)
      ensures EvictedUpTo(old(view), old(logged), old(aborted),
                          if won then old(view)[e].readers - {attacker} else {}, reason, nodes)
      ensures Unmoved()
    {
      won := BeatsAll(attacker, e.reader);
      if won {
        EvictOthers(attacker, e, reason);
      } else {
        NoVictim(view, logged, reason, nodes);
      }
    }

    // ------------------------------------------- an insert, given its slot

    /** The contention manager's part in bucket_insert_r. */
    method ArbitrateRead(s: Slot, id: nat, a: int) returns (won: bool)
      requires Agrees() && id < nodes && s in pos && SlotFor(view, s, a)
      modifies `aborted, `view, `logged, pos.Keys`addr, pos.Keys`nr, pos.Keys`writer, owner.Keys, logs
      ensures Agrees() && won == Admits(old(view), old(logged), id, a, Rd)
      ensures won ==> EvictedUpTo(old(view), old(logged), old(aborted),
                                  Blockers(old(Locks()), id, a, Rd), ReadAfterWrite, nodes)
      ensures !won ==> view == old(view) && logged == old(logged) && aborted == old(aborted)
      ensures Unmoved()
    {
      BlockersAt(nodes, view, logged, s, id, a);
      won := true;
      NoVictim(view, logged, ReadAfterWrite, nodes);
      if s.writer != NO_WRITER {
        assert Blockers(Locks(), id, a, Rd) == {s.writer};
        won := RawWaw(id, s.writer, ReadAfterWrite);
      } else {
        assert Blockers(Locks(), id, a, Rd) == {};
      }
    }

    /** The contention manager's part in bucket_insert_w. */
    method ArbitrateWrite(s: Slot, id: nat, a: int) returns (won: bool, reason: Conflict)
      requires Agrees() && id < nodes && s in pos && SlotFor(view, s, a)
      modifies `aborted, `view, `logged, pos.Keys`addr, pos.Keys`nr, pos.Keys`writer, owner.Keys, logs
      ensures Agrees() && won == Admits(old(view), old(logged), id, a, Wr) && reason == Reason(old(Locks()), id, a, Wr)
      ensures won ==> EvictedUpTo(old(view), old(logged), old(aborted),
                                  Blockers(old(Locks()), id, a, Wr), reason, nodes)
      ensures !won ==> view == old(view) && logged == old(logged) && aborted == old(aborted)
      ensures Unmoved()
    {
      BlockersAt(nodes, view, logged, s, id, a);
      if s.writer != NO_WRITER && s.writer != id {
        reason := WriteAfterWrite;
        NoVictim(view, logged, reason, nodes);
        won := RawWaw(id, s.writer, reason);
      } else {
        reason := WriteAfterRead;
        won := ArbitrateReaders(s, id, a);
      }
    }

    /** No other node writes the slot. */
    method ArbitrateReaders(s: Slot, id: nat, a: int) returns (won: bool)
      requires Agrees() && id < nodes && s in pos && SlotFor(view, s, a)
      requires s.writer == NO_WRITER || s.writer == id
      modifies `aborted, `view, `logged, pos.Keys`addr, pos.Keys`nr, pos.Keys`writer, owner.Keys, logs
      ensures Agrees() && won == Admits(old(view), old(logged), id, a, Wr)
      ensures won ==> EvictedUpTo(old(view), old(logged), old(aborted),
                                  Blockers(old(Locks()), id, a, Wr), WriteAfterRead, nodes)
      ensures !won ==> view == old(view) && logged == old(logged) && aborted == old(aborted)
      ensures Unmoved()
    {
      BlockersAt(nodes, view, logged, s, id, a);
      NoVictim(view, logged, WriteAfterRead, nodes);
      OthersRead(view[s], id, nodes);
      if s.nr > 1 || (s.nr == 1 && !s.reader[id]) {
        won := War(id, s, WriteAfterRead);
      } else {
        won := true;
      }
      ReadersBeaten(old(view), old(logged), s, id, a, won);
    }

    lemma ReadersBeaten(from: map<Slot?, SlotView>, was: seq<seq<Slot?>>, s: Slot, id: nat, a: int, won: bool)
      requires Coherent(nodes, from, was) && id < nodes == |prios| && SlotFor(from, s, a)
      requires from[s].writer == NO_WRITER || from[s].writer == id
      requires won <==> forall d | d in from[s].readers && d != id ::
                          prios[id] < prios[d] || (prios[id] == prios[d] && id < d)
      ensures won == Admits(from, was, id, a, Wr)
    {
      BlockersAt(nodes, from, was, s, id, a);
    }

    ghost predicate Admits(from: map<Slot?, SlotView>, was: seq<seq<Slot?>>, id: nat, a: int, m: Mode)
      requires Coherent(nodes, from, was) && id < |prios| == nodes
      reads `prios
    {
      CoherentIsExclusive(nodes, from, was);
      Wins(SlotSpec.Holds(from), prios, id, a, m)
    }

    /** The rest of bucket_insert_r once the slot is found. */
    method ReadAt(s: Slot, id: nat, a: int) returns (r: Conflict)
      requires Agrees() && id < nodes && s in pos && SlotFor(view, s, a)
      modifies `aborted, `view, `logged, pos.Keys`addr, pos.Keys`nr, pos.Keys`writer, owner.Keys, logs
      ensures Synced() && Settled(old(view), old(logged), old(aborted), s, id, a, Rd, r)
      ensures Unmoved()
    {
      var won := ArbitrateRead(s, id, a);
      if !won {
        return ReadAfterWrite;
      }
      EnterReader(s, id, a, old(view), old(logged), old(aborted));
      return NoConflict;
    }

    /** The rest of bucket_insert_w once the slot is found. */
    method WriteAt(s: Slot, id: nat, a: int) returns (r: Conflict)
      requires Agrees() && id < nodes && s in pos && SlotFor(view, s, a)
      modifies `aborted, `view, `logged, pos.Keys`addr, pos.Keys`nr, pos.Keys`writer, owner.Keys, logs
      ensures Synced() && Settled(old(view), old(logged), old(aborted), s, id, a, Wr, r)
      ensures Unmoved()
    {
      var won, reason := ArbitrateWrite(s, id, a);
      if !won {
        return reason;
      }
      EnterWriter(s, id, a, old(view), old(logged), old(aborted));
      return NoConflict;
    }

    /** Rewrite the slot, which the evictions may have freed, and log it. */
    method EnterReader(s: Slot, id: nat, a: int,
                       ghost from: map<Slot?, SlotView>, ghost was: seq<seq<Slot?>>, ghost calls: seq<Abort>)
      requires Agrees() && Coherent(nodes, from, was) && id < nodes && s in pos && SlotFor(from, s, a)
      requires Admits(from, was, id, a, Rd)
      requires EvictedUpTo(from, was, calls, Blockers(SlotSpec.Holds(from), id, a, Rd), ReadAfterWrite, nodes)
      modifies `view, `logged, s`addr, s`nr, s.reader, logs[id]
      ensures Synced() && Settled(from, was, calls, s, id, a, Rd, NoConflict)
      ensures Unmoved()
    {
      GiveRead(s, id, a);
      EnteredIsSettled(from, was, calls, s, id, a, Rd);
    }

    method EnterWriter(s: Slot, id: nat, a: int,
                       ghost from: map<Slot?, SlotView>, ghost was: seq<seq<Slot?>>, ghost calls: seq<Abort>)
      requires Agrees() && Coherent(nodes, from, was) && id < nodes && s in pos && SlotFor(from, s, a)
      requires Admits(from, was, id, a, Wr)
      requires EvictedUpTo(from, was, calls, Blockers(SlotSpec.Holds(from), id, a, Wr),
                           Reason(SlotSpec.Holds(from), id, a, Wr), nodes)
      modifies `view, `logged, s`addr, s`writer, logs[id]
      ensures Synced() && Settled(from, was, calls, s, id, a, Wr, NoConflict)
      ensures Unmoved()
    {
      GiveWrite(s, id, a);
      EnteredIsSettled(from, was, calls, s, id, a, Wr);
    }

    lemma EnteredIsSettled(from: map<Slot?, SlotView>, was: seq<seq<Slot?>>, calls: seq<Abort>, s: Slot, id: nat,
                           a: int, m: Mode)
      requires Synced() && Coherent(nodes, from, was) && id < nodes && SlotFor(from, s, a)
      requires Admits(from, was, id, a, m)
      requires var b, reason := Blockers(SlotSpec.Holds(from), id, a, m), Reason(SlotSpec.Holds(from), id, a, m);
               var view', logs' := PurgedEach(from, b, nodes), ClearedEach(was, b, nodes);
               && view == view'[s := Entered(view'[s], a, id, m)]
               && logged == logs'[id := EnteredLog(logs'[id], s, view'[s], id, m)]
               && aborted == calls + AbortedEach(b, reason, nodes)
      ensures Settled(from, was, calls, s, id, a, m, NoConflict)
    {
      EnteredSlot(nodes, from, was, s, id, a, m);
    }

    /** The table after a request that found it as `from`, `was` and `calls`. */
    ghost predicate Settled(from: map<Slot?, SlotView>, was: seq<seq<Slot?>>, calls: seq<Abort>,
                            s: Slot, id: nat, a: int, m: Mode, r: Conflict)
      requires Coherent(nodes, from, was) && id < nodes == |prios|
      reads `view, `logged, `aborted, `prios
    {
      var b := Blockers(SlotSpec.Holds(from), id, a, m);
      var reason := Reason(SlotSpec.Holds(from), id, a, m);
      if Admits(from, was, id, a, m) then
        && r == NoConflict && Locks() == Granted(SlotSpec.Holds(from), id, a, m)
        && (Coherent(nodes, view, logged) <==> !Again(SlotSpec.Holds(from), id, a, m))
        && aborted == calls + AbortedEach(b, reason, nodes)
        && s in PurgedEach(from, b, nodes)
        && view == PurgedEach(from, b, nodes)[s := Entered(PurgedEach(from, b, nodes)[s], a, id, m)]
      else
        r == reason && view == from && logged == was && aborted == calls
    }

    method GiveRead(s: Slot, id: nat, a: int)
      requires Synced() && id < nodes && s in pos
      modifies `view, `logged, s`addr, s`nr, s.reader, logs[id]
      ensures Synced() && view == old(view)[s := Entered(old(view)[s], a, id, Rd)]
      ensures logged == old(logged)[id := EnteredLog(old(logged)[id], s, old(view)[s], id, Rd)]
      ensures Unmoved() && aborted == old(aborted)
    {
      var added := AddReaderTo(s, a, id);
      if added {
        LogInsert(id, s);
      }
    }

    method GiveWrite(s: Slot, id: nat, a: int)
      requires Synced() && id < nodes && s in pos
      modifies `view, `logged, s`addr, s`writer, logs[id]
      ensures Synced() && view == old(view)[s := Entered(old(view)[s], a, id, Wr)]
      ensures logged == old(logged)[id := EnteredLog(old(logged)[id], s, old(view)[s], id, Wr)]
      ensures Unmoved() && aborted == old(aborted)
    {
      SetWriterOf(s, a, id);
      LogInsert(id, s);
    }

    // -------------------------------------------------------- chain scans

    method ScanBucket(bu: Bucket, a: int) returns (i: nat)
      requires Synced() && |bu.slots| == ADDR_PER_CL && forall k | 0 <= k < ADDR_PER_CL :: bu.slots[k] in pos
      ensures i <= ADDR_PER_CL && forall k | 0 <= k < i :: view[bu.slots[k]].addr != a
      ensures i < ADDR_PER_CL ==> view[bu.slots[i]].addr == a
    {
      i := 0;
      while i < ADDR_PER_CL
        invariant i <= ADDR_PER_CL && forall k | 0 <= k < i :: view[bu.slots[k]].addr != a
      {
        if bu.slots[i].addr == a {
          return;
        }
        i := i + 1;
      }
    }

    /** No slot before the `j`-th bucket of chain `b` has address `a`. */
    ghost predicate AbsentBefore(b: nat, j: nat, a: int)
      reads `pos, `view
    {
      forall u | u in pos && u in view && pos[u].0 == b && pos[u].1 < j :: view[u].addr != a
    }

    /** `s` is the first slot of chain `b` with address `a`. */
    ghost predicate FirstIn(b: nat, s: Slot?, a: int)
      reads `pos, `view
    {
      && s in pos && s in view && pos[s].0 == b && view[s].addr == a
      && forall u | u in pos && u in view && pos[u].0 == b
                    && (pos[u].1 < pos[s].1 || (pos[u].1 == pos[s].1 && pos[u].2 < pos[s].2)) :: view[u].addr != a
    }

    lemma IsFirst(b: nat, j: nat, i: nat, a: int)
      requires Chained() && Synced() && b < NUM_BUCKETS && j < |chains[b]| && AbsentBefore(b, j, a)
      requires i < ADDR_PER_CL && HasSlots(chains[b][j], b, j, pos) && view[chains[b][j].slots[i]].addr == a
      requires forall k | 0 <= k < i :: chains[b][j].slots[k] in pos && view[chains[b][j].slots[k]].addr != a
      ensures FirstIn(b, chains[b][j].slots[i], a)
    {
    }

    /** The first do loop of bucket_insert_r and bucket_insert_w. */
    method FindSlot(b: nat, a: int) returns (s: Slot?)
      requires Chained() && Synced() && b < NUM_BUCKETS
      ensures s != null ==> FirstIn(b, s, a)
      ensures s == null ==> forall j :: AbsentBefore(b, j, a)
    {
      var bu: Bucket? := heads[b];
      ghost var j := 0;
      while bu != null
        invariant 0 <= j <= |chains[b]| && bu == if j < |chains[b]| then chains[b][j] else null
        invariant AbsentBefore(b, j, a)
        decreases |chains[b]| - j
      {
        assert Linked(b, j) && HasSlots(bu, b, j, pos);
        var i := ScanBucket(bu, a);
        if i < ADDR_PER_CL {
          IsFirst(b, j, i, a);
          return bu.slots[i];
        }
        bu := bu.next;
        j := j + 1;
      }
      return null;
    }

    /** The last bucket of chain `b` gets a successor. */
    method Extend(b: nat, last: Bucket)
      requires Chained() && Synced() && b < NUM_BUCKETS && last == chains[b][|chains[b]| - 1]
      modifies `chains, `buckets, `pos, `owner, `view, last`next
      ensures Chained() && Synced() && Grown(old(pos), old(view), pos, view)
      ensures last.next != null && HasSlots(last.next, b, |old(chains)[b]|, pos)
      ensures pos.Keys == old(pos).Keys + (set s | s in last.next.slots) && last.next.slots[0] !in old(pos)
      ensures OnlyNewAdded()
    {
      var bu := new Bucket(nodes);
      Attach(b, last, bu);
    }

    method Attach(b: nat, last: Bucket, bu: Bucket)
      requires Chained() && Synced() && b < NUM_BUCKETS && last == chains[b][|chains[b]| - 1]
      requires bu.New(nodes) && bu.next == null && bu !in buckets
      requires forall i | 0 <= i < ADDR_PER_CL :: bu.slots[i] !in pos && bu.slots[i].reader !in owner
      modifies `chains, `buckets, `pos, `owner, `view, last`next
      ensures Chained() && Synced() && Grown(old(pos), old(view), pos, view) && last.next == bu
      ensures buckets == old(buckets) + {bu} && HasSlots(bu, b, |old(chains)[b]|, pos)
      ensures pos.Keys == old(pos).Keys + set s | s in bu.slots
      ensures owner.Keys == old(owner).Keys + set s | s in bu.slots :: s.reader
    {
      OnePlace(chains, pos, b, |chains[b]| - 1);
      AdoptLast(b, bu);
      Link(b, last, bu);
    }

    ghost method AdoptLast(b: nat, bu: Bucket)
      requires Synced() && bu.New(nodes) && b < |chains| && Disjoint(chains, pos)
      requires forall i | 0 <= i < ADDR_PER_CL :: bu.slots[i] !in pos && bu.slots[i].reader !in owner
      modifies `pos, `owner, `view
      ensures Synced() && Grown(old(pos), old(view), pos, view) && HasSlots(bu, b, |chains[b]|, pos)
      ensures Disjoint(chains[b := chains[b] + [bu]], pos)
      ensures pos.Keys == old(pos).Keys + set s | s in bu.slots
      ensures owner.Keys == old(owner).Keys + set s | s in bu.slots :: s.reader
    {
      Adopt(bu, b, |chains[b]|);
      OneMoreBucket(chains, old(pos), b, bu, pos);
    }

    method Link(b: nat, last: Bucket, bu: Bucket)
      requires |heads| == |chains| == NUM_BUCKETS && b < NUM_BUCKETS && bu.next == null && bu !in buckets
      requires forall c: nat | c < NUM_BUCKETS :: |chains[c]| > 0 && chains[c][0] == heads[c]
      requires forall c: nat, k: nat | c < NUM_BUCKETS && k < |chains[c]| ::
                 Linked(c, k) && (chains[c][k] == last <==> c == b && k == |chains[b]| - 1)
      requires Disjoint(chains[b := chains[b] + [bu]], pos)
      modifies `chains, `buckets, last`next
      ensures Chained() && last.next == bu
      ensures chains == old(chains)[b := old(chains)[b] + [bu]] && buckets == old(buckets) + {bu}
      ensures pos == old(pos) && owner == old(owner) && view == old(view)
    {
      ghost var chains0 := chains;
      assert Linked(b, |chains[b]| - 1);
      last.next := bu;
      chains := chains[b := chains[b] + [bu]];
      buckets := buckets + {bu};
      forall c: nat, k: nat | c < NUM_BUCKETS && k < |chains[c]| ensures Linked(c, k) {
        if c == b && k == |chains0[b]| {
          assert chains[c][k] == bu && bu != last;
        } else {
          assert chains[c][k] == chains0[c][k] && old(Linked(c, k));
        }
      }
    }

    /** A new slot, free. */
    ghost method AdoptSlot(s: Slot, at: (nat, nat, nat))
      requires Synced() && s !in pos && s.reader !in owner && s.Shows(EMPTY) && s.reader.Length == nodes
      modifies `pos, `owner, `view
      ensures Synced() && pos == old(pos)[s := at] && owner == old(owner)[s.reader := s]
              && view == old(view)[s := EMPTY]
    {
      pos := pos[s := at];
      owner := owner[s.reader := s];
      view := view[s := EMPTY];
    }

    ghost method Adopt(bu: Bucket, b: nat, j: nat)
      requires Synced() && bu.New(nodes)
      requires forall i | 0 <= i < ADDR_PER_CL :: bu.slots[i] !in pos && bu.slots[i].reader !in owner
      modifies `pos, `owner, `view
      ensures Synced() && Grown(old(pos), old(view), pos, view) && HasSlots(bu, b, j, pos)
      ensures pos.Keys == old(pos).Keys + set s | s in bu.slots
      ensures owner.Keys == old(owner).Keys + set s | s in bu.slots :: s.reader
    {
      var s0, s1, s2 := bu.slots[0], bu.slots[1], bu.slots[2];
      assert bu.slots == [s0, s1, s2];
      ThreeMore(pos, owner, view, bu, b, j);
      AdoptSlot(s0, (b, j, 0));
      AdoptSlot(s1, (b, j, 1));
      AdoptSlot(s2, (b, j, 2));
    }

    /** The second do loop up to the end of the chain. */
    method FirstFree(b: nat) returns (s: Slot?, last: Bucket)
      requires Chained() && Synced() && b < NUM_BUCKETS
      ensures s != null ==> FirstIn(b, s, 0)
      ensures s == null ==> last == chains[b][|chains[b]| - 1] && AbsentBefore(b, |chains[b]|, 0)
    {
      last := heads[b];
      ghost var j := 0;
      while true
        invariant 0 <= j && b < |chains| && j < |chains[b]| && chains[b][j] == last && AbsentBefore(b, j, 0)
        decreases |chains[b]| - j
      {
        assert Linked(b, j) && HasSlots(last, b, j, pos);
        var i := ScanBucket(last, 0);
        if i < ADDR_PER_CL {
          IsFirst(b, j, i, 0);
          return last.slots[i], last;
        }
        if last.next == null {
          return null, last;
        }
        last := last.next;
        j := j + 1;
      }
    }

    /** The first slot of a new bucket comes after all slots of the chain. */
    lemma NewIsFirst(was: map<Slot?, (nat, nat, nat)>, from: map<Slot?, SlotView>, b: nat, n: nat, bu: Bucket)
      requires view.Keys == pos.Keys && from.Keys == was.Keys && Grown(was, from, pos, view)
      requires HasSlots(bu, b, n, pos) && pos.Keys == was.Keys + (set s | s in bu.slots) && bu.slots[0] !in was
      requires forall u | u in was && was[u].0 == b :: was[u].1 < n && from[u].addr != 0
      ensures FirstIn(b, bu.slots[0], 0)
    {
    }

    /** The second do loop: the first free slot of the chain, in a new bucket if there is none. */
    method FreeSlot(b: nat) returns (s: Slot)
      requires Chained() && Synced() && b < NUM_BUCKETS
      modifies `chains, `buckets, `pos, `owner, `view, buckets`next
      ensures Chained() && Synced() && Grown(old(pos), old(view), pos, view)
      ensures FirstIn(b, s, 0)
      ensures pos == old(pos) || forall u | u in old(pos) && old(pos)[u].0 == b :: old(view)[u].addr != 0
      ensures OnlyNewAdded()
    {
      var found, last := FirstFree(b);
      if found != null {
        return found;
      }
      assert Linked(b, |chains[b]| - 1);
      assert forall u | u in pos && pos[u].0 == b :: pos[u].1 < |chains[b]| && view[u].addr != 0;
      Extend(b, last);
      NewIsFirst(old(pos), old(view), b, |old(chains)[b]|, last.next);
      s := last.next.slots[0];
    }

    // ------------------------------------------------------------ requests

    /** No slot of the whole table has address `a` if none of its chain has. */
    lemma Absent(b: nat, a: int)
      requires Placed() && view.Keys == pos.Keys && a != 0 && b == hash(a) % NUM_BUCKETS
      requires forall j :: AbsentBefore(b, j, a)
      ensures forall u | u in view :: view[u].addr != a
    {
      forall u | u in view ensures view[u].addr != a {
        assert AbsentBefore(b, pos[u].1 + 1, a);
      }
    }

    /** What a request did to a table that was `from`, `was` and `calls`: what the holdings
        demand, nothing at all if it was refused, and no slot left occupied without a holder.
        Table and logs still agree, except after a write lock was granted once more. */
    ghost predicate Answered(from: map<Slot?, SlotView>, was: seq<seq<Slot?>>, calls: seq<Abort>,
                             id: nat, a: int, m: Mode, r: Conflict)
      requires Coherent(nodes, from, was) && id < nodes == |prios|
      reads `view, `logged, `aborted, `prios
    {
      CoherentIsExclusive(nodes, from, was);
      && var d := Decision(SlotSpec.Holds(from), prios, id, a, m);
      && r == d.reply && Locks() == d.holds && aborted == calls + d.calls
      && (Coherent(nodes, view, logged) <==> !Again(SlotSpec.Holds(from), id, a, m))
      && (r != NoConflict ==> view == from && logged == was)
      && (Tidy(from) ==> Tidy(view))
    }

    lemma SettledIsAnswered(from: map<Slot?, SlotView>, was: seq<seq<Slot?>>, calls: seq<Abort>,
                            s: Slot, id: nat, a: int, m: Mode, r: Conflict)
      requires Coherent(nodes, from, was) && id < nodes == |prios|
      requires Settled(from, was, calls, s, id, a, m, r)
      ensures Answered(from, was, calls, id, a, m, r)
    {
      CoherentIsExclusive(nodes, from, was);
      AgainIsGranted(SlotSpec.Holds(from), id, a, m);
      if Tidy(from) {
        PurgedEachTidy(from, Blockers(SlotSpec.Holds(from), id, a, m), nodes);
      }
    }

    lemma SettledIsPlaced(from: map<Slot?, SlotView>, was: seq<seq<Slot?>>, calls: seq<Abort>,
                          s: Slot, id: nat, a: int, m: Mode, r: Conflict)
      requires Coherent(nodes, from, was) && id < nodes == |prios| && s in pos
      requires Settled(from, was, calls, s, id, a, m, r)
      requires forall u | u in from && u in pos && from[u].addr != 0 :: hash(from[u].addr) % NUM_BUCKETS == pos[u].0
      requires hash(a) % NUM_BUCKETS == pos[s].0
      ensures Placed()
    {
      PurgedAddresses(from, Blockers(SlotSpec.Holds(from), id, a, m), nodes);
    }

    /** bucket_insert_r and bucket_insert_w on a slot that has the address. */
    method AtSlot(s: Slot, id: nat, a: int, m: Mode) returns (r: Conflict)
      requires Agrees() && Placed() && id < nodes && s in pos && SlotFor(view, s, a)
               && hash(a) % NUM_BUCKETS == pos[s].0
      modifies `aborted, `view, `logged, pos.Keys`addr, pos.Keys`nr, pos.Keys`writer, owner.Keys, logs
      ensures Synced() && Placed() && Answered(old(view), old(logged), old(aborted), id, a, m, r)
      ensures Unmoved()
    {
      if m == Rd {
        r := ReadAt(s, id, a);
      } else {
        r := WriteAt(s, id, a);
      }
      SettledIsAnswered(old(view), old(logged), old(aborted), s, id, a, m, r);
      SettledIsPlaced(old(view), old(logged), old(aborted), s, id, a, m, r);
    }

    /** The same on a free slot, for an address that no slot has: nobody is in the way. */
    method AtFreeSlot(s: Slot, id: nat, a: int, m: Mode)
      requires Agrees() && Placed() && id < nodes && s in pos && SlotFor(view, s, a)
               && hash(a) % NUM_BUCKETS == pos[s].0
      requires view[s].addr == 0
      modifies `view, `logged, s`addr, s`nr, s`writer, s.reader, logs[id]
      ensures Synced() && Placed() && Answered(old(view), old(logged), old(aborted), id, a, m, NoConflict)
      ensures Unmoved()
    {
      BlockersAt(nodes, view, logged, s, id, a);
      assert Blockers(Locks(), id, a, m) == {};
      NoVictim(view, logged, Reason(Locks(), id, a, m), nodes);
      if m == Rd {
        EnterReader(s, id, a, view, logged, aborted);
      } else {
        EnterWriter(s, id, a, view, logged, aborted);
      }
      SettledIsAnswered(old(view), old(logged), old(aborted), s, id, a, m, NoConflict);
      SettledIsPlaced(old(view), old(logged), old(aborted), s, id, a, m, NoConflict);
    }

    /** A free slot in chain `b` for an address that no slot has. */
    method MakeRoom(b: nat, a: int) returns (s: Slot)
      requires Valid() && a != 0 && b == hash(a) % NUM_BUCKETS && forall u | u in view :: view[u].addr != a
      modifies `chains, `buckets, `pos, `owner, `view, buckets`next
      ensures Valid() && s in pos && pos[s].0 == b && view[s].addr == 0 && SlotFor(view, s, a)
      ensures Locks() == old(Locks()) && (Tidy(old(view)) ==> Tidy(view))
      ensures OnlyNewAdded()
    {
      s := FreeSlot(b);
      RoomMade(old(pos), old(view), s, a);
    }

    /** Free slots more or less make no difference to anything but the free slots. */
    lemma RoomMade(was: map<Slot?, (nat, nat, nat)>, from: map<Slot?, SlotView>, s: Slot, a: int)
      requires Synced() && Coherent(nodes, from, logged) && Grown(was, from, pos, view) && was.Keys == from.Keys
      requires forall u | u in from && from[u].addr != 0 :: hash(from[u].addr) % NUM_BUCKETS == was[u].0
      requires s in view && view[s].addr == 0 && a != 0 && forall u | u in from :: from[u].addr != a
      ensures Agrees() && Placed() && SlotFor(view, s, a)
      ensures Locks() == SlotSpec.Holds(from) && (Tidy(from) ==> Tidy(view))
    {
      EmptySlotsAdded(nodes, from, logged, view);
    }

    /** The second half of bucket_insert_r and bucket_insert_w: no slot has the address. */
    method InsertNew(b: nat, id: nat, a: int, m: Mode)
      requires Valid() && id < nodes && a != 0 && b == hash(a) % NUM_BUCKETS
               && forall u | u in view :: view[u].addr != a
      modifies `chains, `buckets, `pos, `owner, `view, `logged, buckets`next,
               pos.Keys`addr, pos.Keys`nr, pos.Keys`writer, owner.Keys, logs
      ensures Sound() && Answered(old(view), old(logged), old(aborted), id, a, m, NoConflict)
      ensures OnlyNewAdded()
    {
      var s := MakeRoom(b, a);
      InsertFree(s, id, a, m);
    }

    method InsertFree(s: Slot, id: nat, a: int, m: Mode)
      requires Valid() && id < nodes && s in pos && SlotFor(view, s, a) && view[s].addr == 0
               && hash(a) % NUM_BUCKETS == pos[s].0
      modifies `view, `logged, s`addr, s`nr, s`writer, s.reader, logs[id]
      ensures Sound() && Answered(old(view), old(logged), old(aborted), id, a, m, NoConflict)
      ensures Unmoved()
    {
      AtFreeSlot(s, id, a, m);
      StillChained();
    }

    /** The first half: some slot has it. */
    method InsertAt(s: Slot, id: nat, a: int, m: Mode) returns (r: Conflict)
      requires Valid() && id < nodes && s in pos && SlotFor(view, s, a) && pos[s].0 == hash(a) % NUM_BUCKETS
      modifies `aborted, `view, `logged, pos.Keys`addr, pos.Keys`nr, pos.Keys`writer, owner.Keys, logs
      ensures Sound() && Answered(old(view), old(logged), old(aborted), id, a, m, r)
      ensures Unmoved()
      ensures OnlyNewAdded()
    {
      r := AtSlot(s, id, a, m);
      StillChained();
    }

    /** The scan of the whole chain: the slot of the address, which is the only one, or none. */
    method Lookup(b: nat, id: nat, a: int) returns (s: Slot?)
      requires Valid() && id < nodes && a != 0 && b == hash(a) % NUM_BUCKETS
      ensures s != null ==> s in pos && SlotFor(view, s, a) && pos[s].0 == b
      ensures s == null ==> forall u | u in view :: view[u].addr != a
    {
      s := FindSlot(b, a);
      if s != null {
        FoundIsFor(nodes, view, logged, s, a, id);
      } else {
        Absent(b, a);
      }
    }

    method BucketInsert(b: nat, id: nat, a: int, m: Mode) returns (r: Conflict)
      requires Valid() && id < nodes && a != 0 && b == hash(a) % NUM_BUCKETS
      modifies `aborted, `chains, `buckets, `pos, `owner, `view, `logged, buckets`next,
               pos.Keys`addr, pos.Keys`nr, pos.Keys`writer, owner.Keys, logs
      ensures Sound() && Answered(old(view), old(logged), old(aborted), id, a, m, r)
      ensures OnlyNewAdded()
    {
      var s := Lookup(b, id, a);
      if s != null {
        r := InsertAt(s, id, a, m);
      } else {
        InsertNew(b, id, a, m);
        r := NoConflict;
      }
    }

    /** `d` is what must come of a request. */
    ghost predicate IsDecision(d: Outcome, id: nat, a: int, m: Mode)
      reads `view, `prios
    {
      id < |prios| && (forall x | x in Locks() :: x.node < |prios|) && d == Decision(Locks(), prios, id, a, m)
    }

    /** tm2c_ht_insert: what is decided on the holdings, and only the logs may tell that a write
        lock was granted once more. */
    method Insert(id: nat, a: int, m: Mode, ghost d: Outcome) returns (r: Conflict)
      requires Valid() && id < nodes && a != 0 && IsDecision(d, id, a, m)
      modifies `aborted, `chains, `buckets, `pos, `owner, `view, `logged, buckets`next,
               pos.Keys`addr, pos.Keys`nr, pos.Keys`writer, owner.Keys, logs
      ensures Sound() && OnlyNewAdded()
      ensures r == d.reply && Locks() == d.holds && aborted == old(aborted) + d.calls
      ensures LogsAgree() <==> !Again(old(Locks()), id, a, m)
      ensures r != NoConflict ==> view == old(view) && logged == old(logged) && LogsAgree()
      ensures Tidy(old(view)) ==> Tidy(view)
    {
      r := BucketInsert(hash(a) % NUM_BUCKETS, id, a, m);
      AnswerDecided(old(view), old(logged), old(aborted), id, a, m, r, d);
    }

    lemma AnswerDecided(from: map<Slot?, SlotView>, was: seq<seq<Slot?>>, calls: seq<Abort>, id: nat, a: int, m: Mode,
                        r: Conflict, d: Outcome)
      requires Coherent(nodes, from, was) && id < nodes == |prios| && Answered(from, was, calls, id, a, m, r)
      requires (forall x | x in SlotSpec.Holds(from) :: x.node < |prios|)
      requires d == Decision(SlotSpec.Holds(from), prios, id, a, m)
      ensures r == d.reply && Locks() == d.holds && aborted == calls + d.calls
      ensures LogsAgree() <==> !Again(SlotSpec.Holds(from), id, a, m)
      ensures r != NoConflict ==> view == from && logged == was && LogsAgree()
      ensures Tidy(from) ==> Tidy(view)
    {
    }

    // ------------------------------------------------------ single release

    /** The scan of ssht_remove: the first log entry whose slot has the address. */
    method FindEntry(id: nat, a: int) returns (j: nat)
      requires Agrees() && id < nodes
      ensures j <= |logged[id]| == logs[id].nb <= |logs[id].entries|
      ensures forall i | 0 <= i < j :: logged[id][i] in view && view[logged[id][i]].addr != a
      ensures j < |logged[id]| ==>
                logs[id].entries[j] == logged[id][j] && logged[id][j] in view && view[logged[id][j]].addr == a
    {
      j := 0;
      while j < logs[id].nb
        invariant j <= logs[id].nb
        invariant forall i | 0 <= i < j :: logged[id][i] in view && view[logged[id][i]].addr != a
      {
        var s := logs[id].entries[j];
        assert s == logged[id][j] && s in view;
        if s != null && s.addr == a {
          return;
        }
        j := j + 1;
      }
    }

    method ReleaseSlot(s: Slot, id: nat, m: Mode)
      requires Synced() && s in pos && id < nodes
      modifies `view, s`nr, s`writer, s.reader
      ensures Synced() && view == old(view)[s := Released(old(view)[s], id, m)]
      ensures Unmoved()
    {
      s.Release(id, m, view[s]);
      view := view[s := Released(view[s], id, m)];
      assert forall u | u in pos && u != s :: u.reader != s.reader;
    }

    method LogRemove(id: nat, j: nat)
      requires Synced() && id < nodes && j < |logged[id]|
      modifies `logged, logs[id]
      ensures Synced() && |logged| == |old(logged)| && logged == old(logged)[id := logged[id]]
      ensures multiset(logged[id]) == multiset(old(logged)[id]) - multiset{old(logged)[id][j]}
      ensures Unmoved()
    {
      logs[id].RemoveAt(j);
      logged := logged[id := logs[id].contents];
    }

    method ReleaseEntry(id: nat, j: nat, s: Slot, m: Mode)
      requires Agrees() && id < nodes && j < |logged[id]| && logged[id][j] == s && s in pos
      modifies `view, `logged, s`nr, s`writer, s.reader, logs[id]
      ensures Synced() && Locks() == old(Locks()) - {Hold(id, old(view)[s].addr, m)} && SameAddresses(old(view), view)
      ensures Coherent(nodes, view, logged) <==> Hold(id, old(view)[s].addr, m) in SlotHolds(old(view)[s])
      ensures Unmoved()
    {
      ReleaseSlot(s, id, m);
      LogRemove(id, j);
      ReleaseIs(old(view), old(logged), s, id, m);
    }

    lemma ReleaseIs(from: map<Slot?, SlotView>, was: seq<seq<Slot?>>, s: Slot, id: nat, m: Mode)
      requires Coherent(nodes, from, was) && id < nodes && s in was[id] && id < |logged|
      requires view == from[s := Released(from[s], id, m)] && logged == was[id := logged[id]]
      requires multiset(logged[id]) == multiset(was[id]) - multiset{s}
      ensures Locks() == SlotSpec.Holds(from) - {Hold(id, from[s].addr, m)} && SameAddresses(from, view)
      ensures Coherent(nodes, view, logged) <==> Hold(id, from[s].addr, m) in SlotHolds(from[s])
    {
      ReleasedExactly(nodes, from, was, s, id, m, logged[id]);
    }

    method RemoveEntry(id: nat, a: int, m: Mode)
      requires Agrees() && id < nodes && a != 0
      modifies `view, `logged, pos.Keys`nr, pos.Keys`writer, owner.Keys, logs[id]
      ensures Synced() && Locks() == old(Locks()) - {Hold(id, a, m)} && SameAddresses(old(view), view)
      ensures Coherent(nodes, view, logged) <==> MayRelease(old(Locks()), id, a, m)
      ensures Unmoved()
    {
      var j := FindEntry(id, a);
      if j < logs[id].nb {
        EntryFound(nodes, view, logged, logged[id][j], id, a);
        HoldsAt(view, logged[id][j], Hold(id, a, m));
        ReleaseEntry(id, j, logs[id].entries[j], m);
      } else {
        NoEntry(nodes, view, logged, id, a);
      }
    }

    lemma StillPlaced(from: map<Slot?, SlotView>)
      requires SameAddresses(from, view)
      requires forall s | s in from && s in pos && from[s].addr != 0 :: hash(from[s].addr) % NUM_BUCKETS == pos[s].0
      ensures Placed()
    {
    }

    /** ssht_remove; the slot keeps its address even when nobody is left in it.  A node that has
        only the other lock on the address takes table and logs out of step. */
    method Remove(id: nat, a: int, m: Mode)
      requires Valid() && id < nodes && a != 0
      modifies `view, `logged, pos.Keys`nr, pos.Keys`writer, owner.Keys, logs[id]
      ensures Sound() && Locks() == old(Locks()) - {Hold(id, a, m)} && SameAddresses(old(view), view)
      ensures Coherent(nodes, view, logged) <==> MayRelease(old(Locks()), id, a, m)
      ensures Unmoved()
    {
      RemoveEntry(id, a, m);
      StillChained();
      StillPlaced(old(view));
    }

    /** tm2c_ht_delete_node, as the service calls it. */
    method RemoveNode(k: nat)
      requires Valid() && k < nodes
      modifies `view, `logged, pos.Keys`addr, pos.Keys`nr, pos.Keys`writer, owner.Keys, logs[k]
      ensures Valid() && view == PurgedAll(old(view), k) && logged == old(logged)[k := []]
      ensures Locks() == Without(old(Locks()), {k})
      ensures Tidy(old(view)) ==> Tidy(view)
      ensures Unmoved()
    {
      DeleteNode(k);
      StillChained();
      PurgedIsPlaced(old(view), k);
    }

    lemma PurgedIsPlaced(from: map<Slot?, SlotView>, k: nat)
      requires view == PurgedAll(from, k)
      requires forall s | s in from && s in pos && from[s].addr != 0 :: hash(from[s].addr) % NUM_BUCKETS == pos[s].0
      ensures Placed() && (Tidy(from) ==> Tidy(view))
    {
    }

    // -------------------------------------------------------- a new table

    /** ssht_new and the logs of tm2c_ht_new. */
    constructor (nodes: nat, hash: int -> nat)
      requires nodes <= NO_WRITER
      ensures Valid() && this.nodes == nodes && this.hash == hash
      ensures Locks() == {} && Tidy(view) && aborted == [] && prios == seq(nodes, _ => 0)
    {
      var bs := NewBuckets(nodes, NUM_BUCKETS);
      var ls := NewLogs(nodes);
      this.nodes, this.hash, heads, logs := nodes, hash, bs, ls;
      prios, aborted := seq(nodes, _ => 0), [];
      chains, buckets, logged := seq(NUM_BUCKETS, _ => []), set h | h in bs, seq(nodes, _ => []);
      pos, owner, view := map[], map[], map[];
      new;
      AdoptHeads();
      EmptyIsCoherent(nodes, view, logged);
    }

    /** The heads before `b` are in their chains, the others are still to be adopted. */
    ghost predicate HeadsLeft(b: nat)
      reads `chains, `pos, `owner, `view
    {
      && |heads| == |chains| == NUM_BUCKETS && b <= NUM_BUCKETS
      && (forall c: nat | c < NUM_BUCKETS :: chains[c] == if c < b then [heads[c]] else [])
      && Clear(b, pos.Keys, owner.Keys)
      && (forall s | s in view :: view[s] == EMPTY)
      && Disjoint(chains, pos)
    }

    ghost method AdoptHeads()
      requires Synced() && HeadsLeft(0) && AllApart(heads) && forall h | h in heads :: h.next == null && h.New(nodes)
      requires buckets == set h | h in heads
      modifies `chains, `pos, `owner, `view
      ensures Synced() && Chained() && forall s | s in view :: view[s] == EMPTY
    {
      AdoptAll();
      HeadsAreChained();
    }

    ghost method AdoptAll()
      requires Synced() && HeadsLeft(0) && AllApart(heads) && forall h | h in heads :: h.New(nodes)
      modifies `chains, `pos, `owner, `view
      ensures Synced() && HeadsLeft(NUM_BUCKETS)
    {
      var b := 0;
      while b < NUM_BUCKETS
        invariant b <= NUM_BUCKETS && Synced() && HeadsLeft(b) && forall h | h in heads :: h.New(nodes)
      {
        AdoptHead(b);
        b := b + 1;
      }
    }

    lemma HeadsAreChained()
      requires HeadsLeft(NUM_BUCKETS) && buckets == (set h | h in heads) && forall h | h in heads :: h.next == null
      ensures Chained()
    {
      forall b: nat, j: nat | b < NUM_BUCKETS && j < |chains[b]| ensures Linked(b, j) {
        assert chains[b] == [heads[b]];
      }
    }

    /** From head `b` on, no slot is in `known` and no reader array in `owned`. */
    ghost predicate Clear(b: nat, known: set<Slot?>, owned: set<array<bool>>) {
      forall c: nat, i: nat | b <= c < |heads| && i < |heads[c].slots| ::
        heads[c].slots[i] !in known && heads[c].slots[i].reader !in owned
    }

    lemma ClearNext(b: nat, known: set<Slot?>, owned: set<array<bool>>)
      requires AllApart(heads) && b < |heads| && Clear(b, known, owned)
      ensures Clear(b + 1, known + (set s | s in heads[b].slots), owned + set s | s in heads[b].slots :: s.reader)
    {
    }

    ghost method AdoptHead(b: nat)
      requires b < |heads| && Synced() && HeadsLeft(b) && AllApart(heads) && heads[b].New(nodes)
      modifies `chains, `pos, `owner, `view
      ensures Synced() && HeadsLeft(b + 1)
    {
      ClearNext(b, pos.Keys, owner.Keys);
      Adopt(heads[b], b, 0);
      OneMoreBucket(chains, old(pos), b, heads[b], pos);
      NextHead(b);
      AddHead(b);
    }

    ghost method AddHead(b: nat)
      requires Synced() && b < |heads| == |chains|
      modifies `chains
      ensures Synced() && chains == old(chains)[b := old(chains)[b] + [heads[b]]]
      ensures pos == old(pos) && owner == old(owner) && view == old(view)
    {
      chains := chains[b := chains[b] + [heads[b]]];
    }

    lemma NextHead(b: nat)
      requires b < |heads| == |chains| && forall c: nat | c < |heads| :: chains[c] == if c < b then [heads[c]] else []
      ensures forall c: nat | c < |heads| ::
                chains[b := chains[b] + [heads[b]]][c] == if c < b + 1 then [heads[c]] else []
    {
    }
  }

  /** No two buckets share a slot or a reader array. */
  ghost predicate AllApart(bs: seq<Bucket>) {
    forall c: nat, d: nat, i: nat, k: nat | c < d < |bs| && i < |bs[c].slots| && k < |bs[d].slots| ::
      bs[c].slots[i] != bs[d].slots[k] && bs[c].slots[i].reader != bs[d].slots[k].reader
  }

  method NewBuckets(nodes: nat, n: nat) returns (bs: seq<Bucket>)
    ensures |bs| == n && AllApart(bs) && fresh(bs)
    ensures forall b | b in bs :: b.next == null && b.New(nodes)
  {
    bs := [];
    while |bs| < n
      invariant |bs| <= n && AllApart(bs) && fresh(bs)
      invariant forall b | b in bs :: b.next == null && b.New(nodes)
    {
      var b := new Bucket(nodes);
      bs := bs + [b];
    }
  }

  method NewLogs(n: nat) returns (ls: seq<LogSet>)
    ensures |ls| == n && fresh(ls)
    ensures forall k | 0 <= k < n :: ls[k].Valid() && ls[k].contents == []
    ensures forall k, m | 0 <= k < m < n :: ls[k] != ls[m]
  {
    ls := [];
    while |ls| < n
      invariant |ls| <= n && fresh(ls)
      invariant forall k | 0 <= k < |ls| :: ls[k].Valid() && ls[k].contents == []
      invariant forall k, m | 0 <= k < m < |ls| :: ls[k] != ls[m]
    {
      var l := new LogSet();
      ls := ls + [l];
    }
  }
}
