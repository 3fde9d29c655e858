/** The other form of a slot (BIT_OPTS): the readers of an address are the bits of one
    64-bit word, and every read is logged again.  It stands for the same reader set as the
    counted array, answers the same questions, and is purged just as well. */
module ReaderMask {
  import opened SlotSpec

  const MAX_READERS: nat := 64

  // ------------------------------------------------------------- one word

  predicate Member(m: bv64, k: bv6) { (m >> k) & 1 == 1 }

  function WithBit(m: bv64, k: bv6): bv64 { m | (1 << k) }

  function WithoutBit(m: bv64, k: bv6): bv64 { m & !(1 << k) }

  /** Word `m` stands for the reader set `r`. */
  ghost predicate Shows(m: bv64, r: set<nat>) {
    (forall k: bv6 :: Member(m, k) <==> k as nat in r) && forall j | j in r :: j < MAX_READERS
  }

  lemma SetBit(m: bv64, i: bv6, k: bv6)
    ensures Member(WithBit(m, i), k) <==> Member(m, k) || k == i
  {
  }

  lemma UnsetBit(m: bv64, i: bv6, k: bv6)
    ensures Member(WithoutBit(m, i), k) <==> Member(m, k) && k != i
  {
  }

  lemma DifferentBit(m: bv64, n: bv64, k: bv6)
    ensures Member(m ^ n, k) <==> Member(m, k) != Member(n, k)
  {
  }

  lemma NoBit(k: bv6)
    ensures !Member(0, k)
  {
  }

  lemma SameNumber(i: bv6, k: bv6)
    ensures i as nat == k as nat <==> i == k
  {
  }

  lemma SetShows(m: bv64, r: set<nat>, id: bv6)
    requires Shows(m, r)
    ensures Shows(WithBit(m, id), r + {id as nat})
  {
    forall k: bv6 ensures Member(WithBit(m, id), k) <==> k as nat in r + {id as nat} {
      SetBit(m, id, k);
      SameNumber(k, id);
    }
  }

  lemma UnsetShows(m: bv64, r: set<nat>, id: bv6)
    requires Shows(m, r)
    ensures Shows(WithoutBit(m, id), r - {id as nat})
  {
    forall k: bv6 ensures Member(WithoutBit(m, id), k) <==> k as nat in r - {id as nat} {
      UnsetBit(m, id, k);
      SameNumber(k, id);
    }
  }

  /** A word that is not zero has a bit, found by halving. */
  lemma SomeBit(m: bv64) returns (k: bv6)
    requires m != 0
    ensures Member(m, k)
  {
    k := 0;
    if m & 0xFFFF_FFFF == 0 { k := 32; }
    assert (m >> k) & 0xFFFF_FFFF != 0;
    if (m >> k) & 0xFFFF == 0 { k := k + 16; }
    assert (m >> k) & 0xFFFF != 0;
    if (m >> k) & 0xFF == 0 { k := k + 8; }
    assert (m >> k) & 0xFF != 0;
    if (m >> k) & 0xF == 0 { k := k + 4; }
    assert (m >> k) & 0xF != 0;
    if (m >> k) & 3 == 0 { k := k + 2; }
    assert (m >> k) & 3 != 0;
    if (m >> k) & 1 == 0 { k := k + 1; }
  }

  lemma XorIsZero(m: bv64, n: bv64)
    ensures m ^ n == 0 <==> m == n
  {
  }

  /** Comparing words is comparing reader sets. */
  lemma SameShows(m: bv64, r: set<nat>, n: bv64, q: set<nat>)
    requires Shows(m, r) && Shows(n, q)
    ensures m == n <==> r == q
  {
    XorIsZero(m, n);
    if m != n {
      var k := SomeBit(m ^ n);
      DifferentBit(m, n, k);
      assert k as nat in r <==> k as nat !in q;
    } else {
      forall j: nat ensures j in r <==> j in q {
        if j < MAX_READERS {
          assert (j as bv6) as nat == j;
          assert Member(m, j as bv6) <==> j in r;
        }
      }
    }
  }

  lemma ZeroShows()
    ensures Shows(0, {})
  {
    forall k: bv6 ensures !Member(0, k) {
      NoBit(k);
    }
  }

  lemma SetNumber(m: bv64, r: set<nat>, id: nat)
    requires Shows(m, r) && id < MAX_READERS
    ensures Shows(WithBit(m, id as bv6), r + {id})
  {
    SetShows(m, r, id as bv6);
    assert (id as bv6) as nat == id;
  }

  lemma UnsetNumber(m: bv64, r: set<nat>, id: nat)
    requires Shows(m, r) && id < MAX_READERS
    ensures Shows(WithoutBit(m, id as bv6), r - {id})
  {
    UnsetShows(m, r, id as bv6);
    assert (id as bv6) as nat == id;
  }

  lemma ZeroExactly(m: bv64, r: set<nat>)
    requires Shows(m, r)
    ensures m == 0 <==> r == {}
  {
    ZeroShows();
    SameShows(m, r, 0, {});
  }

  /** rw_entry_ssht_is_unique_reader. */
  lemma OneExactly(m: bv64, r: set<nat>, id: nat)
    requires Shows(m, r) && id < MAX_READERS
    ensures WithBit(0, id as bv6) == m <==> r == {id}
  {
    ZeroShows();
    SetNumber(0, {}, id);
    assert {} + {id} == {id};
    SameShows(m, r, WithBit(0, id as bv6), {id});
  }

  // ------------------------------------------------- shifting through a word

  /** Word `m` stands for the readers from `i` on, moved down by `i`. */
  ghost predicate ShowsFrom(m: bv64, r: set<nat>, i: nat) {
    (forall k: bv6 :: Member(m, k) <==> k as nat + i in r) && forall j | j in r :: j < MAX_READERS
  }

  lemma ShiftBit(m: bv64, k: bv6)
    ensures Member(m >> 1, k) <==> k != 63 && Member(m, k + 1)
  {
  }

  lemma NextNumber(k: bv6)
    requires k != 63
    ensures (k + 1) as nat == k as nat + 1
  {
  }

  lemma ShiftShows(m: bv64, r: set<nat>, i: nat)
    requires ShowsFrom(m, r, i)
    ensures ShowsFrom(m >> 1, r, i + 1)
  {
    var u := m >> 1;
    forall k: bv6 ensures Member(u, k) <==> k as nat + (i + 1) in r {
      ShiftBit(m, k);
      if k != 63 {
        NextNumber(k);
        assert Member(m, k + 1) <==> (k + 1) as nat + i in r;
      }
    }
  }

  lemma LowBit(m: bv64, r: set<nat>, i: nat)
    requires ShowsFrom(m, r, i)
    ensures m & 1 == 1 <==> i in r
  {
    assert Member(m, 0) <==> (0 as bv6) as nat + i in r;
    BitZero(m);
  }

  lemma BitZero(m: bv64)
    ensures Member(m, 0) <==> m & 1 == 1
  {
  }

  // ------------------------------------------------------------- one slot

  /** ssht_bucket_remove_index on the mask. */
  function BitDropped(v: SlotView, k: nat): SlotView {
    var u := if v.writer == k then v.(writer := NO_WRITER) else v.(readers := v.readers - {k}, nr := |v.readers - {k}|);
    if Vacant(u) then u.(addr := 0) else u
  }

  /** The read half of an insert: the bit is set whether it was or not. */
  function BitRead(v: SlotView, a: int, id: nat): SlotView {
    v.(addr := a, readers := v.readers + {id}, nr := |v.readers + {id}|)
  }

  /** On a slot whose counter is right, mask and counter do the same. */
  lemma SameAsCounter(v: SlotView, a: int, id: nat, nodes: nat)
    requires SlotOk(v, nodes) && id < nodes <= NO_WRITER
    ensures BitRead(v, a, id) == WithReader(v, a, id)
    ensures HeldBy(v, id) ==> BitDropped(v, id) == Dropped(v, id)
  {
    ReadersFit(v.readers, nodes);
    ReadersFit(v.readers + {id}, nodes);
    if id in v.readers {
      assert v.readers + {id} == v.readers;
    }
  }

  function DroppedTimes(v: SlotView, k: nat, n: nat): SlotView
    decreases n
  {
    if n == 0 then v else DroppedTimes(BitDropped(v, k), k, n - 1)
  }

  /** A purge that finds a slot more often in the log than the node has locks on it -- the
      node read it again, or took its write lock twice -- still leaves what a purge must. */
  lemma {:induction false} LoggedTooOftenIsPurged(v: SlotView, k: nat, n: nat, nodes: nat)
    requires SlotOk(v, nodes) && k < nodes <= NO_WRITER && n >= Times(v, k)
    requires HeldBy(v, k) || (v == Purged(v, k) && (Vacant(v) ==> v.addr == 0))
    ensures DroppedTimes(v, k, n) == Purged(v, k)
    decreases n
  {
    if n > 0 {
      if HeldBy(v, k) {
        SameAsCounter(v, v.addr, k, nodes);
        DroppedIsPurged(v, k, nodes);
        LoggedTooOftenIsPurged(BitDropped(v, k), k, n - 1, nodes);
      } else {
        assert v.readers - {k} == v.readers;
        assert BitDropped(v, k) == v;
        LoggedTooOftenIsPurged(v, k, n - 1, nodes);
      }
    }
  }

  class MaskSlot {
    var addr: int
    var readers: bv64
    var writer: nat

    ghost predicate Is(v: SlotView)
      reads this
    {
      addr == v.addr && writer == v.writer && Shows(readers, v.readers)
    }

    /** calloc, and the writer set by ssht_bucket_new. */
    constructor ()
      ensures Is(EMPTY)
    {
      addr, readers, writer := 0, 0, NO_WRITER;
      ZeroShows();
    }

    /** rw_entry_ssht_set, with the address of the granted read. */
    method Read(a: int, id: nat, ghost v: SlotView)
      requires Is(v) && id < MAX_READERS
      modifies `addr, `readers
      ensures Is(BitRead(v, a, id))
    {
      SetNumber(readers, v.readers, id);
      addr := a;
      readers := WithBit(readers, id as bv6);
    }

    /** ssht_bucket_remove_index. */
    method Drop(id: nat, ghost v: SlotView)
      requires Is(v) && id < MAX_READERS
      modifies this
      ensures Is(BitDropped(v, id))
    {
      if writer == id {
        writer := NO_WRITER;
        ZeroExactly(readers, v.readers);
      } else {
        UnsetNumber(readers, v.readers, id);
        readers := WithoutBit(readers, id as bv6);
        ZeroExactly(readers, v.readers - {id});
      }
      if readers == 0 && writer == NO_WRITER {
        addr := 0;
      }
    }

    /** The guard of bucket_insert_w: somebody else reads. */
    method OthersRead(id: nat, ghost v: SlotView) returns (b: bool)
      requires Is(v) && id < MAX_READERS
      ensures b <==> v.readers - {id} != {}
    {
      ZeroExactly(readers, v.readers);
      OneExactly(readers, v.readers, id);
      b := readers != 0 && WithBit(0, id as bv6) != readers;
    }

    /** rw_entry_ssht_fetch_readers. */
    method FetchReaders(out: array<bool>, nodes: nat, ghost v: SlotView)
      requires Is(v) && nodes <= out.Length && nodes <= MAX_READERS
      modifies out
      ensures forall k | 0 <= k < nodes :: out[k] <==> k in v.readers
    {
      var convert := readers;
      var i := 0;
      while i < nodes
        invariant i <= nodes && ShowsFrom(convert, v.readers, i)
        invariant forall k | 0 <= k < i :: out[k] <==> k in v.readers
      {
        LowBit(convert, v.readers, i);
        out[i] := convert & 1 == 1;
        ShiftShows(convert, v.readers, i);
        convert := convert >> 1;
        i := i + 1;
      }
    }
  }
}
