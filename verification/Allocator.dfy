/** The shared-memory allocator of one thread: a bump cursor and a ring of freed blocks with
    eight-bit indices, and the lists that make allocation part of a transaction. */
module Allocator {

  const RING: nat := 256

  /** What is where: `extent` maps every block ever cut from the memory to its size, `live`
      every block in use to the size that was asked for. */
  datatype Books = Books(next: nat, extent: map<nat, nat>, live: map<nat, nat>, pending: seq<nat>)

  /** Blocks are cut side by side; a block is in use, waiting in the ring, or lost. */
  ghost predicate Sound(b: Books) {
    && (forall x | x in b.extent :: b.extent[x] > 0 && x + b.extent[x] <= b.next)
    && (forall x, y | x in b.extent && y in b.extent && x < y :: x + b.extent[x] <= y)
    && b.live.Keys <= b.extent.Keys
    && (forall i | 0 <= i < |b.pending| :: b.pending[i] in b.extent && b.pending[i] !in b.live)
    && (forall i, j | 0 <= i < j < |b.pending| :: b.pending[i] != b.pending[j])
  }

  /** No block in use is larger than what was cut for it. */
  ghost predicate Fits(b: Books) {
    forall x | x in b.live && x in b.extent :: b.live[x] <= b.extent[x]
  }

  /** tm2c_shmalloc: the oldest of at least three waiting blocks, whatever its size, or a new one. */
  function Alloc(b: Books, n: nat): (r: (nat, Books)) {
    if |b.pending| > 2 then
      var x := b.pending[0];
      (x, b.(live := b.live[x := n], pending := b.pending[1..]))
    else
      (b.next, b.(next := b.next + n, extent := b.extent[b.next := n], live := b.live[b.next := n]))
  }

  /** tm2c_shfree: when the count of waiting blocks wraps, all of them are forgotten. */
  function Free(b: Books, x: nat): Books {
    b.(live := b.live - {x}, pending := if |b.pending| == RING - 1 then [] else b.pending + [x])
  }

  /** A block is never handed out while it is in use. */
  lemma AllocIsFresh(b: Books, n: nat)
    requires Sound(b) && n > 0
    ensures var (x, b') := Alloc(b, n); x !in b.live && Sound(b') && b'.live == b.live[x := n]
  {
    if |b.pending| <= 2 {
      assert b.next !in b.extent;
    }
  }

  /** What was handed out fits exactly if it is new or no larger than the waiting block. */
  lemma AllocFitsExactly(b: Books, n: nat)
    requires Sound(b) && n > 0 && Fits(b)
    ensures Fits(Alloc(b, n).1) <==> |b.pending| > 2 ==> n <= b.extent[b.pending[0]]
  {
    if |b.pending| <= 2 {
      assert b.next !in b.extent;
    } else {
      var x := b.pending[0];
      assert x in Alloc(b, n).1.live && Alloc(b, n).1.live[x] == n;
    }
  }

  /** As long as everything fits, no two blocks in use overlap. */
  lemma LiveBlocksAreDisjoint(b: Books, x: nat, y: nat)
    requires Sound(b) && Fits(b) && x in b.live && y in b.live && x < y
    ensures x + b.live[x] <= y
  {
    assert x in b.extent && y in b.extent;
  }

  lemma FreeIsSound(b: Books, x: nat)
    requires Sound(b) && x in b.live
    ensures Sound(Free(b, x)) && (Fits(b) ==> Fits(Free(b, x)))
  {
    var p := Free(b, x).pending;
    assert forall i | 0 <= i < |p| && p[i] != x :: p[i] in b.pending;
  }

  datatype Call = Malloc | Release(addr: nat)

  function Called(b: Books, call: Call, n: nat): Books {
    match call
    case Malloc => Alloc(b, n).1
    case Release(x) => Free(b, x)
  }

  function After(calls: seq<Call>, n: nat): Books {
    if calls == [] then Books(0, map[], map[], [])
    else
      Called(After(calls[..|calls| - 1], n), calls[|calls| - 1], n)
  }

  /** Every block is released while it is in use. */
  ghost predicate Proper(calls: seq<Call>, n: nat) {
    forall k | 0 <= k < |calls| && calls[k].Release? :: calls[k].addr in After(calls[..k], n).live
  }

  /** With blocks of one size, no run of the allocator ever has two blocks in use overlap. */
  lemma {:induction false} UniformRunsAreSafe(calls: seq<Call>, n: nat)
    requires n > 0 && Proper(calls, n)
    ensures Sound(After(calls, n)) && Fits(After(calls, n))
    ensures forall x | x in After(calls, n).extent :: After(calls, n).extent[x] == n
  {
    if calls != [] {
      var before, b := calls[..|calls| - 1], After(calls[..|calls| - 1], n);
      assert forall k | 0 <= k < |before| :: before[..k] == calls[..k] && before[k] == calls[k];
      UniformRunsAreSafe(before, n);
      match calls[|calls| - 1]
      case Malloc =>
        AllocIsFresh(b, n);
        AllocFitsExactly(b, n);
      case Release(x) =>
        assert calls[..|before|] == before;
        FreeIsSound(b, x);
    }
  }

  // ------------------------------------------------------ the order of reuse

  /** The blocks that have been released, in order ... */
  function Released(calls: seq<Call>): seq<nat> {
    if calls == [] then []
    else
      var n := |calls| - 1;
      Released(calls[..n]) + if calls[n].Release? then [calls[n].addr] else []
  }

  /** ... and those that were handed out again: a call that leaves the cursor where it was. */
  function Reused(calls: seq<Call>, n: nat): seq<nat> {
    if calls == [] then []
    else
      var k := |calls| - 1;
      var b := After(calls[..k], n);
      Reused(calls[..k], n) + if calls[k].Malloc? && Alloc(b, n).1.next == b.next then [Alloc(b, n).0] else []
  }

  /** Nothing is released while 255 blocks wait. */
  ghost predicate NeverFull(calls: seq<Call>, n: nat) {
    forall k | 0 <= k < |calls| && calls[k].Release? :: |After(calls[..k], n).pending| < 255
  }

  /** Released blocks come back in the order in which they were released, each once, and as soon as
      three are waiting. */
  lemma {:induction false} ReusedInOrder(calls: seq<Call>, n: nat)
    requires n > 0 && NeverFull(calls, n)
    ensures Released(calls) == Reused(calls, n) + After(calls, n).pending
    ensures var b := After(calls, n); Alloc(b, n).1.next == if |b.pending| >= 3 then b.next else b.next + n
  {
    if calls != [] {
      var k := |calls| - 1;
      var before, b := calls[..k], After(calls[..k], n);
      assert forall i | 0 <= i < k :: before[..i] == calls[..i] && before[i] == calls[i];
      ReusedInOrder(before, n);
      OneReuse(b, calls[k], n);
      var more := if calls[k].Release? then [calls[k].addr] else [];
      var head := if calls[k].Malloc? && Alloc(b, n).1.next == b.next then [Alloc(b, n).0] else [];
      Appended(Released(before), Reused(before, n), b.pending, more, head, After(calls, n).pending);
    }
  }

  lemma OneReuse(b: Books, call: Call, n: nat)
    requires n > 0 && (call.Release? ==> |b.pending| < 255)
    ensures b.pending + (if call.Release? then [call.addr] else []) ==
            (if call.Malloc? && Alloc(b, n).1.next == b.next then [Alloc(b, n).0] else []) + Called(b, call, n).pending
  {
  }

  lemma Appended(l: seq<nat>, r: seq<nat>, p: seq<nat>, more: seq<nat>, head: seq<nat>, p': seq<nat>)
    requires l == r + p && p + more == head + p'
    ensures l + more == r + head + p'
  {
    assert l + more == r + (p + more);
    assert r + head + p' == r + (head + p');
  }

  /** The 256th waiting block makes all of them be forgotten. */
  lemma FullRingForgets(b: Books, x: nat)
    ensures Free(b, x).live == b.live - {x} && Free(b, x).next == b.next
    ensures Free(b, x).pending == if |b.pending| == 255 then [] else b.pending + [x]
  {
  }

  lemma OneCallMore(calls: seq<Call>, call: Call, n: nat)
    requires Proper(calls, n) && (call.Release? ==> call.addr in After(calls, n).live)
    ensures Proper(calls + [call], n) && After(calls + [call], n) == Called(After(calls, n), call, n)
  {
    assert (calls + [call])[..|calls|] == calls;
    forall k | 0 <= k < |calls| ensures (calls + [call])[..k] == calls[..k] && (calls + [call])[k] == calls[k] {
    }
  }

  lemma TwoBlocks()
    ensures Proper([Malloc, Malloc], 8)
    ensures After([Malloc, Malloc], 8) == Books(16, map[0 := 8, 8 := 8], map[0 := 8, 8 := 8], [])
  {
    var none: seq<Call> := [];
    OneCallMore(none, Malloc, 8);
    assert none + [Malloc] == [Malloc];
    OneCallMore([Malloc], Malloc, 8);
    assert [Malloc] + [Malloc] == [Malloc, Malloc];
  }

  lemma FourBlocks()
    ensures Proper([Malloc, Malloc, Malloc, Malloc], 8)
    ensures After([Malloc, Malloc, Malloc, Malloc], 8) ==
            Books(32, map[0 := 8, 8 := 8, 16 := 8, 24 := 8], map[0 := 8, 8 := 8, 16 := 8, 24 := 8], [])
  {
    TwoBlocks();
    OneCallMore([Malloc, Malloc], Malloc, 8);
    assert [Malloc, Malloc] + [Malloc] == [Malloc, Malloc, Malloc];
    OneCallMore([Malloc, Malloc, Malloc], Malloc, 8);
    assert [Malloc, Malloc, Malloc] + [Malloc] == [Malloc, Malloc, Malloc, Malloc];
  }

  /** Four blocks of 8 bytes, three of them freed, then one of 16 asked for: it overlaps the block
      that is still in use. */
  lemma MixedSizesOverlap() returns (calls: seq<Call>, y: nat)
    ensures Proper(calls, 8)
    ensures var (x, b') := Alloc(After(calls, 8), 16); x in b'.live && y in b'.live && x < y < x + b'.live[x]
  {
    FourBlocks();
    var four := [Malloc, Malloc, Malloc, Malloc];
    OneCallMore(four, Release(0), 8);
    OneCallMore(four + [Release(0)], Release(16), 8);
    OneCallMore(four + [Release(0)] + [Release(16)], Release(24), 8);
    calls, y := four + [Release(0)] + [Release(16)] + [Release(24)], 8;
    assert After(calls, 8).pending == [0, 16, 24];
  }

  // ------------------------------------------------------------- the ring

  /** `pending` stands in the `num` places of the ring before place `cur`. */
  ghost predicate InRing(list: seq<nat>, cur: nat, num: nat, pending: seq<nat>) {
    && |list| == RING && cur < RING && num == |pending| < RING
    && forall i | 0 <= i < num :: list[(cur - num + i) % RING] == pending[i]
  }

  /** With eight-bit indices the ring is a queue that empties itself at the 256th element. */
  lemma Push(list: seq<nat>, cur: nat, num: nat, pending: seq<nat>, x: nat)
    requires InRing(list, cur, num, pending)
    ensures InRing(list[cur := x], (cur + 1) % RING, (num + 1) % RING, if num == RING - 1 then [] else pending + [x])
  {
    if num < RING - 1 {
      var list', cur', pending' := list[cur := x], (cur + 1) % RING, pending + [x];
      forall i | 0 <= i < num + 1 ensures list'[(cur' - (num + 1) + i) % RING] == pending'[i] {
        assert (cur' - (num + 1) + i) % RING == (cur - num + i) % RING;
        if i < num {
          assert list[(cur - num + i) % RING] == pending[i];
        }
      }
    }
  }

  lemma Pop(list: seq<nat>, cur: nat, num: nat, pending: seq<nat>)
    requires InRing(list, cur, num, pending) && num > 0
    ensures list[(cur - num) % RING] == pending[0]
    ensures InRing(list, cur, num - 1, pending[1..])
  {
    assert list[(cur - num + 0) % RING] == pending[0];
    forall i | 0 <= i < num - 1 ensures list[(cur - (num - 1) + i) % RING] == pending[1..][i] {
      assert list[(cur - num + (i + 1)) % RING] == pending[i + 1];
    }
  }

  class Heap {
    var next: nat
    var list: array<nat>
    var cur: nat
    var num: nat
    ghost var books: Books

    ghost predicate Valid()
      reads this, list
    {
      list.Length == RING && books.next == next && InRing(list[..], cur, num, books.pending) && Sound(books)
    }

    constructor ()
      ensures Valid() && books == Books(0, map[], map[], []) && fresh(list)
    {
      next, cur, num := 0, 0, 0;
      list := new nat[RING](_ => 0);
      books := Books(0, map[], map[], []);
    }

    method Shmalloc(n: nat) returns (x: nat)
      requires Valid() && n > 0
      modifies `next, `num, `books
      ensures Valid() && (x, books) == Alloc(old(books), n) && x !in old(books).live
    {
      AllocIsFresh(books, n);
      books := Alloc(books, n).1;
      if num > 2 {
        Pop(list[..], cur, num, old(books).pending);
        var spot := (cur - num) % RING;
        x := list[spot];
        num := num - 1;
      } else {
        x := next;
        next := next + n;
      }
    }

    method Shfree(x: nat)
      requires Valid() && x in books.live
      modifies `cur, `num, `books, list
      ensures Valid() && books == Free(old(books), x)
    {
      ghost var ring, c, k, was := list[..], cur, num, books;
      num := (num + 1) % RING;
      list[cur] := x;
      cur := (cur + 1) % RING;
      books := Free(was, x);
      assert list[..] == ring[c := x];
      Freed(ring, c, k, was, x);
    }
  }

  lemma Freed(list: seq<nat>, cur: nat, num: nat, b: Books, x: nat)
    requires InRing(list, cur, num, b.pending) && Sound(b) && x in b.live
    ensures InRing(list[cur := x], (cur + 1) % RING, (num + 1) % RING, Free(b, x).pending)
    ensures Sound(Free(b, x)) && Free(b, x).next == b.next
  {
    Push(list, cur, num, b.pending, x);
    FreeIsSound(b, x);
  }

  // --------------------------------------------------------- transactions

  ghost predicate NoRepeat(l: seq<nat>) { forall i, j | 0 <= i < j < |l| :: l[i] != l[j] }

  ghost function Elems(l: seq<nat>): set<nat> { set x | x in l }

  /** mem_info_t, the shared-memory half: blocks to free on abort and blocks to free on commit. */
  class MemInfo {
    const heap: Heap
    var taken: seq<nat>
    var freed: seq<nat>
    ghost var start: map<nat, nat>     // what was in use when the transaction began

    ghost predicate Valid()
      reads this, heap, heap.list
    {
      && heap.Valid()
      && NoRepeat(taken) && NoRepeat(freed)
      && start.Keys !! Elems(taken)
      && heap.books.live.Keys == start.Keys + Elems(taken)
      && (forall x | x in start :: heap.books.live[x] == start[x])
      && Elems(freed) <= heap.books.live.Keys
    }

    constructor (heap: Heap)
      requires heap.Valid()
      ensures Valid() && this.heap == heap && taken == freed == [] && start == heap.books.live
    {
      this.heap := heap;
      taken, freed, start := [], [], heap.books.live;
    }

    /** stm_shmalloc. */
    method Shmalloc(n: nat) returns (x: nat)
      requires Valid() && n > 0
      modifies `taken, heap`next, heap`num, heap`books
      ensures Valid() && x !in old(heap.books.live) && heap.books.live == old(heap.books.live)[x := n]
      ensures taken == [x] + old(taken)
    {
      x := heap.Shmalloc(n);
      AllocIsFresh(old(heap.books), n);
      taken := [x] + taken;
    }

    /** stm_shfree: a block in use that the transaction has not freed yet. */
    method Shfree(x: nat)
      requires Valid() && x in heap.books.live && x !in freed
      modifies `freed
      ensures Valid() && freed == [x] + old(freed)
    {
      freed := [x] + freed;
    }

    method FreeEach(l: seq<nat>)
      requires heap.Valid() && NoRepeat(l) && Elems(l) <= heap.books.live.Keys
      modifies heap`cur, heap`num, heap`books, heap.list
      ensures heap.Valid() && heap.books.live == old(heap.books.live) - Elems(l)
    {
      var mb := l;
      while mb != []
        invariant heap.Valid() && heap.list == old(heap.list) && NoRepeat(mb) && Elems(mb) <= heap.books.live.Keys
        invariant heap.books.live - Elems(mb) == old(heap.books.live) - Elems(l)
        decreases |mb|
      {
        heap.Shfree(mb[0]);
        assert Elems(mb) == {mb[0]} + Elems(mb[1..]);
        mb := mb[1..];
      }
    }

    /** mem_info_on_commit: what the transaction freed is gone, what it allocated stays. */
    method OnCommit()
      requires Valid()
      modifies `taken, `freed, `start, heap`cur, heap`num, heap`books, heap.list
      ensures Valid() && taken == freed == []
      ensures start == heap.books.live
      ensures heap.books.live.Keys == (old(start).Keys + Elems(old(taken))) - Elems(old(freed))
      ensures forall x | x in heap.books.live :: heap.books.live[x] == old(heap.books.live)[x]
    {
      taken := [];
      FreeEach(freed);
      freed := [];
      start := heap.books.live;
    }

    /** mem_info_on_abort: exactly what was in use before is in use again. */
    method OnAbort()
      requires Valid()
      modifies `taken, `freed, heap`cur, heap`num, heap`books, heap.list
      ensures Valid() && taken == freed == []
      ensures heap.books.live == old(start) && start == old(start)
    {
      FreeEach(taken);
      taken, freed := [], [];
    }
  }
}
