/** Sets of integers as sorted linked lists in transactional memory, one list for each bucket
    of a hash table.  A node is the address of its next pointer, an even number; its value is in
    the cell before.  Transactions lock next pointers only: values are read without a lock, and
    written, like the first next pointer, by plain stores while the node is private.  A node that
    was unlinked may be given new contents and linked again. */
module ListSets {
  import opened Locks
  import opened Protocol
  import opened Invariant
  import opened Serializability
  import opened Runs
  import opened Theorems
  import Attempts

  // --------------------------------------------------------------- lists

  /** The nodes `ns` are linked in that order, end with a null pointer and are strictly sorted. */
  ghost predicate IsList(m: map<int, int>, val: int -> int, ns: seq<int>) {
    && |ns| >= 2
    && (forall i | 0 <= i < |ns| - 1 :: Load(m, ns[i]) == ns[i + 1])
    && Load(m, ns[|ns| - 1]) == 0
    && (forall i, j | 0 <= i < j < |ns| :: val(ns[i]) < val(ns[j]))
  }

  ghost predicate Apart(ns: seq<int>, os: seq<int>) { forall n | n in ns :: n !in os }

  ghost predicate AllEven(ns: seq<int>) { forall n | n in ns :: n % 2 == 0 }

  ghost predicate IsTable(m: map<int, int>, val: int -> int, lists: seq<seq<int>>) {
    && (forall b | 0 <= b < |lists| :: IsList(m, val, lists[b]) && AllEven(lists[b]))
    && (forall b, d | 0 <= b < |lists| && 0 <= d < |lists| && b != d :: Apart(lists[b], lists[d]))
  }

  /** The elements between the two sentinels. */
  ghost function Elements(val: int -> int, ns: seq<int>): set<int> {
    set i | 1 <= i < |ns| - 1 :: val(ns[i])
  }

  ghost predicate Within(val: int -> int, ns: seq<int>, x: int) {
    |ns| >= 2 && val(ns[0]) < x < val(ns[|ns| - 1])
  }

  // ---------------------------------------------------------------- walks

  /** The reads of the search loop: from the head to the first node with a value of `x` or more. */
  ghost predicate IsWalk(seen: seq<Access>, val: int -> int, head: int, x: int) {
    && seen != [] && seen[0].addr == head
    && (forall i | 0 <= i < |seen| - 1 :: val(seen[i].val) < x && seen[i + 1].addr == seen[i].val)
    && val(seen[|seen| - 1].val) >= x
  }

  /** On a list a walk follows the nodes. */
  lemma {:induction false} WalkFollows(m: map<int, int>, val: int -> int, ns: seq<int>, seen: seq<Access>, x: int,
                                       i: nat)
    requires IsList(m, val, ns) && Within(val, ns, x) && ReadsMatch(seen, m) && IsWalk(seen, val, ns[0], x)
             && i < |seen|
    ensures i < |ns| - 1 && seen[i].addr == ns[i] && seen[i].val == ns[i + 1] && val(ns[i]) < x
  {
    if i > 0 {
      WalkFollows(m, val, ns, seen, x, i - 1);
    }
  }

  /** ... and ends between the smaller and the larger ones: that decides membership. */
  lemma WalkEnds(m: map<int, int>, val: int -> int, ns: seq<int>, seen: seq<Access>, x: int) returns (k: nat)
    requires IsList(m, val, ns) && Within(val, ns, x) && ReadsMatch(seen, m) && IsWalk(seen, val, ns[0], x)
    ensures k == |seen| - 1 < |ns| - 1 && seen[k] == Access(ns[k], ns[k + 1])
    ensures val(ns[k]) < x <= val(ns[k + 1])
    ensures x in Elements(val, ns) <==> val(ns[k + 1]) == x
    ensures val(ns[k + 1]) == x ==> k + 2 < |ns|
  {
    k := |seen| - 1;
    WalkFollows(m, val, ns, seen, x, k);
  }

  // -------------------------------------------------------------- updates

  function Linked(ns: seq<int>, k: nat, new_: int): seq<int>
    requires k < |ns|
  {
    ns[..k + 1] + [new_] + ns[k + 1..]
  }

  function Unlinked(ns: seq<int>, k: nat): seq<int>
    requires k + 2 <= |ns|
  {
    ns[..k + 1] + ns[k + 2..]
  }

  lemma ElsewhereIsList(m: map<int, int>, val: int -> int, ns: seq<int>, a: int, v: int)
    requires IsList(m, val, ns) && a !in ns
    ensures IsList(m[a := v], val, ns)
  {
  }

  lemma LinkedAt(ns: seq<int>, k: nat, n: int)
    requires k < |ns|
    ensures |Linked(ns, k, n)| == |ns| + 1
    ensures forall i | 0 <= i <= |ns| ::
              Linked(ns, k, n)[i] == if i <= k then ns[i] else if i == k + 1 then n else ns[i - 1]
  {
  }

  lemma UnlinkedAt(ns: seq<int>, k: nat)
    requires k + 2 <= |ns|
    ensures |Unlinked(ns, k)| == |ns| - 1
    ensures forall i | 0 <= i < |ns| - 1 :: Unlinked(ns, k)[i] == if i <= k then ns[i] else ns[i + 1]
  {
  }

  lemma LinkedIsList(m: map<int, int>, val: int -> int, ns: seq<int>, k: nat, n: int)
    requires IsList(m, val, ns) && k + 1 < |ns| && n !in ns
    requires val(ns[k]) < val(n) < val(ns[k + 1]) && Load(m, n) == ns[k + 1]
    ensures IsList(m[ns[k] := n], val, Linked(ns, k, n))
  {
    var os, m' := Linked(ns, k, n), m[ns[k] := n];
    LinkedAt(ns, k, n);
    forall i | 0 <= i < |os| - 1 ensures Load(m', os[i]) == os[i + 1] {
      if i != k && i != k + 1 {
        assert os[i] != ns[k] by {
          var j := if i < k then i else i - 1;
          assert os[i] == ns[j] && j != k;
        }
      }
    }
    forall i, j | 0 <= i < j < |os| ensures val(os[i]) < val(os[j]) {
      SortedStill(val, ns, k, n, i, j);
    }
  }

  lemma SortedStill(val: int -> int, ns: seq<int>, k: nat, n: int, i: nat, j: nat)
    requires k + 1 < |ns| && (forall i, j | 0 <= i < j < |ns| :: val(ns[i]) < val(ns[j]))
    requires val(ns[k]) < val(n) < val(ns[k + 1]) && i < j <= |ns|
    ensures val(Linked(ns, k, n)[i]) < val(Linked(ns, k, n)[j])
  {
    LinkedAt(ns, k, n);
    if j == k + 1 {
      assert i < k ==> val(ns[i]) < val(ns[k]);
    } else if i == k + 1 {
      assert j - 1 > k + 1 ==> val(ns[k + 1]) < val(ns[j - 1]);
    }
  }

  lemma LinkedElements(val: int -> int, ns: seq<int>, k: nat, n: int)
    requires k + 1 < |ns|
    ensures Elements(val, Linked(ns, k, n)) == Elements(val, ns) + {val(n)}
  {
    var os := Linked(ns, k, n);
    LinkedAt(ns, k, n);
    forall x ensures x in Elements(val, os) <==> x in Elements(val, ns) + {val(n)} {
      if i :| 1 <= i < |ns| - 1 && val(ns[i]) == x {
        assert val(os[if i <= k then i else i + 1]) == x;
      }
      if i :| 1 <= i < |os| - 1 && val(os[i]) == x && i != k + 1 {
        assert val(ns[if i <= k then i else i - 1]) == x;
      }
      assert val(os[k + 1]) == val(n);
    }
  }

  lemma UnlinkedIsList(m: map<int, int>, val: int -> int, ns: seq<int>, k: nat)
    requires IsList(m, val, ns) && k + 2 < |ns|
    ensures IsList(m[ns[k] := ns[k + 2]], val, Unlinked(ns, k))
  {
    var os, m' := Unlinked(ns, k), m[ns[k] := ns[k + 2]];
    UnlinkedAt(ns, k);
    forall i | 0 <= i < |os| - 1 ensures Load(m', os[i]) == os[i + 1] {
      if i != k {
        assert os[i] != ns[k] by {
          var j := if i < k then i else i + 1;
          assert os[i] == ns[j] && j != k;
        }
      }
    }
    forall i, j | 0 <= i < j < |os| ensures val(os[i]) < val(os[j]) {
      assert os[i] == ns[if i <= k then i else i + 1] && os[j] == ns[if j <= k then j else j + 1];
    }
  }

  lemma UnlinkedElements(val: int -> int, ns: seq<int>, k: nat)
    requires k + 2 < |ns| && (forall i, j | 0 <= i < j < |ns| :: val(ns[i]) < val(ns[j]))
    ensures Elements(val, Unlinked(ns, k)) == Elements(val, ns) - {val(ns[k + 1])}
  {
    var os := Unlinked(ns, k);
    UnlinkedAt(ns, k);
    forall x ensures x in Elements(val, os) <==> x in Elements(val, ns) - {val(ns[k + 1])} {
      if i :| 1 <= i < |ns| - 1 && val(ns[i]) == x && i != k + 1 {
        assert val(os[if i <= k then i else i - 1]) == x;
      }
      if i :| 1 <= i < |os| - 1 && val(os[i]) == x {
        assert val(ns[if i <= k then i else i + 1]) == x;
      }
    }
  }

  ghost predicate Unused(lists: seq<seq<int>>, n: int) { forall b | 0 <= b < |lists| :: n !in lists[b] }

  lemma LinkedIsTable(m: map<int, int>, val: int -> int, lists: seq<seq<int>>, b: nat, k: nat, n: int)
    requires IsTable(m, val, lists) && b < |lists| && k + 1 < |lists[b]| && Unused(lists, n) && n % 2 == 0
    requires val(lists[b][k]) < val(n) < val(lists[b][k + 1]) && Load(m, n) == lists[b][k + 1]
    ensures IsTable(m[lists[b][k] := n], val, lists[b := Linked(lists[b], k, n)])
    ensures Elements(val, Linked(lists[b], k, n)) == Elements(val, lists[b]) + {val(n)}
  {
    LinkedIsList(m, val, lists[b], k, n);
    LinkedElements(val, lists[b], k, n);
    var lists' := lists[b := Linked(lists[b], k, n)];
    forall d | 0 <= d < |lists| && d != b ensures IsList(m[lists[b][k] := n], val, lists[d]) {
      assert Apart(lists[b], lists[d]);
      ElsewhereIsList(m, val, lists[d], lists[b][k], n);
    }
    assert forall i | i in Linked(lists[b], k, n) :: i == n || i in lists[b];
    forall c, d | 0 <= c < |lists| && 0 <= d < |lists| && c != d
      ensures Apart(lists'[c], lists'[d])
    {
      assert Apart(lists[c], lists[d]);
    }
  }

  lemma UnlinkedIsTable(m: map<int, int>, val: int -> int, lists: seq<seq<int>>, b: nat, k: nat)
    requires IsTable(m, val, lists) && b < |lists| && k + 2 < |lists[b]|
    ensures IsTable(m[lists[b][k] := lists[b][k + 2]], val, lists[b := Unlinked(lists[b], k)])
    ensures Elements(val, Unlinked(lists[b], k)) == Elements(val, lists[b]) - {val(lists[b][k + 1])}
  {
    UnlinkedIsList(m, val, lists[b], k);
    UnlinkedElements(val, lists[b], k);
    var lists' := lists[b := Unlinked(lists[b], k)];
    forall d | 0 <= d < |lists| && d != b ensures IsList(m[lists[b][k] := lists[b][k + 2]], val, lists[d]) {
      assert Apart(lists[b], lists[d]);
      ElsewhereIsList(m, val, lists[d], lists[b][k], lists[b][k + 2]);
    }
    assert forall i | i in Unlinked(lists[b], k) :: i in lists[b];
    forall c, d | 0 <= c < |lists| && 0 <= d < |lists| && c != d
      ensures Apart(lists'[c], lists'[d])
    {
      assert Apart(lists[c], lists[d]);
    }
  }

  // ------------------------------------------------------------- values

  /** The values of the nodes in memory `m`. */
  function Vals(m: map<int, int>): int -> int { (n: int) => Load(m, n - 1) }

  /** A search: the walk, and the values it looked at without locking them. */
  ghost predicate IsSearch(walk: seq<Access>, looks: seq<Access>, head: int, x: int) {
    && walk != [] && |looks| == |walk| && walk[0].addr == head
    && (forall i | 0 <= i < |walk| :: looks[i].addr == walk[i].val - 1)
    && (forall i | 0 <= i < |walk| - 1 :: looks[i].val < x && walk[i + 1].addr == walk[i].val)
    && looks[|looks| - 1].val >= x
  }

  /** If the values were those in memory, it is a walk over the list. */
  lemma SearchIsWalk(m: map<int, int>, walk: seq<Access>, looks: seq<Access>, head: int, x: int)
    requires IsSearch(walk, looks, head, x) && ReadsMatch(looks, m)
    ensures IsWalk(walk, Vals(m), head, x) && Vals(m)(Next(walk)) == Seen(looks)
  {
    forall i | 0 <= i < |walk| ensures Vals(m)(walk[i].val) == looks[i].val {
      assert looks[i].val == Load(m, looks[i].addr);
    }
  }

  // ----------------------------------------------------------- operations

  const VAL_MIN: int := -0x8000_0000
  const VAL_MAX: int := 0x7FFF_FFFF

  /** The bucket of a value: the table length is unsigned. */
  function Hash(x: int, n: nat): nat
    requires n > 0
  {
    (x % 0x1_0000_0000) % n
  }

  /** A negative value is taken as the unsigned number with the same bits. */
  lemma HashIsUnsigned(x: int, n: nat)
    requires n > 0 && -0x8000_0000 <= x < 0x8000_0000
    ensures Hash(x, n) == (if x < 0 then x + 4294967296 else x) % n < n
  {
  }

  datatype Op =
    | Contains(b: nat, x: int)
    | Add(b: nat, x: int, node: int)
    | Remove(b: nat, x: int)
    | Move(b: nat, x: int, d: nat, y: int, node: int)
    | MoveNaive(b: nat, x: int, d: nat, y: int, node: int)

  predicate Moves(op: Op) { op.Move? || op.MoveNaive? }

  /** What an operation on sets returns ... */
  ghost function Result(sets: seq<set<int>>, op: Op): int
    requires Fit(op, |sets|)
  {
    match op
    case Contains(b, x) => if x in sets[b] then 1 else 0
    case Add(b, x, _) => if x in sets[b] then 0 else 1
    case Remove(b, x) => if x in sets[b] then 1 else 0
    case Move(b, x, d, y, _) => if x in sets[b] && y !in sets[d] then 1 else 0
    case MoveNaive(b, x, d, y, _) => if x !in sets[b] then 0 else if y in sets[d] then 2 else 1
  }

  /** ... and does to them. */
  ghost function Effect(sets: seq<set<int>>, op: Op): seq<set<int>>
    requires Fit(op, |sets|)
  {
    match op
    case Contains(_, _) => sets
    case Add(b, x, _) => sets[b := sets[b] + {x}]
    case Remove(b, x) => sets[b := sets[b] - {x}]
    case Move(b, x, d, y, _) =>
      if x in sets[b] && y !in sets[d] then sets[b := sets[b] - {x}][d := sets[d] + {y}] else sets
    case MoveNaive(b, x, d, y, _) =>
      if x in sets[b] then sets[b := sets[b] - {x}][d := sets[d] + {y}] else sets
  }

  /** An operation answers 1 exactly if it has changed the sets as it was asked to, and 0 if it has
      changed nothing; contains answers 1 exactly if the value is there.  The naive move answers 2 if
      it has removed the value but not added the other. */
  lemma AnswersExactly(sets: seq<set<int>>, op: Op)
    requires Fit(op, |sets|)
    ensures var r, after := Result(sets, op), Effect(sets, op);
            match op
            case Contains(b, x) => after == sets && (r == 1 <==> x in sets[b]) && (r == 0 <==> x !in sets[b])
            case Add(b, x, _) => x in after[b] && (r == 1 <==> after != sets) && (r == 0 <==> after == sets)
            case Remove(b, x) => x !in after[b] && (r == 1 <==> after != sets) && (r == 0 <==> after == sets)
            case Move(b, x, d, y, _) =>
              (r == 1 <==> after != sets) && (r == 0 <==> after == sets) && (r == 1 ==> x !in after[b] && y in after[d])
            case MoveNaive(b, x, d, y, _) =>
              && (r == 0 <==> after == sets) && (r != 0 ==> x !in after[b] && y in after[d])
              && (r == 1 <==> after[d] != sets[d]) && (r == 2 <==> after != sets && after[d] == sets[d])
  {
    var after := Effect(sets, op);
    if !op.Contains? {
      assert after == sets ==> after[op.b] == sets[op.b];
    }
    if Moves(op) {
      assert after == sets ==> after[op.d] == sets[op.d];
    }
    SameBuckets(sets, op);
  }

  lemma SameBuckets(sets: seq<set<int>>, op: Op)
    requires Fit(op, |sets|)
    ensures op.Add? && op.x in sets[op.b] ==> Effect(sets, op) == sets
    ensures op.Remove? && op.x !in sets[op.b] ==> Effect(sets, op) == sets
  {
    assert op.x in sets[op.b] ==> sets[op.b] + {op.x} == sets[op.b];
    assert op.x !in sets[op.b] ==> sets[op.b] - {op.x} == sets[op.b];
  }

  /** The values lie between those of the sentinels and belong to the buckets; a move goes to
      another bucket. */
  predicate Fit(op: Op, n: nat) {
    && n > 0 && op.b == Hash(op.x, n) && VAL_MIN < op.x < VAL_MAX
    && (Moves(op) ==> op.d == Hash(op.y, n) != op.b && VAL_MIN < op.y < VAL_MAX)
  }

  /** A committed attempt of an operation: its result, the walks it made, and the values it saw. */
  datatype Attempt = Attempt(op: Op, result: int, walk: seq<Access>, looks: seq<Access>,
                             second: seq<Access>, looks2: seq<Access>)

  function Prev(walk: seq<Access>): int requires walk != [] { walk[|walk| - 1].addr }

  function Next(walk: seq<Access>): int requires walk != [] { walk[|walk| - 1].val }

  function Seen(looks: seq<Access>): int requires looks != [] { looks[|looks| - 1].val }

  /** The attempt took the branches of the source and committed as `t`. */
  ghost predicate Ran(t: Commit, a: Attempt, heads: seq<int>)
    requires Fit(a.op, |heads|)
  {
    && !t.plain && IsSearch(a.walk, a.looks, heads[a.op.b], a.op.x)
    && var found := Seen(a.looks) == a.op.x;
    && (if found && Moves(a.op) then
          IsSearch(a.second, a.looks2, heads[a.op.d], a.op.y) && t.peeked == a.looks + a.looks2
        else
          t.peeked == a.looks)
    && match a.op
    case Contains(_, _) =>
      t.seen == a.walk && t.ws == [] && a.result == if found then 1 else 0
    case Add(_, _, node) =>
      && t.seen == a.walk
      && t.ws == (if found then [] else [Access(Prev(a.walk), node)])
      && a.result == if found then 0 else 1
    case Remove(_, _) =>
      if found then
        exists nxt ::
          t.seen == a.walk + [Access(Next(a.walk), nxt)] && t.ws == [Access(Prev(a.walk), nxt)] && a.result == 1
      else
        t.seen == a.walk && t.ws == [] && a.result == 0
    case Move(_, _, _, y, node) =>
      if !found then
        t.seen == a.walk && t.ws == [] && a.result == 0
      else if Seen(a.looks2) != y && Prev(a.second) != Prev(a.walk) && Prev(a.second) != Next(a.walk) then
        exists nxt ::
          && t.seen == a.walk + a.second + [Access(Next(a.walk), nxt)]
          && t.ws == [Access(Prev(a.walk), nxt), Access(Prev(a.second), node)]
          && a.result == 1
      else
        t.seen == a.walk + a.second && t.ws == [] && a.result == 0
    case MoveNaive(_, _, _, y, node) =>
      if !found then
        t.seen == a.walk && t.ws == [] && a.result == 0
      else
        exists nxt ::
          && t.seen == a.walk + [Access(Next(a.walk), nxt)] + a.second
          && t.ws == [Access(Prev(a.walk), nxt)] +
                     (if Seen(a.looks2) != y then [Access(Prev(a.second), node)] else [])
          && a.result == if Seen(a.looks2) != y then 1 else 2
  }

  // ---------------------------------------------------- transaction bodies

  /** The loop that both moves start with: the target goes to another bucket. */
  method MoveTarget(x: nat, y: nat, n: nat, range: nat) returns (target: nat)
    requires n >= 2 && range >= 2 && y < range <= VAL_MAX
    ensures target < range && Hash(target, n) != Hash(x, n)
    ensures Hash(y, n) != Hash(x, n) ==> target == y
  {
    target := y;
    ghost var left := 2;
    while Hash(x, n) == Hash(target, n)
      invariant target < range && (left == 2 ==> target == y) && (left < 2 ==> Hash(x, n) == Hash(y, n))
      invariant 0 <= left <= 2
      invariant left == 1 ==> target == 0 || Hash(x, n) != Hash(target, n)
      invariant left == 0 ==> Hash(x, n) != Hash(target, n)
      decreases left
    {
      NextTarget(target, n, range);
      target := (target + 1) % range;
      left := left - 1;
    }
  }

  lemma NextTarget(y: nat, n: nat, range: nat)
    requires n >= 2 && range >= 2 && y < range <= VAL_MAX
    ensures var z := (y + 1) % range;
            if y + 1 < range then z == y + 1 && Hash(z, n) != Hash(y, n) else z == 0
  {
    if y + 1 < range {
      Remainder(range, 0, y + 1);
      NextHash(y, n);
    } else {
      Remainder(range, 1, 0);
    }
  }

  lemma NextHash(y: nat, n: nat)
    requires n >= 2 && y + 1 < 0x1_0000_0000
    ensures Hash(y + 1, n) != Hash(y, n)
  {
    SmallHash(y, n);
    SmallHash(y + 1, n);
    NextRemainder(y, n);
  }

  lemma SmallHash(y: nat, n: nat)
    requires n > 0 && y < 0x1_0000_0000
    ensures Hash(y, n) == y % n
  {
  }

  lemma NextRemainder(y: nat, n: nat)
    requires n >= 2
    ensures (y + 1) % n != y % n
  {
    var q, r := y / n, y % n;
    if r + 1 < n {
      Remainder(n, q, r + 1);
    } else {
      assert (q + 1) * n == q * n + n;
      Remainder(n, q + 1, 0);
    }
  }

  lemma Remainder(n: nat, q: int, r: int)
    requires 0 <= r < n
    ensures (q * n + r) % n == r
  {
    SameRemainder(n, (q * n + r) / n, (q * n + r) % n, q, r);
  }

  lemma SameRemainder(n: nat, p: int, s: int, q: int, r: int)
    requires 0 <= r < n && 0 <= s < n && p * n + s == q * n + r
    ensures s == r
  {
    assert (p - q) * n == p * n - q * n;
    if p > q {
      AtLeast(p - q, n);
    } else if p < q {
      assert (q - p) * n == q * n - p * n;
      AtLeast(q - p, n);
    }
  }

  lemma AtLeast(k: nat, n: nat)
    requires k > 0
    ensures k * n >= n
  {
    assert k * n == (k - 1) * n + n;
  }

  /** The search loop of all operations. */
  method Search(m: map<int, int>, head: int, x: int, ghost ns: seq<int>)
    returns (walk: seq<Access>, looks: seq<Access>)
    requires IsList(m, Vals(m), ns) && Within(Vals(m), ns, x) && ns[0] == head
    ensures IsSearch(walk, looks, head, x) && ReadsMatch(walk, m) && ReadsMatch(looks, m)
  {
    var prev, next := head, Load(m, head);
    var v := Load(m, next - 1);
    walk, looks := [Access(prev, next)], [Access(next - 1, v)];
    ghost var i := 0;
    while v < x
      invariant 0 <= i < |ns| - 1 && prev == ns[i] && next == ns[i + 1] && v == Vals(m)(next)
      invariant walk != [] && walk[0].addr == head && walk[|walk| - 1] == Access(prev, next) && ReadsMatch(walk, m)
      invariant |looks| == |walk| && looks[|looks| - 1].val == v && ReadsMatch(looks, m)
      invariant forall j | 0 <= j < |walk| :: looks[j].addr == walk[j].val - 1
      invariant forall j | 0 <= j < |walk| - 1 :: looks[j].val < x && walk[j + 1].addr == walk[j].val
      decreases |ns| - i
    {
      prev := next;
      next := Load(m, prev);
      v := Load(m, next - 1);
      walk, looks := walk + [Access(prev, next)], looks + [Access(next - 1, v)];
      i := i + 1;
    }
  }

  /** set_add, run on memory `m` up to its commit. */
  method SetAdd(m: map<int, int>, heads: seq<int>, self: nat, x: int, node: int, ghost ns: seq<int>)
    returns (t: Commit, a: Attempt)
    requires |heads| > 0 && VAL_MIN < x < VAL_MAX && IsBucket(m, heads, x, ns)
    ensures a.op == Add(Hash(x, |heads|), x, node) && Ran(t, a, heads) && ReadsMatch(t.seen, m) && ReadsMatch(t.peeked, m)
  {
    var b := Hash(x, |heads|);
    var walk, looks := Search(m, heads[b], x, ns);
    var result := if Seen(looks) != x then 1 else 0;
    var ws := [];
    if result == 1 {
      ws := [Access(Prev(walk), node)];
    }
    t, a := Commit(self, false, walk, looks, ws), Attempt(Add(b, x, node), result, walk, looks, [], []);
  }

  /** `ns` is the list of the bucket of `x`. */
  ghost predicate IsBucket(m: map<int, int>, heads: seq<int>, x: int, ns: seq<int>)
    requires |heads| > 0
  {
    IsList(m, Vals(m), ns) && Within(Vals(m), ns, x) && ns[0] == heads[Hash(x, |heads|)]
  }

  /** set_remove. */
  method SetRemove(m: map<int, int>, heads: seq<int>, self: nat, x: int, ghost ns: seq<int>)
    returns (t: Commit, a: Attempt)
    requires |heads| > 0 && VAL_MIN < x < VAL_MAX && IsBucket(m, heads, x, ns)
    ensures a.op == Remove(Hash(x, |heads|), x) && Ran(t, a, heads) && ReadsMatch(t.seen, m) && ReadsMatch(t.peeked, m)
  {
    var b := Hash(x, |heads|);
    var walk, looks := Search(m, heads[b], x, ns);
    var prev, next := Prev(walk), Next(walk);
    var result := if Seen(looks) == x then 1 else 0;
    var seen, ws := walk, [];
    if result == 1 {
      var nxt := Load(m, next);
      seen, ws := walk + [Access(next, nxt)], [Access(prev, nxt)];
    }
    t, a := Commit(self, false, seen, looks, ws), Attempt(Remove(b, x), result, walk, looks, [], []);
  }

  /** ht_move: both searches first, then both updates. */
  method HtMove(m: map<int, int>, heads: seq<int>, self: nat, x: int, y: int, node: int,
                ghost ns: seq<int>, ghost os: seq<int>)
    returns (t: Commit, a: Attempt)
    requires |heads| > 0 && VAL_MIN < x < VAL_MAX && VAL_MIN < y < VAL_MAX
    requires Hash(x, |heads|) != Hash(y, |heads|) && IsBucket(m, heads, x, ns) && IsBucket(m, heads, y, os)
    ensures a.op == Move(Hash(x, |heads|), x, Hash(y, |heads|), y, node)
    ensures Ran(t, a, heads) && ReadsMatch(t.seen, m) && ReadsMatch(t.peeked, m)
  {
    var b, d := Hash(x, |heads|), Hash(y, |heads|);
    var walk, looks := Search(m, heads[b], x, ns);
    var prev1, next1 := Prev(walk), Next(walk);
    var result, second, looks2, seen, ws := 0, [], [], walk, [];
    if Seen(looks) == x {
      second, looks2 := Search(m, heads[d], y, os);
      var prev := Prev(second);
      seen := walk + second;
      if Seen(looks2) != y && prev != prev1 && prev != next1 {
        result := 1;
        var nxt1 := Load(m, next1);
        seen := walk + second + [Access(next1, nxt1)];
        ws := [Access(prev1, nxt1), Access(prev, node)];
      }
    }
    t, a := Commit(self, false, seen, looks + looks2, ws), Attempt(Move(b, x, d, y, node), result, walk, looks, second,
                                                                   looks2);
  }

  /** ht_move_naive: remove, then search and insert. */
  method HtMoveNaive(m: map<int, int>, heads: seq<int>, self: nat, x: int, y: int, node: int,
                     ghost ns: seq<int>, ghost os: seq<int>)
    returns (t: Commit, a: Attempt)
    requires |heads| > 0 && VAL_MIN < x < VAL_MAX && VAL_MIN < y < VAL_MAX
    requires Hash(x, |heads|) != Hash(y, |heads|) && IsBucket(m, heads, x, ns) && IsBucket(m, heads, y, os)
    ensures a.op == MoveNaive(Hash(x, |heads|), x, Hash(y, |heads|), y, node)
    ensures Ran(t, a, heads) && ReadsMatch(t.seen, m) && ReadsMatch(t.peeked, m)
  {
    var b, d := Hash(x, |heads|), Hash(y, |heads|);
    var walk, looks := Search(m, heads[b], x, ns);
    var prev, next := Prev(walk), Next(walk);
    var result, second, looks2, seen, ws := 0, [], [], walk, [];
    if Seen(looks) == x {
      result := 2;
      var nxt := Load(m, next);
      ws := [Access(prev, nxt)];
      second, looks2 := Search(m, heads[d], y, os);
      seen := walk + [Access(next, nxt)] + second;
      if Seen(looks2) != y {
        ws := ws + [Access(Prev(second), node)];
        result := 1;
      }
    }
    t, a := Commit(self, false, seen, looks + looks2, ws), Attempt(MoveNaive(b, x, d, y, node), result, walk, looks,
                                                                   second, looks2);
  }

  // --------------------------------------------------------- one operation

  /** The table `lists` in memory `m` stands for `sets`, between the sentinels. */
  ghost predicate Stands(m: map<int, int>, val: int -> int, lists: seq<seq<int>>, heads: seq<int>,
                         sets: seq<set<int>>)
  {
    && IsTable(m, val, lists) && |lists| == |heads| == |sets|
    && forall b | 0 <= b < |lists| ::
         && lists[b][0] == heads[b] && val(heads[b]) == VAL_MIN && val(lists[b][|lists[b]| - 1]) == VAL_MAX
         && Elements(val, lists[b]) == sets[b]
  }

  /** The operation links its node. */
  predicate Links(a: Attempt) { (a.op.Add? || Moves(a.op)) && a.result == 1 }

  /** What new_node makes of the node by plain stores while it is private. */
  ghost predicate Ready(m: map<int, int>, lists: seq<seq<int>>, a: Attempt) {
    Links(a) ==>
      && a.op.node % 2 == 0 && Unused(lists, a.op.node)
      && Load(m, a.op.node - 1) == (if a.op.Add? then a.op.x else a.op.y)
      && (a.op.Add? && a.walk != [] ==> Load(m, a.op.node) == Next(a.walk))
      && (Moves(a.op) && a.second != [] ==> Load(m, a.op.node) == Next(a.second))
  }

  lemma WalkStands(m: map<int, int>, lists: seq<seq<int>>, heads: seq<int>, sets: seq<set<int>>, b: nat,
                   walk: seq<Access>, looks: seq<Access>, x: int) returns (k: nat)
    requires Stands(m, Vals(m), lists, heads, sets) && b < |lists| && VAL_MIN < x < VAL_MAX
    requires ReadsMatch(walk, m) && ReadsMatch(looks, m) && IsSearch(walk, looks, heads[b], x)
    ensures k + 1 < |lists[b]| && Prev(walk) == lists[b][k] && Next(walk) == lists[b][k + 1]
    ensures Vals(m)(lists[b][k]) < x <= Vals(m)(lists[b][k + 1]) == Seen(looks)
    ensures x in sets[b] <==> Seen(looks) == x
    ensures Seen(looks) == x ==> k + 2 < |lists[b]|
  {
    SearchIsWalk(m, walk, looks, heads[b], x);
    k := WalkEnds(m, Vals(m), lists[b], walk, x);
  }

  lemma LinkStands(m: map<int, int>, val: int -> int, lists: seq<seq<int>>, heads: seq<int>, sets: seq<set<int>>,
                   b: nat, k: nat, n: int)
    requires Stands(m, val, lists, heads, sets) && b < |lists| && k + 1 < |lists[b]| && Unused(lists, n) && n % 2 == 0
    requires val(lists[b][k]) < val(n) < val(lists[b][k + 1]) && Load(m, n) == lists[b][k + 1]
    ensures Stands(m[lists[b][k] := n], val, lists[b := Linked(lists[b], k, n)], heads, sets[b := sets[b] + {val(n)}])
  {
    LinkedIsTable(m, val, lists, b, k, n);
    LinkedAt(lists[b], k, n);
  }

  lemma UnlinkStands(m: map<int, int>, val: int -> int, lists: seq<seq<int>>, heads: seq<int>, sets: seq<set<int>>,
                     b: nat, k: nat)
    requires Stands(m, val, lists, heads, sets) && b < |lists| && k + 2 < |lists[b]|
    ensures Stands(m[lists[b][k] := lists[b][k + 2]], val, lists[b := Unlinked(lists[b], k)], heads,
                   sets[b := sets[b] - {val(lists[b][k + 1])}])
  {
    UnlinkedIsTable(m, val, lists, b, k);
    UnlinkedAt(lists[b], k);
  }

  lemma StoreOne(m: map<int, int>, a: Access)
    ensures Store(m, [a]) == m[a.addr := a.val]
  {
    assert [a][..0] == [];
  }

  lemma StoreTwo(m: map<int, int>, a: Access, b: Access)
    ensures Store(m, [a, b]) == m[a.addr := a.val][b.addr := b.val]
  {
    assert [a, b][..1] == [a];
    StoreOne(m, a);
  }

  /** Memory, lists and sets before an attempt that committed as `t`. */
  ghost predicate Before(m: map<int, int>, lists: seq<seq<int>>, heads: seq<int>, sets: seq<set<int>>, t: Commit,
                         a: Attempt)
  {
    && Stands(m, Vals(m), lists, heads, sets) && ReadsMatch(t.seen, m) && ReadsMatch(t.peeked, m)
    && Fit(a.op, |lists|) && Ran(t, a, heads) && Ready(m, lists, a)
  }

  /** ... and after it: the values are those of before. */
  ghost predicate After(m: map<int, int>, lists': seq<seq<int>>, heads: seq<int>, sets: seq<set<int>>, t: Commit,
                        a: Attempt)
    requires Fit(a.op, |sets|)
  {
    Stands(Store(m, t.ws), Vals(m), lists', heads, Effect(sets, a.op)) && a.result == Result(sets, a.op)
  }

  lemma FirstReads(walk: seq<Access>, rest: seq<Access>, m: map<int, int>)
    requires ReadsMatch(walk + rest, m)
    ensures ReadsMatch(walk, m) && ReadsMatch(rest, m)
  {
    assert forall i | 0 <= i < |walk| :: (walk + rest)[i] == walk[i];
    assert forall i | 0 <= i < |rest| :: (walk + rest)[|walk| + i] == rest[i];
  }

  lemma Added(m: map<int, int>, lists: seq<seq<int>>, heads: seq<int>, sets: seq<set<int>>, t: Commit, a: Attempt)
    returns (lists': seq<seq<int>>)
    requires Before(m, lists, heads, sets, t, a) && a.op.Add?
    ensures After(m, lists', heads, sets, t, a)
  {
    var b := a.op.b;
    var k := WalkStands(m, lists, heads, sets, b, a.walk, a.looks, a.op.x);
    lists' := lists;
    if a.op.x in sets[b] {
      assert sets[b] + {a.op.x} == sets[b] && sets[b := sets[b]] == sets;
    } else {
      LinkStands(m, Vals(m), lists, heads, sets, b, k, a.op.node);
      StoreOne(m, Access(lists[b][k], a.op.node));
      lists' := lists[b := Linked(lists[b], k, a.op.node)];
    }
  }

  lemma Removed(m: map<int, int>, lists: seq<seq<int>>, heads: seq<int>, sets: seq<set<int>>, t: Commit, a: Attempt)
    returns (lists': seq<seq<int>>)
    requires Before(m, lists, heads, sets, t, a) && a.op.Remove?
    ensures After(m, lists', heads, sets, t, a)
  {
    var b := a.op.b;
    WalksMatch(m, t, a, heads);
    var k := WalkStands(m, lists, heads, sets, b, a.walk, a.looks, a.op.x);
    lists' := lists;
    if a.op.x in sets[b] {
      assert t.seen[|a.walk|].addr == lists[b][k + 1];
      lists' := Cut(m, lists, heads, sets, b, k);
    } else {
      assert sets[b] - {a.op.x} == sets[b] && sets[b := sets[b]] == sets;
    }
  }

  /** One node out of a list: one store. */
  lemma Cut(m: map<int, int>, lists: seq<seq<int>>, heads: seq<int>, sets: seq<set<int>>, b: nat, k: nat)
    returns (lists': seq<seq<int>>)
    requires Stands(m, Vals(m), lists, heads, sets) && b < |lists| && k + 2 < |lists[b]|
    ensures Stands(Store(m, [Access(lists[b][k], lists[b][k + 2])]), Vals(m), lists', heads,
                   sets[b := sets[b] - {Vals(m)(lists[b][k + 1])}])
  {
    UnlinkStands(m, Vals(m), lists, heads, sets, b, k);
    StoreOne(m, Access(lists[b][k], lists[b][k + 2]));
    lists' := lists[b := Unlinked(lists[b], k)];
  }

  /** One node out of one list, a new one into another. */
  lemma Relinked(m: map<int, int>, lists: seq<seq<int>>, heads: seq<int>, sets: seq<set<int>>, b: nat, k: nat,
                 d: nat, j: nat, n: int) returns (lists': seq<seq<int>>)
    requires Stands(m, Vals(m), lists, heads, sets) && b < |lists| && d < |lists| && b != d
    requires k + 2 < |lists[b]| && j + 1 < |lists[d]| && Unused(lists, n) && n % 2 == 0
    requires Vals(m)(lists[d][j]) < Vals(m)(n) < Vals(m)(lists[d][j + 1]) && Load(m, n) == lists[d][j + 1]
    ensures Stands(m[lists[b][k] := lists[b][k + 2]][lists[d][j] := n], Vals(m), lists', heads,
                   sets[b := sets[b] - {Vals(m)(lists[b][k + 1])}][d := sets[d] + {Vals(m)(n)}])
  {
    UnlinkStands(m, Vals(m), lists, heads, sets, b, k);
    var mid := lists[b := Unlinked(lists[b], k)];
    assert forall i | i in Unlinked(lists[b], k) :: i in lists[b];
    assert n != lists[b][k] by {
      assert lists[b][k] in lists[b];
    }
    LinkStands(m[lists[b][k] := lists[b][k + 2]], Vals(m), mid, heads,
               sets[b := sets[b] - {Vals(m)(lists[b][k + 1])}], d, j, n);
    lists' := mid[d := Linked(mid[d], j, n)];
  }

  lemma NeverShared(lists: seq<seq<int>>, b: nat, i: nat, d: nat, j: nat)
    requires b < |lists| && i < |lists[b]| && d < |lists| && j < |lists[d]| && Apart(lists[b], lists[d])
    ensures lists[b][i] != lists[d][j]
  {
    assert lists[b][i] in lists[b];
  }

  /** The reads of an attempt, walk by walk. */
  lemma WalksMatch(m: map<int, int>, t: Commit, a: Attempt, heads: seq<int>)
    requires ReadsMatch(t.seen, m) && ReadsMatch(t.peeked, m) && Fit(a.op, |heads|) && Ran(t, a, heads)
    ensures ReadsMatch(a.walk, m) && ReadsMatch(a.looks, m)
    ensures Moves(a.op) && Seen(a.looks) == a.op.x ==> ReadsMatch(a.second, m) && ReadsMatch(a.looks2, m)
  {
    var n := |a.walk|;
    assert t.seen == a.walk + t.seen[n..] && t.peeked == a.looks + t.peeked[n..];
    FirstReads(a.walk, t.seen[n..], m);
    FirstReads(a.looks, t.peeked[n..], m);
    if Moves(a.op) && Seen(a.looks) == a.op.x {
      assert t.peeked[n..] == a.looks2;
      SecondMatches(m, t, a, heads);
    }
  }

  lemma SecondMatches(m: map<int, int>, t: Commit, a: Attempt, heads: seq<int>)
    requires ReadsMatch(t.seen, m) && Fit(a.op, |heads|) && Ran(t, a, heads)
    requires Moves(a.op) && Seen(a.looks) == a.op.x
    ensures ReadsMatch(a.second, m)
  {
    var l := |a.walk| + if a.op.Move? then 0 else 1;
    assert t.seen[l..l + |a.second|] == a.second;
    assert forall i | 0 <= i < |a.second| :: t.seen[l + i] == a.second[i];
  }

  lemma Moved(m: map<int, int>, lists: seq<seq<int>>, heads: seq<int>, sets: seq<set<int>>, t: Commit, a: Attempt)
    returns (lists': seq<seq<int>>)
    requires Before(m, lists, heads, sets, t, a) && a.op.Move?
    ensures After(m, lists', heads, sets, t, a)
  {
    var op := a.op;
    WalksMatch(m, t, a, heads);
    var k := WalkStands(m, lists, heads, sets, op.b, a.walk, a.looks, op.x);
    lists' := lists;
    if op.x in sets[op.b] {
      var j := WalkStands(m, lists, heads, sets, op.d, a.second, a.looks2, op.y);
      NeverShared(lists, op.b, k, op.d, j);
      NeverShared(lists, op.b, k + 1, op.d, j);
      if op.y !in sets[op.d] {
        assert t.seen[|a.walk| + |a.second|] == Access(Next(a.walk), lists[op.b][k + 2]);
        StoreTwo(m, t.ws[0], t.ws[1]);
        lists' := Relinked(m, lists, heads, sets, op.b, k, op.d, j, op.node);
      }
    }
  }

  /** The naive move stores first what makes its removal. */
  lemma NaiveCut(m: map<int, int>, t: Commit, a: Attempt, heads: seq<int>)
    requires ReadsMatch(t.seen, m) && Fit(a.op, |heads|) && Ran(t, a, heads)
    requires a.op.MoveNaive? && Seen(a.looks) == a.op.x
    ensures t.ws == [Access(Prev(a.walk), Load(m, Next(a.walk)))] +
                    (if Seen(a.looks2) != a.op.y then [Access(Prev(a.second), a.op.node)] else [])
  {
    assert t.seen[|a.walk|].addr == Next(a.walk);
  }

  /** What it makes of the table, once its node was found at `k + 1` in one list and the place for
      the new one after `j` in the other. */
  lemma NaiveEffect(m: map<int, int>, lists: seq<seq<int>>, heads: seq<int>, sets: seq<set<int>>, op: Op, k: nat,
                    j: nat, ws: seq<Access>) returns (lists': seq<seq<int>>)
    requires Stands(m, Vals(m), lists, heads, sets) && Fit(op, |sets|) && op.MoveNaive? && op.x in sets[op.b]
    requires k + 2 < |lists[op.b]| && Vals(m)(lists[op.b][k + 1]) == op.x && j + 1 < |lists[op.d]|
    requires op.y in sets[op.d] ==> ws == [Access(lists[op.b][k], lists[op.b][k + 2])]
    requires op.y !in sets[op.d] ==>
               && ws == [Access(lists[op.b][k], lists[op.b][k + 2]), Access(lists[op.d][j], op.node)]
               && Vals(m)(lists[op.d][j]) < op.y < Vals(m)(lists[op.d][j + 1]) && Vals(m)(op.node) == op.y
               && Load(m, op.node) == lists[op.d][j + 1] && Unused(lists, op.node) && op.node % 2 == 0
    ensures Stands(Store(m, ws), Vals(m), lists', heads, Effect(sets, op))
  {
    if op.y in sets[op.d] {
      lists' := Cut(m, lists, heads, sets, op.b, k);
      assert sets[op.d] + {op.y} == sets[op.d];
      assert Effect(sets, op) == sets[op.b := sets[op.b] - {op.x}];
    } else {
      StoreTwo(m, ws[0], ws[1]);
      lists' := Relinked(m, lists, heads, sets, op.b, k, op.d, j, op.node);
    }
  }

  lemma MovedNaively(m: map<int, int>, lists: seq<seq<int>>, heads: seq<int>, sets: seq<set<int>>, t: Commit,
                     a: Attempt) returns (lists': seq<seq<int>>)
    requires Before(m, lists, heads, sets, t, a) && a.op.MoveNaive?
    ensures After(m, lists', heads, sets, t, a)
  {
    var op := a.op;
    WalksMatch(m, t, a, heads);
    var k := WalkStands(m, lists, heads, sets, op.b, a.walk, a.looks, op.x);
    lists' := lists;
    if op.x in sets[op.b] {
      var j := WalkStands(m, lists, heads, sets, op.d, a.second, a.looks2, op.y);
      NaiveCut(m, t, a, heads);
      lists' := NaiveEffect(m, lists, heads, sets, op, k, j, t.ws);
    }
  }

  /** Stores to even addresses leave the values alone. */
  lemma ValuesStay(m: map<int, int>, m': map<int, int>, lists: seq<seq<int>>, heads: seq<int>, sets: seq<set<int>>)
    requires Stands(m', Vals(m), lists, heads, sets)
    requires forall b, n | 0 <= b < |lists| && n in lists[b] :: Vals(m')(n) == Vals(m)(n)
    ensures Stands(m', Vals(m'), lists, heads, sets)
  {
    forall b | 0 <= b < |lists| ensures Elements(Vals(m'), lists[b]) == Elements(Vals(m), lists[b]) {
      assert forall i | 0 <= i < |lists[b]| :: lists[b][i] in lists[b];
    }
    forall b | 0 <= b < |lists| ensures IsList(m', Vals(m'), lists[b]) {
      assert forall i | 0 <= i < |lists[b]| :: lists[b][i] in lists[b];
    }
    assert forall b | 0 <= b < |lists| :: lists[b][0] in lists[b] && lists[b][|lists[b]| - 1] in lists[b];
  }

  lemma StoresAreEven(m: map<int, int>, lists: seq<seq<int>>, heads: seq<int>, sets: seq<set<int>>, t: Commit,
                      a: Attempt, n: int)
    requires Before(m, lists, heads, sets, t, a) && n % 2 == 0
    ensures Vals(Store(m, t.ws))(n) == Vals(m)(n)
  {
    assert Buffered(t.ws, n - 1) ==> (n - 1) % 2 == 0 by {
      StoredNodes(m, lists, heads, sets, t, a);
    }
    StoreElsewhere(m, t.ws, n - 1);
  }

  lemma StoredNodes(m: map<int, int>, lists: seq<seq<int>>, heads: seq<int>, sets: seq<set<int>>, t: Commit, a: Attempt)
    requires Before(m, lists, heads, sets, t, a)
    ensures forall j | 0 <= j < |t.ws| :: t.ws[j].addr % 2 == 0
  {
    var op := a.op;
    WalksMatch(m, t, a, heads);
    var k := WalkStands(m, lists, heads, sets, op.b, a.walk, a.looks, op.x);
    assert lists[op.b][k] in lists[op.b];
    if Moves(op) && Seen(a.looks) == op.x {
      var j := WalkStands(m, lists, heads, sets, op.d, a.second, a.looks2, op.y);
      assert lists[op.d][j] in lists[op.d];
    }
  }

  // ------------------------------------------------------------------ runs

  /** One committed attempt. */
  lemma OneOperation(m: map<int, int>, lists: seq<seq<int>>, heads: seq<int>, sets: seq<set<int>>, t: Commit,
                     a: Attempt) returns (lists': seq<seq<int>>)
    requires Before(m, lists, heads, sets, t, a)
    ensures Stands(Store(m, t.ws), Vals(Store(m, t.ws)), lists', heads, Effect(sets, a.op))
    ensures a.result == Result(sets, a.op)
  {
    match a.op {
      case Contains(b, x) =>
        var k := WalkStands(m, lists, heads, sets, b, a.walk, a.looks, x);
        lists' := lists;
      case Add(_, _, _) => lists' := Added(m, lists, heads, sets, t, a);
      case Remove(_, _) => lists' := Removed(m, lists, heads, sets, t, a);
      case Move(_, _, _, _, _) => lists' := Moved(m, lists, heads, sets, t, a);
      case MoveNaive(_, _, _, _, _) => lists' := MovedNaively(m, lists, heads, sets, t, a);
    }
    forall b, n | 0 <= b < |lists'| && n in lists'[b] ensures Vals(Store(m, t.ws))(n) == Vals(m)(n) {
      StoresAreEven(m, lists, heads, sets, t, a, n);
    }
    ValuesStay(m, Store(m, t.ws), lists', heads, Effect(sets, a.op));
  }

  // ------------------------------------------------ values read without a lock

  /** Node `n` is a head, or the reads `seen` lead from a head to it. */
  ghost predicate LedTo(seen: seq<Access>, heads: seq<int>, n: int)
    decreases |seen|
  {
    n in heads || exists i :: 0 <= i < |seen| && seen[i].val == n && LedTo(seen[..i], heads, seen[i].addr)
  }

  ghost predicate IsPath(m: map<int, int>, heads: seq<int>, p: seq<int>) {
    p != [] && p[0] in heads && forall i | 0 <= i < |p| - 1 :: Load(m, p[i]) == p[i + 1]
  }

  /** Memory `m` leads from a head to node `n`. */
  ghost predicate InReach(m: map<int, int>, heads: seq<int>, n: int) {
    exists p :: IsPath(m, heads, p) && p[|p| - 1] == n
  }

  /** Cell `x` belongs to a node that can be reached. */
  ghost predicate Touches(m: map<int, int>, heads: seq<int>, x: int) {
    exists n :: InReach(m, heads, n) && (x == n || x == n - 1)
  }

  lemma {:induction false} LedIsInReach(seen: seq<Access>, heads: seq<int>, n: int, m: map<int, int>)
    requires LedTo(seen, heads, n) && ReadsMatch(seen, m)
    ensures InReach(m, heads, n)
    decreases |seen|
  {
    if n in heads {
      assert IsPath(m, heads, [n]);
    } else {
      var i :| 0 <= i < |seen| && seen[i].val == n && LedTo(seen[..i], heads, seen[i].addr);
      LedIsInReach(seen[..i], heads, seen[i].addr, m);
      var p :| IsPath(m, heads, p) && p[|p| - 1] == seen[i].addr;
      assert IsPath(m, heads, p + [n]);
    }
  }

  lemma LedFurther(seen: seq<Access>, r: Access, heads: seq<int>, n: int)
    requires LedTo(seen, heads, n)
    ensures LedTo(seen + [r], heads, n)
  {
    if n !in heads {
      var i :| 0 <= i < |seen| && seen[i].val == n && LedTo(seen[..i], heads, seen[i].addr);
      assert (seen + [r])[..i] == seen[..i] && (seen + [r])[i] == seen[i];
    }
  }

  /** What the program does: transactions store next pointers, they look at the value of a node
      only after their reads have led them to it, and plain stores go to nodes that are in no
      list. */
  ghost predicate StepOk(s: State, t: Step, heads: seq<int>) {
    match t
    case Insert(_, x, _) => x % 2 == 0
    case Peek(a, x) => a < |s.apps| && x % 2 == 1 && LedTo(s.apps[a].seen, heads, x + 1)
    case PlainStore(_, x, _) => !Touches(Serial(s), heads, x)
    case _ => true
  }

  ghost predicate SetProgram(states: seq<State>, steps: seq<Step>, heads: seq<int>) {
    |steps| <= |states| && forall i | 0 <= i < |steps| :: StepOk(states[i], steps[i], heads)
  }

  ghost predicate StoresOk(app: App) { forall j | 0 <= j < |app.ws| :: app.ws[j].addr % 2 == 0 }

  ghost predicate PeeksOk(app: App, m: map<int, int>, heads: seq<int>) {
    ReadsMatch(app.peeked, m)
    && forall k | 0 <= k < |app.peeked| :: app.peeked[k].addr % 2 == 1 && LedTo(app.seen, heads, app.peeked[k].addr + 1)
  }

  ghost predicate PeekOk(app: App, flag: Conflict, m: map<int, int>, heads: seq<int>) {
    StoresOk(app) && (Live(app, flag) && !app.pc.Persisting? ==> PeeksOk(app, m, heads))
  }

  ghost predicate PeekInv(c: Config, s: State, heads: seq<int>)
    requires WellFormed(c, s)
  {
    forall a | 0 <= a < c.apps :: PeekOk(s.apps[a], s.flags[a], Serial(s), heads)
  }

  /** The values a committed attempt saw are those of the serial memory at its place; plain
      stores leave the lists alone. */
  ghost predicate EntryOk(m: map<int, int>, e: Commit, heads: seq<int>) {
    if e.plain then |e.ws| == 1 && !Touches(m, heads, e.ws[0].addr) else ReadsMatch(e.peeked, m)
  }

  ghost predicate LogOk(init: map<int, int>, log: seq<Commit>, heads: seq<int>) {
    forall k: nat | k < |log| :: EntryOk(SerialMem(init, log[..k]), log[k], heads)
  }

  lemma LogStillOk(init: map<int, int>, log: seq<Commit>, heads: seq<int>, e: Commit)
    requires LogOk(init, log, heads) && EntryOk(SerialMem(init, log), e, heads)
    ensures LogOk(init, log + [e], heads)
  {
    forall k: nat | k < |log + [e]| ensures EntryOk(SerialMem(init, (log + [e])[..k]), (log + [e])[k], heads) {
      if k < |log| {
        assert (log + [e])[..k] == log[..k];
      } else {
        assert (log + [e])[..k] == log;
      }
    }
  }

  /** No transaction stores a value, so memory holds the serial one. */
  lemma ValuesAreSerial(c: Config, s: State, heads: seq<int>, x: int)
    requires Inv(c, s) && PeekInv(c, s, heads) && x % 2 == 1
    ensures Load(s.mem, x) == Load(Serial(s), x)
  {
    forall a | 0 <= a < c.apps ensures !Pending(s.apps[a], x) {
      assert StoresOk(s.apps[a]);
    }
  }

  /** What a step does to an attempt of `a`. */
  ghost predicate GoesOn(app: App, app': App, t: Step, a: nat, mem: map<int, int>) {
    || (app'.ws == [] && app'.peeked == [])
    || (&& (app'.ws == app.ws || (t.Insert? && app'.ws == app.ws + [Access(t.addr, t.val)]))
        && (app'.seen == app.seen || exists r :: app'.seen == app.seen + [r])
        && (app'.peeked == app.peeked ||
            (t.Peek? && t.a == a && app'.seen == app.seen &&
             app'.peeked == app.peeked + [Access(t.addr, Load(mem, t.addr))])))
  }

  /** An attempt that can still commit could before, unless it has just begun. */
  ghost predicate StaysAlive(app: App, flag: Conflict, app': App, flag': Conflict) {
    Live(app', flag') && !app'.pc.Persisting? ==> app'.peeked == [] || (Live(app, flag) && !app.pc.Persisting?)
  }

  lemma AttemptGoesOn(c: Config, s: State, t: Step, s': State, a: nat)
    requires Struct(c, s) && Protocol.Next(c, s, t, s') && a < c.apps
    ensures GoesOn(s.apps[a], s'.apps[a], t, a, s.mem) && StaysAlive(s.apps[a], s.flags[a], s'.apps[a], s'.flags[a])
  {
    Attempts.ListsStep(c, s, t, s', a);
    if IsAppStep(t) {
      AppStaysAlive(c, s, t, a);
    } else {
      ServicesReviveNobody(c, s, t, a);
    }
  }

  lemma AppStaysAlive(c: Config, s: State, t: Step, a: nat)
    requires WellFormed(c, s) && ValidConfig(c) && IsAppStep(t) && AppEnabled(c, s, t) && a < c.apps
    ensures StaysAlive(s.apps[a], s.flags[a], ApplyApp(c, s, t).apps[a], ApplyApp(c, s, t).flags[a])
  {
    if t.a != a {
      OnlyMoverChanges(c, s, t, a);
    } else {
      MoverStaysAlive(c, s, t);
    }
  }

  lemma MoverStaysAlive(c: Config, s: State, t: Step)
    requires WellFormed(c, s) && ValidConfig(c) && IsAppStep(t) && AppEnabled(c, s, t)
    ensures StaysAlive(s.apps[t.a], s.flags[t.a], ApplyApp(c, s, t).apps[t.a], ApplyApp(c, s, t).flags[t.a])
  {
  }

  lemma ServicesReviveNobody(c: Config, s: State, t: Step, a: nat)
    requires Struct(c, s) && !IsAppStep(t) && SvcEnabled(c, s, t) && a < c.apps
    ensures StaysAlive(s.apps[a], s.flags[a], ApplySvc(c, s, t).apps[a], ApplySvc(c, s, t).flags[a])
  {
    assert ServiceOk(c, t.v, s.svcs[t.v], s.apps);
    if t.Serve? {
      assert ChannelOk(c, t.v, s.svcs[t.v].inbox[t.a], s.apps[t.a]);
    }
  }

  /** Another committed attempt changes no value, and a plain store none that a live attempt has
      looked at. */
  lemma PeeksStay(c: Config, s: State, heads: seq<int>, a: nat, m: map<int, int>)
    requires Inv(c, s) && PeekInv(c, s, heads) && a < c.apps && Live(s.apps[a], s.flags[a]) && !s.apps[a].pc.Persisting?
    requires forall x | x % 2 == 1 && InReach(Serial(s), heads, x + 1) :: Load(m, x) == Load(Serial(s), x)
    ensures PeeksOk(s.apps[a], m, heads)
  {
    var app := s.apps[a];
    assert ReadsMatch(app.seen, Serial(s)) && PeekOk(app, s.flags[a], Serial(s), heads);
    forall k | 0 <= k < |app.peeked| ensures app.peeked[k].val == Load(m, app.peeked[k].addr) {
      LedIsInReach(app.seen, heads, app.peeked[k].addr + 1, Serial(s));
    }
  }

  lemma LedOnwards(app: App, app': App, t: Step, a: nat, mem: map<int, int>, heads: seq<int>)
    requires GoesOn(app, app', t, a, mem) && app'.peeked != []
    requires forall k | 0 <= k < |app.peeked| :: LedTo(app.seen, heads, app.peeked[k].addr + 1)
    ensures forall k | 0 <= k < |app.peeked| :: LedTo(app'.seen, heads, app.peeked[k].addr + 1)
  {
    if app'.seen != app.seen {
      var r :| app'.seen == app.seen + [r];
      forall k | 0 <= k < |app.peeked| ensures LedTo(app'.seen, heads, app.peeked[k].addr + 1) {
        LedFurther(app.seen, r, heads, app.peeked[k].addr + 1);
      }
    }
  }

  lemma PeekedMore(c: Config, s: State, t: Step, s': State, heads: seq<int>, a: nat)
    requires Inv(c, s) && PeekInv(c, s, heads) && Protocol.Next(c, s, t, s') && StepOk(s, t, heads) && a < c.apps
    requires forall x | x % 2 == 1 && InReach(Serial(s), heads, x + 1) :: Load(Serial(s'), x) == Load(Serial(s), x)
    ensures PeekOk(s'.apps[a], s'.flags[a], Serial(s'), heads)
  {
    AttemptGoesOn(c, s, t, s', a);
    assert PeekOk(s.apps[a], s.flags[a], Serial(s), heads);
    if Live(s'.apps[a], s'.flags[a]) && !s'.apps[a].pc.Persisting? && s'.apps[a].peeked != [] {
      PeeksStay(c, s, heads, a, Serial(s'));
      if s'.apps[a].peeked != s.apps[a].peeked {
        PeekMatches(c, s, t, heads, a);
      }
      PeeksGoOn(s.apps[a], s'.apps[a], t, a, s.mem, Serial(s'), heads);
    }
  }

  lemma PeeksGoOn(app: App, app': App, t: Step, a: nat, mem: map<int, int>, m: map<int, int>, heads: seq<int>)
    requires GoesOn(app, app', t, a, mem) && app'.peeked != [] && PeeksOk(app, m, heads)
    requires app'.peeked != app.peeked ==>
               t.Peek? && t.addr % 2 == 1 && LedTo(app.seen, heads, t.addr + 1) && Load(m, t.addr) == Load(mem, t.addr)
    ensures PeeksOk(app', m, heads)
  {
    LedOnwards(app, app', t, a, mem, heads);
  }

  lemma PeekMatches(c: Config, s: State, t: Step, heads: seq<int>, a: nat)
    requires Inv(c, s) && PeekInv(c, s, heads) && StepOk(s, t, heads) && t.Peek? && t.a == a < c.apps
    requires Live(s.apps[a], s.flags[a]) && !s.apps[a].pc.Persisting?
    ensures Load(s.mem, t.addr) == Load(Serial(s), t.addr) && InReach(Serial(s), heads, t.addr + 1)
  {
    assert ReadsMatch(s.apps[a].seen, Serial(s));
    ValuesAreSerial(c, s, heads, t.addr);
    LedIsInReach(s.apps[a].seen, heads, t.addr + 1, Serial(s));
  }

  /** No step changes a value within reach. */
  lemma ReachedValuesStay(c: Config, s: State, t: Step, s': State, heads: seq<int>, x: int)
    requires Inv(c, s) && PeekInv(c, s, heads) && Protocol.Next(c, s, t, s') && StepOk(s, t, heads)
    requires x % 2 == 1 && InReach(Serial(s), heads, x + 1)
    ensures Load(Serial(s'), x) == Load(Serial(s), x)
  {
    LogStep(c, s, t, s');
    if t.PlainStore? {
      SerialGrows(s.init, s.log, Commit(t.a, true, [], [], [Access(t.addr, t.val)]));
      StoreOne(Serial(s), Access(t.addr, t.val));
      assert x != t.addr;
    } else if s'.log != s.log {
      SerialGrows(s.init, s.log, Committing(s.apps[t.a], t.a));
      assert StoresOk(s.apps[t.a]);
      StoreElsewhere(Serial(s), s.apps[t.a].ws, x);
    }
  }

  lemma KeepPeekInv(c: Config, s: State, t: Step, s': State, heads: seq<int>)
    requires Inv(c, s) && Inv(c, s') && Protocol.Next(c, s, t, s') && StepOk(s, t, heads)
    requires PeekInv(c, s, heads) && LogOk(s.init, s.log, heads)
    ensures PeekInv(c, s', heads) && LogOk(s'.init, s'.log, heads)
  {
    forall x | x % 2 == 1 && InReach(Serial(s), heads, x + 1) ensures Load(Serial(s'), x) == Load(Serial(s), x) {
      ReachedValuesStay(c, s, t, s', heads, x);
    }
    forall a | 0 <= a < c.apps ensures PeekOk(s'.apps[a], s'.flags[a], Serial(s'), heads) {
      PeekedMore(c, s, t, s', heads, a);
    }
    LogStep(c, s, t, s');
    if t.PlainStore? {
      LogStillOk(s.init, s.log, heads, Commit(t.a, true, [], [], [Access(t.addr, t.val)]));
    } else if s'.log != s.log {
      assert PeekOk(s.apps[t.a], s.flags[t.a], Serial(s), heads);
      LogStillOk(s.init, s.log, heads, Committing(s.apps[t.a], t.a));
    }
  }

  /** Although values are read without a lock, and nodes are used again: every committed attempt
      of such a program saw the values that the serial execution had in memory at its place. */
  lemma {:induction false} PeeksAreSerial(c: Config, states: seq<State>, steps: seq<Step>, heads: seq<int>, i: nat)
    requires IsTrace(c, states, steps) && ValidConfig(c) && Init(c, states[0]) && SetProgram(states, steps, heads)
    requires i <= |steps|
    ensures Inv(c, states[i]) && PeekInv(c, states[i], heads) && LogOk(states[i].init, states[i].log, heads)
    ensures states[i].init == states[0].init
  {
    InitInv(c, states[0]);
    TraceInv(c, states, steps, i);
    if i > 0 {
      PeeksAreSerial(c, states, steps, heads, i - 1);
      assert StepAt(c, states, steps, i - 1) && StepOk(states[i - 1], steps[i - 1], heads);
      KeepPeekInv(c, states[i - 1], steps[i - 1], states[i], heads);
    } else {
      NothingPeeked(c, states[0], heads);
    }
  }

  lemma NothingPeeked(c: Config, s: State, heads: seq<int>)
    requires ValidConfig(c) && Init(c, s)
    ensures PeekInv(c, s, heads) && LogOk(s.init, s.log, heads)
  {
  }

  // --------------------------------------------------------- sets over a run

  /** The node that an attempt links is in no list, and new_node has filled it. */
  ghost predicate NewNode(m: map<int, int>, a: Attempt, heads: seq<int>) {
    Links(a) ==>
      && a.op.node % 2 == 0 && !InReach(m, heads, a.op.node)
      && Load(m, a.op.node - 1) == (if a.op.Add? then a.op.x else a.op.y)
      && (a.op.Add? && a.walk != [] ==> Load(m, a.op.node) == Next(a.walk))
      && (Moves(a.op) && a.second != [] ==> Load(m, a.op.node) == Next(a.second))
  }

  /** Every committed attempt of the run is one of the operations. */
  ghost predicate RunsWell(m: map<int, int>, t: Commit, a: Attempt, heads: seq<int>) {
    t.plain || (Fit(a.op, |heads|) && Ran(t, a, heads) && NewNode(m, a, heads))
  }

  ghost predicate SetRun(init: map<int, int>, log: seq<Commit>, attempts: seq<Attempt>, heads: seq<int>) {
    |attempts| == |log| && forall k: nat | k < |log| :: RunsWell(SerialMem(init, log[..k]), log[k], attempts[k], heads)
  }

  /** What `SetsAfter` needs: the operations concern existing buckets. */
  ghost predicate AllFit(log: seq<Commit>, attempts: seq<Attempt>, n: nat) {
    |log| == |attempts| && forall k | 0 <= k < |attempts| && !log[k].plain :: Fit(attempts[k].op, n)
  }

  /** The sets after the committed operations, one after the other. */
  ghost function SetsAfter(sets: seq<set<int>>, log: seq<Commit>, attempts: seq<Attempt>): (r: seq<set<int>>)
    requires AllFit(log, attempts, |sets|)
    ensures |r| == |sets|
  {
    if attempts == [] then sets
    else
      var n := |log| - 1;
      assert forall k | 0 <= k < n :: attempts[..n][k] == attempts[k] && log[..n][k] == log[k];
      var before := SetsAfter(sets, log[..n], attempts[..n]);
      if log[n].plain then before else Effect(before, attempts[n].op)
  }

  lemma {:induction false} ListedIsInReach(m: map<int, int>, val: int -> int, lists: seq<seq<int>>, heads: seq<int>,
                                           sets: seq<set<int>>, b: nat, i: nat)
    requires Stands(m, val, lists, heads, sets) && b < |lists| && i < |lists[b]|
    ensures InReach(m, heads, lists[b][i])
  {
    var p := lists[b][..i + 1];
    assert IsPath(m, heads, p) && p[|p| - 1] == lists[b][i] by {
      assert p[0] == heads[b];
      assert IsList(m, val, lists[b]);
    }
  }

  /** A plain store to a cell of no node within reach leaves the table as it is. */
  lemma PlainStays(m: map<int, int>, lists: seq<seq<int>>, heads: seq<int>, sets: seq<set<int>>, x: int, v: int)
    requires Stands(m, Vals(m), lists, heads, sets) && !Touches(m, heads, x)
    ensures Stands(m[x := v], Vals(m[x := v]), lists, heads, sets)
  {
    forall b, n | 0 <= b < |lists| && n in lists[b] ensures n != x && n - 1 != x {
      var i :| 0 <= i < |lists[b]| && lists[b][i] == n;
      ListedIsInReach(m, Vals(m), lists, heads, sets, b, i);
    }
    forall b | 0 <= b < |lists| ensures IsList(m[x := v], Vals(m), lists[b]) {
      assert forall i | 0 <= i < |lists[b]| :: lists[b][i] in lists[b];
    }
    ValuesStay(m, m[x := v], lists, heads, sets);
  }

  lemma OneEntry(m: map<int, int>, t: Commit, a: Attempt, lists: seq<seq<int>>, heads: seq<int>, sets: seq<set<int>>)
    returns (lists': seq<seq<int>>)
    requires Stands(m, Vals(m), lists, heads, sets) && ReadsMatch(t.seen, m) && EntryOk(m, t, heads)
    requires RunsWell(m, t, a, heads)
    ensures t.plain || Fit(a.op, |sets|)
    ensures Stands(Store(m, t.ws), Vals(Store(m, t.ws)), lists', heads, if t.plain then sets else Effect(sets, a.op))
    ensures t.plain || a.result == Result(sets, a.op)
  {
    if t.plain {
      StoreOne(m, t.ws[0]);
      PlainStays(m, lists, heads, sets, t.ws[0].addr, t.ws[0].val);
      lists' := lists;
    } else {
      if Links(a) {
        forall b | 0 <= b < |lists| ensures a.op.node !in lists[b] {
          if i :| 0 <= i < |lists[b]| && lists[b][i] == a.op.node {
            ListedIsInReach(m, Vals(m), lists, heads, sets, b, i);
          }
        }
      }
      lists' := OneOperation(m, lists, heads, sets, t, a);
    }
  }

  lemma RunFits(init: map<int, int>, log: seq<Commit>, attempts: seq<Attempt>, heads: seq<int>, k: nat)
    requires SetRun(init, log, attempts, heads) && k <= |log|
    ensures AllFit(log[..k], attempts[..k], |heads|)
  {
    forall i | 0 <= i < k && !log[i].plain ensures Fit(attempts[i].op, |heads|) {
      assert RunsWell(SerialMem(init, log[..i]), log[i], attempts[i], heads);
    }
  }

  lemma OneMore(init: map<int, int>, log: seq<Commit>, attempts: seq<Attempt>, sets: seq<set<int>>, n: nat)
    requires n < |log| == |attempts| && AllFit(log[..n + 1], attempts[..n + 1], |sets|)
    ensures AllFit(log[..n], attempts[..n], |sets|) && (log[n].plain || Fit(attempts[n].op, |sets|))
    ensures SerialMem(init, log[..n + 1]) == Store(SerialMem(init, log[..n]), log[n].ws)
    ensures var before := SetsAfter(sets, log[..n], attempts[..n]);
            SetsAfter(sets, log[..n + 1], attempts[..n + 1]) ==
            if log[n].plain then before else Effect(before, attempts[n].op)
  {
    assert log[..n + 1][..n] == log[..n] && attempts[..n + 1][..n] == attempts[..n];
    assert log[..n + 1][n] == log[n] && attempts[..n + 1][n] == attempts[n];
    assert forall k | 0 <= k < n :: attempts[..n][k] == attempts[..n + 1][k] && log[..n][k] == log[..n + 1][k];
  }

  ghost predicate ReadsSerially(init: map<int, int>, log: seq<Commit>) {
    forall k: nat | k < |log| :: ReadsMatch(log[k].seen, SerialMem(init, log[..k]))
  }

  lemma {:induction false} SetsSoFar(init: map<int, int>, log: seq<Commit>, attempts: seq<Attempt>,
                                     lists: seq<seq<int>>, heads: seq<int>, sets: seq<set<int>>, k: nat)
    returns (now: seq<seq<int>>)
    requires Stands(init, Vals(init), lists, heads, sets) && ReadsSerially(init, log) && LogOk(init, log, heads)
    requires SetRun(init, log, attempts, heads) && k <= |log|
    ensures AllFit(log[..k], attempts[..k], |sets|)
    ensures var m := SerialMem(init, log[..k]);
            Stands(m, Vals(m), now, heads, SetsAfter(sets, log[..k], attempts[..k]))
  {
    RunFits(init, log, attempts, heads, k);
    if k == 0 {
      now := lists;
    } else {
      var before := SetsSoFar(init, log, attempts, lists, heads, sets, k - 1);
      now := EntryAt(init, log, attempts, before, heads, sets, k - 1);
    }
  }

  lemma EntryAt(init: map<int, int>, log: seq<Commit>, attempts: seq<Attempt>, before: seq<seq<int>>, heads: seq<int>,
               sets: seq<set<int>>, n: nat)
    returns (now: seq<seq<int>>)
    requires n < |log| == |attempts| && AllFit(log[..n + 1], attempts[..n + 1], |sets|)
             && AllFit(log[..n], attempts[..n], |sets|) && (log[n].plain || Fit(attempts[n].op, |sets|))
    requires var m := SerialMem(init, log[..n]);
             Stands(m, Vals(m), before, heads, SetsAfter(sets, log[..n], attempts[..n]))
    requires ReadsSerially(init, log) && LogOk(init, log, heads) && SetRun(init, log, attempts, heads)
    ensures log[n].plain ||
            attempts[n].result == Result(SetsAfter(sets, log[..n], attempts[..n]), attempts[n].op)
    ensures var m := SerialMem(init, log[..n + 1]);
            Stands(m, Vals(m), now, heads, SetsAfter(sets, log[..n + 1], attempts[..n + 1]))
  {
    OneMore(init, log, attempts, sets, n);
    assert RunsWell(SerialMem(init, log[..n]), log[n], attempts[n], heads);
    now := OneEntry(SerialMem(init, log[..n]), log[n], attempts[n], before, heads,
                    SetsAfter(sets, log[..n], attempts[..n]));
  }

  /** A run of a set program from a table for `sets`, whose committed attempts are `attempts`. */
  ghost predicate IsSetRun(c: Config, states: seq<State>, steps: seq<Step>, attempts: seq<Attempt>,
                           lists: seq<seq<int>>, heads: seq<int>, sets: seq<set<int>>)
  {
    && IsTrace(c, states, steps) && ValidConfig(c) && Init(c, states[0]) && SetProgram(states, steps, heads)
    && Stands(states[0].init, Vals(states[0].init), lists, heads, sets)
    && SetRun(states[0].init, states[|steps|].log, attempts, heads)
  }

  lemma RunIsSerial(c: Config, states: seq<State>, steps: seq<Step>, heads: seq<int>)
    requires IsTrace(c, states, steps) && ValidConfig(c) && Init(c, states[0]) && SetProgram(states, steps, heads)
    ensures states[|steps|].init == states[0].init
    ensures ReadsSerially(states[0].init, states[|steps|].log) && LogOk(states[0].init, states[|steps|].log, heads)
  {
    PeeksAreSerial(c, states, steps, heads, |steps|);
    assert CommittedReadsSerial(states[|steps|]);
  }

  /** However the operations are interleaved, and whatever aborts: after any number of commits
      every bucket is a strictly sorted list between its sentinels that holds what the same
      operations make of mathematical sets ... */
  lemma SetsAreSets(c: Config, states: seq<State>, steps: seq<Step>, attempts: seq<Attempt>, lists: seq<seq<int>>,
                    heads: seq<int>, sets: seq<set<int>>, k: nat)
    returns (now: seq<seq<int>>)
    requires IsSetRun(c, states, steps, attempts, lists, heads, sets) && k <= |states[|steps|].log|
    ensures var log := states[|steps|].log;
            && AllFit(log[..k], attempts[..k], |sets|)
            && var m := SerialMem(states[0].init, log[..k]);
            Stands(m, Vals(m), now, heads, SetsAfter(sets, log[..k], attempts[..k]))
  {
    RunIsSerial(c, states, steps, heads);
    now := SetsSoFar(states[0].init, states[|steps|].log, attempts, lists, heads, sets, k);
  }

  /** ... and every committed operation returned what it returns on those sets. */
  lemma ResultsAreSetResults(c: Config, states: seq<State>, steps: seq<Step>, attempts: seq<Attempt>,
                             lists: seq<seq<int>>, heads: seq<int>, sets: seq<set<int>>, k: nat)
    requires IsSetRun(c, states, steps, attempts, lists, heads, sets) && k < |states[|steps|].log|
    requires !states[|steps|].log[k].plain
    ensures var log := states[|steps|].log;
            && AllFit(log[..k], attempts[..k], |sets|) && Fit(attempts[k].op, |sets|)
            && attempts[k].result == Result(SetsAfter(sets, log[..k], attempts[..k]), attempts[k].op)
  {
    var init, log := states[0].init, states[|steps|].log;
    RunIsSerial(c, states, steps, heads);
    var now := SetsSoFar(init, log, attempts, lists, heads, sets, k);
    RunFits(init, log, attempts, heads, k + 1);
    OneMore(init, log, attempts, sets, k);
    var next := EntryAt(init, log, attempts, now, heads, sets, k);
  }

  // ------------------------------------------------------ the table as one set

  ghost predicate InOwnBuckets(sets: seq<set<int>>) {
    |sets| > 0 && forall b, x | 0 <= b < |sets| && x in sets[b] :: Hash(x, |sets|) == b
  }

  ghost function Whole(sets: seq<set<int>>): set<int> {
    set b, x | 0 <= b < |sets| && x in sets[b] :: x
  }

  ghost function OneResult(all: set<int>, op: Op): int {
    match op
    case Contains(_, x) => if x in all then 1 else 0
    case Add(_, x, _) => if x in all then 0 else 1
    case Remove(_, x) => if x in all then 1 else 0
    case Move(_, x, _, y, _) => if x in all && y !in all then 1 else 0
    case MoveNaive(_, x, _, y, _) => if x !in all then 0 else if y in all then 2 else 1
  }

  ghost function OneEffect(all: set<int>, op: Op): set<int> {
    match op
    case Contains(_, _) => all
    case Add(_, x, _) => all + {x}
    case Remove(_, x) => all - {x}
    case Move(_, x, _, y, _) => if x in all && y !in all then all - {x} + {y} else all
    case MoveNaive(_, x, _, y, _) => if x in all then all - {x} + {y} else all
  }

  /** The buckets together behave as one set. */
  lemma AsOneSet(sets: seq<set<int>>, op: Op)
    requires InOwnBuckets(sets) && Fit(op, |sets|)
    ensures Result(sets, op) == OneResult(Whole(sets), op)
    ensures InOwnBuckets(Effect(sets, op)) && Whole(Effect(sets, op)) == OneEffect(Whole(sets), op)
  {
    InBucket(sets, op.x);
    if Moves(op) {
      InBucket(sets, op.y);
    }
    forall x ensures x in Whole(Effect(sets, op)) <==> x in OneEffect(Whole(sets), op) {
      InBucket(sets, x);
      InBucket(Effect(sets, op), x);
    }
  }

  lemma InBucket(sets: seq<set<int>>, x: int)
    requires InOwnBuckets(sets)
    ensures x in Whole(sets) <==> x in sets[Hash(x, |sets|)]
  {
    HashInRange(x, |sets|);
  }

  lemma HashInRange(x: int, n: nat)
    requires n > 0
    ensures Hash(x, n) < n
  {
  }

  ghost function OneAfter(all: set<int>, log: seq<Commit>, attempts: seq<Attempt>): set<int>
    requires |log| == |attempts|
  {
    if log == [] then all
    else
      var n := |log| - 1;
      var before := OneAfter(all, log[..n], attempts[..n]);
      if log[n].plain then before else OneEffect(before, attempts[n].op)
  }

  lemma {:induction false} AfterAsOneSet(sets: seq<set<int>>, log: seq<Commit>, attempts: seq<Attempt>)
    requires InOwnBuckets(sets) && AllFit(log, attempts, |sets|)
    ensures InOwnBuckets(SetsAfter(sets, log, attempts))
    ensures Whole(SetsAfter(sets, log, attempts)) == OneAfter(Whole(sets), log, attempts)
  {
    if log != [] {
      var n := |log| - 1;
      assert forall k | 0 <= k < n :: attempts[..n][k] == attempts[k] && log[..n][k] == log[k];
      AfterAsOneSet(sets, log[..n], attempts[..n]);
      if !log[n].plain {
        AsOneSet(SetsAfter(sets, log[..n], attempts[..n]), attempts[n].op);
      }
    }
  }

  /** So the hash table is one set: every committed operation returned what it returns on the set
      that the operations committed before it have made. */
  lemma TableIsOneSet(c: Config, states: seq<State>, steps: seq<Step>, attempts: seq<Attempt>, lists: seq<seq<int>>,
                      heads: seq<int>, sets: seq<set<int>>, k: nat)
    requires IsSetRun(c, states, steps, attempts, lists, heads, sets) && InOwnBuckets(sets)
    requires k < |states[|steps|].log| && !states[|steps|].log[k].plain
    ensures var log := states[|steps|].log;
            attempts[k].result == OneResult(OneAfter(Whole(sets), log[..k], attempts[..k]), attempts[k].op)
  {
    var log := states[|steps|].log;
    ResultsAreSetResults(c, states, steps, attempts, lists, heads, sets, k);
    AfterAsOneSet(sets, log[..k], attempts[..k]);
    AsOneSet(SetsAfter(sets, log[..k], attempts[..k]), attempts[k].op);
  }

  // ------------------------------------------------------------ cardinality

  function Size(sets: seq<set<int>>): nat {
    if sets == [] then 0 else Size(sets[..|sets| - 1]) + |sets[|sets| - 1]|
  }

  lemma {:induction false} SizeUpdated(sets: seq<set<int>>, b: nat, x: set<int>)
    requires b < |sets|
    ensures Size(sets[b := x]) == Size(sets) - |sets[b]| + |x|
  {
    var n := |sets| - 1;
    if b < n {
      SizeUpdated(sets[..n], b, x);
      assert sets[b := x][..n] == sets[..n][b := x];
    } else {
      assert sets[b := x][..n] == sets[..n];
    }
  }

  /** ht_move keeps the number of elements; ht_move_naive loses one exactly if it returns 2. */
  lemma MovesKeepSizeExactly(sets: seq<set<int>>, op: Op)
    requires Fit(op, |sets|) && Moves(op)
    ensures Size(Effect(sets, op)) == Size(sets) - if Result(sets, op) == 2 then 1 else 0
    ensures op.Move? ==> Result(sets, op) != 2
  {
    if op.x in sets[op.b] {
      var out := sets[op.b := sets[op.b] - {op.x}];
      var there := sets[op.d] + {op.y};
      SizeUpdated(sets, op.b, sets[op.b] - {op.x});
      SizeUpdated(out, op.d, there);
      if op.y in sets[op.d] {
        assert there == sets[op.d];
      } else {
        assert |there| == |sets[op.d]| + 1;
      }
      if op.Move? && op.y in sets[op.d] {
        assert Effect(sets, op) == sets;
      } else {
        assert Effect(sets, op) == out[op.d := there];
      }
    }
  }
}
