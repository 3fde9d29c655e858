/** The write set of a transaction: an append-only array that doubles when it is full, two
    scans for a buffered value -- from the front, and from the back as in the PGAS build --
    and the loop that stores the entries at commit. */
module WriteSet {
  import opened Locks
  import opened Protocol

  const WRITE_SET_SIZE: nat := 4

  // ---------------------------------------------------------------- scans

  /** The value of the oldest entry for address `x` ... */
  function First(ws: seq<Access>, x: int): Option<int> {
    if ws == [] then None
    else if ws[0].addr == x then Some(ws[0].val)
    else First(ws[1..], x)
  }

  /** ... and of the latest. */
  function Last(ws: seq<Access>, x: int): Option<int> {
    if ws == [] then None
    else if ws[|ws| - 1].addr == x then Some(ws[|ws| - 1].val)
    else Last(ws[..|ws| - 1], x)
  }

  lemma {:induction false} FirstIs(ws: seq<Access>, x: int, i: nat)
    requires i <= |ws| && (forall k | 0 <= k < i :: ws[k].addr != x) && (i < |ws| ==> ws[i].addr == x)
    ensures First(ws, x) == if i < |ws| then Some(ws[i].val) else None
  {
    if i > 0 {
      FirstIs(ws[1..], x, i - 1);
    }
  }

  lemma {:induction false} LastIs(ws: seq<Access>, x: int, i: nat)
    requires i <= |ws| && (forall k | i <= k < |ws| :: ws[k].addr != x) && (i > 0 ==> ws[i - 1].addr == x)
    ensures Last(ws, x) == if i > 0 then Some(ws[i - 1].val) else None
  {
    if i < |ws| {
      LastIs(ws[..|ws| - 1], x, i);
    }
  }

  /** What a commit leaves at an address is what the scan from the back finds. */
  lemma {:induction false} CommitLeavesLast(m: map<int, int>, ws: seq<Access>, x: int)
    ensures Load(Store(m, ws), x) == match Last(ws, x) case Some(v) => v case None => Load(m, x)
  {
    if ws != [] {
      CommitLeavesLast(m, ws[..|ws| - 1], x);
    }
  }

  // --------------------------------------------------------------- update

  ghost predicate Distinct(ws: seq<Access>) {
    forall i, j | 0 <= i < j < |ws| :: ws[i].addr != ws[j].addr
  }

  /** The write set after write_set_update. */
  function Updated(ws: seq<Access>, x: int, v: int): seq<Access> {
    if ws == [] then [Access(x, v)]
    else if ws[0].addr == x then [ws[0].(val := v)] + ws[1..]
    else [ws[0]] + Updated(ws[1..], x, v)
  }

  lemma {:induction false} UpdatedAt(ws: seq<Access>, x: int, v: int, i: nat)
    requires i <= |ws| && (forall k | 0 <= k < i :: ws[k].addr != x) && (i < |ws| ==> ws[i].addr == x)
    ensures Updated(ws, x, v) == if i < |ws| then ws[i := ws[i].(val := v)] else ws + [Access(x, v)]
  {
    if i > 0 {
      UpdatedAt(ws[1..], x, v, i - 1);
    }
  }

  lemma {:induction false} Position(ws: seq<Access>, x: int) returns (i: nat)
    ensures i <= |ws| && (forall k | 0 <= k < i :: ws[k].addr != x) && (i < |ws| ==> ws[i].addr == x)
  {
    if ws == [] || ws[0].addr == x {
      i := 0;
    } else {
      var j := Position(ws[1..], x);
      i := j + 1;
      assert forall k | 1 <= k < i :: ws[k] == ws[1..][k - 1];
    }
  }

  /** Sets built by updates never have an address twice ... */
  lemma UpdatedIsDistinct(ws: seq<Access>, x: int, v: int)
    requires Distinct(ws)
    ensures Distinct(Updated(ws, x, v))
  {
    var i := Position(ws, x);
    UpdatedAt(ws, x, v, i);
  }

  /** ... so both scans find the same entry ... */
  lemma DistinctScansAgree(ws: seq<Access>, x: int)
    requires Distinct(ws)
    ensures First(ws, x) == Last(ws, x)
  {
    var i := Position(ws, x);
    FirstIs(ws, x, i);
    LastIs(ws, x, if i < |ws| then i + 1 else 0);
  }

  lemma {:induction false} UpdatedIsFound(ws: seq<Access>, x: int, v: int, y: int)
    ensures First(Updated(ws, x, v), y) == if y == x then Some(v) else First(ws, y)
  {
    if ws != [] && ws[0].addr != x {
      UpdatedIsFound(ws[1..], x, v, y);
    }
  }

  /** ... and an update changes the one address it names in what a commit stores. */
  lemma UpdateIsStore(m: map<int, int>, ws: seq<Access>, x: int, v: int, y: int)
    requires Distinct(ws)
    ensures Load(Store(m, Updated(ws, x, v)), y) == if y == x then v else Load(Store(m, ws), y)
  {
    UpdatedIsDistinct(ws, x, v);
    UpdatedIsFound(ws, x, v, y);
    DistinctScansAgree(ws, y);
    DistinctScansAgree(Updated(ws, x, v), y);
    CommitLeavesLast(m, ws, y);
    CommitLeavesLast(m, Updated(ws, x, v), y);
  }

  // ------------------------------------------------- reading one's own writes

  datatype Op = Read(addr: int) | Write(addr: int, val: int)

  function Writes(ops: seq<Op>): seq<Access> {
    if ops == [] then []
    else
      var op := ops[|ops| - 1];
      Writes(ops[..|ops| - 1]) + if op.Write? then [Access(op.addr, op.val)] else []
  }

  /** Running the operations straight on memory: what the reads return, and the memory. */
  function Direct(m: map<int, int>, ops: seq<Op>): (seq<int>, map<int, int>) {
    if ops == [] then ([], m)
    else
      var (rs, n) := Direct(m, ops[..|ops| - 1]);
      match ops[|ops| - 1]
      case Read(x) => (rs + [Load(n, x)], n)
      case Write(x, v) => (rs, n[x := v])
  }

  /** A read after a store to its address, with no other store to it in between, returns the stored
      value; a read with no store to its address before it what memory held at the beginning. */
  lemma {:induction false} LatestWriteIsRead(m: map<int, int>, before: seq<Op>, x: int, v: int, between: seq<Op>)
    requires forall op | op in between && op.Write? :: op.addr != x
    ensures Load(Direct(m, between).1, x) == Load(m, x)
    ensures Load(Direct(m, before + [Write(x, v)] + between).1, x) == v
    ensures var rs := Direct(m, before + [Write(x, v)] + between + [Read(x)]).0; rs != [] && rs[|rs| - 1] == v
    decreases |between|
  {
    var all := before + [Write(x, v)] + between;
    if between == [] {
      assert all == before + [Write(x, v)] && all[..|all| - 1] == before;
    } else {
      var n := |between| - 1;
      LatestWriteIsRead(m, before, x, v, between[..n]);
      assert all[..|all| - 1] == before + [Write(x, v)] + between[..n] && all[|all| - 1] == between[n];
      assert between[n] in between;
    }
    assert (all + [Read(x)])[..|all|] == all;
  }

  /** Running them on a write set, reading it from the back or from the front. */
  function Buffering(m: map<int, int>, ops: seq<Op>, fromBack: bool): (seq<int>, seq<Access>) {
    if ops == [] then ([], [])
    else
      var (rs, ws) := Buffering(m, ops[..|ops| - 1], fromBack);
      match ops[|ops| - 1]
      case Read(x) =>
        var found := if fromBack then Last(ws, x) else First(ws, x);
        (rs + [match found case Some(v) => v case None => Load(m, x)], ws)
      case Write(x, v) => (rs, ws + [Access(x, v)])
  }

  /** Buffered stores and one commit at the end leave the memory that direct stores leave. */
  lemma {:induction false} CommitIsDirect(m: map<int, int>, ops: seq<Op>, fromBack: bool)
    ensures Buffering(m, ops, fromBack).1 == Writes(ops)
    ensures Direct(m, ops).1 == Store(m, Writes(ops))
    ensures |Buffering(m, ops, fromBack).0| == |Direct(m, ops).0|
  {
    if ops != [] {
      CommitIsDirect(m, ops[..|ops| - 1], fromBack);
      var op := ops[|ops| - 1];
      if op.Write? {
        assert Writes(ops)[..|Writes(ops)| - 1] == Writes(ops[..|ops| - 1]);
      }
    }
  }

  /** With the scan from the back every transaction reads what it would read if its stores
      went straight to memory. */
  lemma {:induction false} ReadsOwnWrites(m: map<int, int>, ops: seq<Op>)
    ensures Buffering(m, ops, true).0 == Direct(m, ops).0
  {
    if ops != [] {
      var before := ops[..|ops| - 1];
      ReadsOwnWrites(m, before);
      CommitIsDirect(m, before, true);
      CommitLeavesLast(m, Writes(before), ops[|ops| - 1].addr);
    }
  }

  /** At every read, the first and the latest store to that address so far wrote the same. */
  ghost predicate FirstIsLatest(ops: seq<Op>) {
    forall k | 0 <= k < |ops| && ops[k].Read? ::
      First(Writes(ops[..k]), ops[k].addr) == Last(Writes(ops[..k]), ops[k].addr)
  }

  /** With the scan from the front a transaction reads its own writes exactly if no read
      comes after stores of different values, first and latest, to its address. */
  lemma {:induction false} FrontScanExactly(m: map<int, int>, ops: seq<Op>)
    ensures Buffering(m, ops, false).0 == Direct(m, ops).0 <==> FirstIsLatest(ops)
  {
    if ops != [] {
      var before, op := ops[..|ops| - 1], ops[|ops| - 1];
      assert ops == before + [op];
      FrontScanExactly(m, before);
      CommitIsDirect(m, before, false);
      OneMoreRead(before, op);
      if op.Read? {
        CommitLeavesLast(m, Writes(before), op.addr);
        SameScan(Writes(before), op.addr);
        SameEnds(Buffering(m, before, false).0, Direct(m, before).0,
                 match First(Writes(before), op.addr) case Some(v) => v case None => Load(m, op.addr),
                 Load(Direct(m, before).1, op.addr));
      }
    }
  }

  lemma OneMoreRead(before: seq<Op>, op: Op)
    ensures FirstIsLatest(before + [op]) <==>
            FirstIsLatest(before) && (op.Read? ==> First(Writes(before), op.addr) == Last(Writes(before), op.addr))
  {
    var ops := before + [op];
    assert forall k | 0 <= k < |before| :: before[..k] == ops[..k] && before[k] == ops[k];
    assert ops[..|before|] == before && ops[|before|] == op;
  }

  lemma SameEnds(s: seq<int>, t: seq<int>, x: int, y: int)
    requires |s| == |t|
    ensures s + [x] == t + [y] <==> s == t && x == y
  {
    if s + [x] == t + [y] {
      assert s == (s + [x])[..|s|] && t == (t + [y])[..|t|];
      assert (s + [x])[|s|] == x && (t + [y])[|t|] == y;
    }
  }

  /** One scan finds an entry exactly if the other does. */
  lemma {:induction false} SameScan(ws: seq<Access>, x: int)
    ensures First(ws, x).Some? <==> Last(ws, x).Some?
  {
    var i := Position(ws, x);
    FirstIs(ws, x, i);
    if i == |ws| {
      LastIs(ws, x, 0);
    } else {
      LastFinds(ws, x, i);
    }
  }

  lemma {:induction false} LastFinds(ws: seq<Access>, x: int, i: nat)
    requires i < |ws| && ws[i].addr == x
    ensures Last(ws, x).Some?
  {
    if ws[|ws| - 1].addr != x {
      LastFinds(ws[..|ws| - 1], x, i);
    }
  }

  /** Storing an address at most once is enough. */
  lemma SingleStoresReadBack(m: map<int, int>, ops: seq<Op>)
    requires Distinct(Writes(ops))
    ensures Buffering(m, ops, false).0 == Direct(m, ops).0
  {
    FrontScanExactly(m, ops);
    forall k | 0 <= k < |ops| && ops[k].Read?
      ensures First(Writes(ops[..k]), ops[k].addr) == Last(Writes(ops[..k]), ops[k].addr)
    {
      WritesPrefix(ops, k);
      DistinctScansAgree(Writes(ops[..k]), ops[k].addr);
    }
  }

  lemma {:induction false} WritesPrefix(ops: seq<Op>, k: nat)
    requires k <= |ops|
    ensures Writes(ops[..k]) <= Writes(ops)
  {
    if k < |ops| {
      WritesPrefix(ops[..|ops| - 1], k);
      assert ops[..|ops| - 1][..k] == ops[..k];
    } else {
      assert ops[..k] == ops;
    }
  }

  /** Two stores of an address, then a read of it: the front scan returns the older value. */
  lemma StaleRead(m: map<int, int>, x: int, v: int, w: int)
    requires v != w
    ensures var ops := [Write(x, v), Write(x, w), Read(x)];
            Buffering(m, ops, false).0 == [v] && Direct(m, ops).0 == [w]
  {
    var one, two, ops := [Write(x, v)], [Write(x, v), Write(x, w)], [Write(x, v), Write(x, w), Read(x)];
    var none: seq<Op> := [];
    assert one[..|one| - 1] == none && two[..|two| - 1] == one && ops[..|ops| - 1] == two;
    assert Buffering(m, none, false) == ([], []) && Direct(m, none) == ([], m);
    assert Buffering(m, one, false).1 == [Access(x, v)] && Buffering(m, one, false).0 == [];
    assert Direct(m, one).0 == [] && Direct(m, one).1 == m[x := v];
    assert Buffering(m, two, false).1 == [Access(x, v), Access(x, w)] && Buffering(m, two, false).0 == [];
    assert Direct(m, two).0 == [] && Direct(m, two).1 == m[x := v][x := w];
    FirstIs([Access(x, v), Access(x, w)], x, 0);
  }

  // ----------------------------------------------------------- the array

  /** The shared memory that a commit stores to. */
  class Memory {
    var cells: map<int, int>
  }

  class Buffer {
    var entries: array<Access>
    var nb: nat

    ghost predicate Valid()
      reads this
    {
      nb <= entries.Length && entries.Length > 0
    }

    ghost function Contents(): seq<Access>
      requires Valid()
      reads this, entries
    {
      entries[..nb]
    }

    /** write_set_new. */
    constructor ()
      ensures Valid() && Contents() == [] && fresh(entries)
    {
      entries := new Access[WRITE_SET_SIZE](_ => Access(0, 0));
      nb := 0;
    }

    /** write_set_insert; the array doubles if it is full. */
    method Insert(x: int, v: int)
      requires Valid()
      modifies this, entries
      ensures Valid() && Contents() == old(Contents()) + [Access(x, v)]
      ensures entries == old(entries) || (fresh(entries) && entries.Length == 2 * old(entries.Length)
              && old(nb) == old(entries.Length))
    {
      if nb == entries.Length {
        var temp := new Access[2 * entries.Length](_ => Access(0, 0));
        var i := 0;
        while i < nb
          invariant i <= nb && temp[..i] == entries[..i]
          modifies temp
        {
          temp[i] := entries[i];
          i := i + 1;
        }
        entries := temp;
      }
      entries[nb] := Access(x, v);
      nb := nb + 1;
    }

    /** write_set_update. */
    method Update(x: int, v: int)
      requires Valid()
      modifies this, entries
      ensures Valid() && Contents() == Updated(old(Contents()), x, v)
      ensures entries == old(entries) || fresh(entries)
    {
      var i := 0;
      while i < nb
        invariant i <= nb && forall k | 0 <= k < i :: entries[k].addr != x
      {
        if entries[i].addr == x {
          UpdatedAt(Contents(), x, v, i);
          entries[i] := entries[i].(val := v);
          return;
        }
        i := i + 1;
      }
      UpdatedAt(Contents(), x, v, i);
      Insert(x, v);
    }

    /** write_set_contains. */
    method Contains(x: int) returns (r: Option<int>)
      requires Valid()
      ensures r == First(Contents(), x)
    {
      var i := 0;
      while i < nb
        invariant i <= nb && forall k | 0 <= k < i :: entries[k].addr != x
      {
        if entries[i].addr == x {
          FirstIs(Contents(), x, i);
          return Some(entries[i].val);
        }
        i := i + 1;
      }
      FirstIs(Contents(), x, i);
      return None;
    }

    /** write_set_pgas_contains. */
    method ContainsFromBack(x: int) returns (r: Option<int>)
      requires Valid()
      ensures r == Last(Contents(), x)
    {
      var i := nb;
      while i > 0
        invariant 0 <= i <= nb && forall k | i <= k < nb :: entries[k].addr != x
      {
        i := i - 1;
        if entries[i].addr == x {
          LastIs(Contents(), x, i + 1);
          return Some(entries[i].val);
        }
      }
      LastIs(Contents(), x, 0);
      return None;
    }

    /** write_set_persist. */
    method Persist(mem: Memory)
      requires Valid()
      modifies mem
      ensures mem.cells == Store(old(mem.cells), Contents())
    {
      var i := 0;
      while i < nb
        invariant i <= nb && mem.cells == Store(old(mem.cells), entries[..i])
      {
        assert entries[..i + 1][..i] == entries[..i];
        mem.cells := mem.cells[entries[i].addr := entries[i].val];
        i := i + 1;
      }
    }
  }
}
