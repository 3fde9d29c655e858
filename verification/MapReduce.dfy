/** The letter count: processes draw chunk numbers from a shared counter, count their chunks
    privately and add up what they counted, all in transactions. */
module MapReduce {
  import opened Locks
  import opened Protocol
  import opened Serializability
  import opened Theorems
  import Bank
  import WriteSet

  // ------------------------------------------------------------- counting

  const LETTERS: nat := 27

  /** char_offset on character codes: a letter's place in the alphabet, or 26. */
  function CharOffset(c: int): (r: nat)
    ensures r < LETTERS
  {
    if 97 <= c < 123 then c - 97 else if 65 <= c < 91 then c - 65 else 26
  }

  const EOF: int := -1

  predicate IsLetter(c: int) { 'a' as int <= c <= 'z' as int || 'A' as int <= c <= 'Z' as int }

  /** The classes: each letter of the alphabet, small or capital, and all the rest. */
  predicate InClass(c: int, l: nat) {
    if l < 26 then c == 'a' as int + l || c == 'A' as int + l else l == 26 && !IsLetter(c)
  }

  lemma OffsetIsClass(c: int)
    ensures forall l: nat :: InClass(c, l) <==> CharOffset(c) == l
  {
  }

  /** The place of every letter, small or capital; everything else is put in the last one. */
  lemma OffsetOfLetter(c: int, k: nat)
    requires k < 26
    ensures CharOffset(97 + k) == k == CharOffset(65 + k)
    ensures CharOffset(c) == 26 <==> !(97 <= c <= 122 || 65 <= c <= 90)
  {
  }

  /** How often the character class `l` occurs from place `i` up to place `j`. */
  function Count(text: seq<int>, i: nat, j: nat, l: nat): nat
    requires i <= j <= |text|
  {
    if i == j then 0 else Count(text, i, j - 1, l) + if InClass(text[j - 1], l) then 1 else 0
  }

  /** That is the number of places where it stands. */
  lemma {:induction false} CountIsPlaces(text: seq<int>, i: nat, j: nat, l: nat)
    requires i <= j <= |text|
    ensures Count(text, i, j, l) == |set p | i <= p < j && InClass(text[p], l)|
  {
    var here := set p | i <= p < j && InClass(text[p], l);
    if i < j {
      CountIsPlaces(text, i, j - 1, l);
      var before := set p | i <= p < j - 1 && InClass(text[p], l);
      assert here == if InClass(text[j - 1], l) then before + {j - 1} else before;
    } else {
      assert here == {};
    }
  }

  lemma {:induction false} CountSplit(text: seq<int>, i: nat, j: nat, k: nat, l: nat)
    requires i <= j <= k <= |text|
    ensures Count(text, i, k, l) == Count(text, i, j, l) + Count(text, j, k, l)
  {
    if j < k {
      CountSplit(text, i, j, k - 1, l);
    }
  }

  /** Where chunk `ci` ends. */
  function End(size: nat, chunk: nat, ci: nat): nat {
    if ci * chunk + chunk < size then ci * chunk + chunk else size
  }

  /** What the loop counts for chunk `ci`: it moves on before it reads, so it sees the places
      after the start of the chunk up to and with the start of the next. */
  function ChunkCount(text: seq<int>, chunk: nat, ci: nat, l: nat): nat
    requires |text| > 0
  {
    var size := |text| - 1;
    if ci * chunk < size then Count(text, ci * chunk + 1, End(size, chunk, ci) + 1, l) else 0
  }

  /** The counting loop of map_reduce and map_reduce_seq; the text ends with an EOF. */
  method CountChunk(text: seq<int>, chunk: nat, ci: nat, stats: array<nat>)
    requires |text| > 0 && ci * chunk < |text| - 1 && stats.Length == LETTERS
    modifies stats
    ensures forall l | 0 <= l < LETTERS :: stats[l] == old(stats[l]) + ChunkCount(text, chunk, ci, l)
  {
    var size := |text| - 1;
    var start := ci * chunk;
    var at, index := start, 0;
    ghost var from := start + 1;
    assert forall l :: Count(text, from, from, l) == 0;
    while index < chunk && at < size
      invariant at == start + index <= size && index <= chunk
      invariant forall l | 0 <= l < LETTERS :: stats[l] == old(stats[l]) + Count(text, from, at + 1, l)
    {
      index := index + 1;
      at := at + 1;
      OffsetIsClass(text[at]);
      stats[CharOffset(text[at])] := stats[CharOffset(text[at])] + 1;
    }
  }

  /** The counts of the first `n` chunks. */
  function Chunks(text: seq<int>, chunk: nat, n: nat, l: nat): nat
    requires |text| > 0
  {
    if n == 0 then 0 else Chunks(text, chunk, n - 1, l) + ChunkCount(text, chunk, n - 1, l)
  }

  lemma {:induction false} ChunksCount(text: seq<int>, chunk: nat, n: nat, l: nat)
    requires |text| > 0 && chunk > 0
    ensures var size := |text| - 1;
            Chunks(text, chunk, n, l) == Count(text, 1, (if n * chunk < size then n * chunk else size) + 1, l)
  {
    if n > 0 {
      var size := |text| - 1;
      ChunksCount(text, chunk, n - 1, l);
      assert n * chunk == (n - 1) * chunk + chunk;
      if (n - 1) * chunk < size {
        CountSplit(text, 1, (n - 1) * chunk + 1, End(size, chunk, n - 1) + 1, l);
      }
    }
  }

  /** Every class counted, the counts add up to the size of the file. */
  function AllCounts(text: seq<int>, i: nat, j: nat, n: nat): nat
    requires i <= j <= |text|
  {
    if n == 0 then 0 else AllCounts(text, i, j, n - 1) + Count(text, i, j, n - 1)
  }

  lemma {:induction false} CountsTotalFileSize(text: seq<int>, i: nat, j: nat)
    requires i <= j <= |text|
    ensures AllCounts(text, i, j, LETTERS) == j - i
  {
    if i == j {
      NothingCounted(text, i, LETTERS);
    } else {
      CountsTotalFileSize(text, i, j - 1);
      OneCounted(text, i, j, LETTERS);
    }
  }

  lemma {:induction false} NothingCounted(text: seq<int>, i: nat, n: nat)
    requires i <= |text|
    ensures AllCounts(text, i, i, n) == 0
  {
    if n > 0 {
      NothingCounted(text, i, n - 1);
    }
  }

  lemma {:induction false} OneCounted(text: seq<int>, i: nat, j: nat, n: nat)
    requires i < j <= |text|
    ensures AllCounts(text, i, j, n) == AllCounts(text, i, j - 1, n) + if CharOffset(text[j - 1]) < n then 1 else 0
  {
    OffsetIsClass(text[j - 1]);
    if n > 0 {
      OneCounted(text, i, j, n - 1);
    }
  }

  /** The loops count the EOF at the end in place of the first character: the counts are
      those of the file exactly if that character is no letter. */
  lemma CountsAreTheFilesExactly(text: seq<int>)
    requires |text| > 1 && text[|text| - 1] == EOF
    ensures (forall l | 0 <= l < LETTERS :: Count(text, 1, |text|, l) == Count(text, 0, |text| - 1, l))
            <==> !IsLetter(text[0])
  {
    var size := |text| - 1;
    forall l: nat
      ensures Count(text, 1, |text|, l) - (if l == 26 then 1 else 0)
              == Count(text, 0, size, l) - (if InClass(text[0], l) then 1 else 0)
    {
      CountSplit(text, 0, 1, size, l);
      assert Count(text, 0, 1, l) == Count(text, 0, 0, l) + if InClass(text[0], l) then 1 else 0;
    }
    if IsLetter(text[0]) {
      assert Count(text, 1, |text|, 26) != Count(text, 0, size, 26);
    }
  }

  /** map_reduce_seq, up to the merge of its private counts. */
  method MapReduceSeq(text: seq<int>, chunk: nat) returns (stats: array<nat>)
    requires |text| > 0 && chunk > 0
    ensures fresh(stats) && stats.Length == LETTERS
            && forall l | 0 <= l < LETTERS :: stats[l] == Count(text, 1, |text|, l)
  {
    stats := new nat[LETTERS](_ => 0);
    var ci := 0;
    while ci * chunk < |text| - 1
      invariant forall l | 0 <= l < LETTERS :: stats[l] == Chunks(text, chunk, ci, l)
      decreases |text| - 1 - ci * chunk
    {
      CountChunk(text, chunk, ci, stats);
      assert (ci + 1) * chunk == ci * chunk + chunk;
      ci := ci + 1;
    }
    forall l: nat | l < LETTERS ensures Chunks(text, chunk, ci, l) == Count(text, 1, |text|, l) {
      ChunksCount(text, chunk, ci, l);
    }
  }

  /** The counts of the chunks with these numbers. */
  function DrawnCount(text: seq<int>, chunk: nat, drawn: seq<int>, l: nat): nat
    requires |text| > 0
  {
    if drawn == [] then 0
    else
      var n := |drawn| - 1;
      DrawnCount(text, chunk, drawn[..n], l) + if drawn[n] >= 0 then ChunkCount(text, chunk, drawn[n], l) else 0
  }

  /** map_reduce, up to the merge of its private counts: the process draws chunk numbers until it
      gets one beyond the file. */
  method MapReduceLoop(text: seq<int>, chunk: nat, drawn: seq<nat>) returns (stats: array<nat>)
    requires |text| > 0 && chunk > 0 && |drawn| > 0 && drawn[|drawn| - 1] * chunk >= |text| - 1
    requires forall i | 0 <= i < |drawn| - 1 :: drawn[i] * chunk < |text| - 1
    ensures fresh(stats) && stats.Length == LETTERS
            && forall l | 0 <= l < LETTERS :: stats[l] == DrawnCount(text, chunk, drawn, l)
  {
    stats := new nat[LETTERS](_ => 0);
    var i, ci := 0, drawn[0];
    while ci * chunk < |text| - 1
      invariant i < |drawn| && ci == drawn[i]
      invariant forall l | 0 <= l < LETTERS :: stats[l] == DrawnCount(text, chunk, drawn[..i], l)
      decreases |drawn| - i
    {
      CountChunk(text, chunk, ci, stats);
      assert drawn[..i + 1][..i] == drawn[..i];
      i := i + 1;
      ci := drawn[i];
    }
    assert drawn[..|drawn| - 1] == drawn[..i];
  }

  // -------------------------------------------------------- shared counters

  function Total(ds: seq<int>): int {
    if ds == [] then 0 else Total(ds[..|ds| - 1]) + ds[|ds| - 1]
  }

  /** Committed attempt `k` added `ds[k]` to the cell `x`, as TX_LOAD_STORE does, or left it alone. */
  ghost predicate AddsUp(log: seq<Commit>, x: int, ds: seq<int>) {
    |ds| == |log| && forall k | 0 <= k < |log| :: Adds(log[k], x, ds[k])
  }

  ghost predicate Adds(t: Commit, x: int, d: int) {
    if Buffered(t.ws, x)
    then
      exists i :: 0 <= i < |t.seen| && t.seen[i].addr == x && WriteSet.Last(t.ws, x) == Some(Bank.Wrap(t.seen[i].val + d))
    else
      d == 0
  }

  ghost predicate ReadsAreSerial(init: map<int, int>, log: seq<Commit>) {
    forall i | 0 <= i < |log| :: ReadsMatch(log[i].seen, SerialMem(init, log[..i]))
  }

  lemma SerialPrefix(init: map<int, int>, log: seq<Commit>)
    requires log != [] && ReadsAreSerial(init, log)
    ensures ReadsAreSerial(init, log[..|log| - 1])
    ensures ReadsMatch(log[|log| - 1].seen, SerialMem(init, log[..|log| - 1]))
  {
    var before := log[..|log| - 1];
    forall i | 0 <= i < |before| ensures ReadsMatch(before[i].seen, SerialMem(init, before[..i])) {
      assert before[..i] == log[..i] && before[i] == log[i];
    }
  }

  lemma AddsPrefix(log: seq<Commit>, x: int, ds: seq<int>)
    requires log != [] && AddsUp(log, x, ds)
    ensures AddsUp(log[..|log| - 1], x, ds[..|log| - 1]) && Adds(log[|log| - 1], x, ds[|log| - 1])
  {
    var n := |log| - 1;
    forall k | 0 <= k < n ensures Adds(log[..n][k], x, ds[..n][k]) {
      assert Adds(log[k], x, ds[k]);
    }
  }

  /** However the additions are interleaved, none is lost. */
  lemma {:induction false} NothingIsLost(init: map<int, int>, log: seq<Commit>, x: int, ds: seq<int>)
    requires ReadsAreSerial(init, log) && AddsUp(log, x, ds) && Bank.IsInt32(Load(init, x))
    ensures Load(SerialMem(init, log), x) == Bank.Wrap(Load(init, x) + Total(ds))
  {
    if log != [] {
      var n := |log| - 1;
      SerialPrefix(init, log);
      AddsPrefix(log, x, ds);
      NothingIsLost(init, log[..n], x, ds[..n]);
      OneAddition(SerialMem(init, log[..n]), log[n], x, ds[n],
                  Load(init, x) + Total(ds[..n]), Load(init, x) + Total(ds));
    }
  }

  lemma OneAddition(m: map<int, int>, t: Commit, x: int, d: int, v: int, w: int)
    requires ReadsMatch(t.seen, m) && Adds(t, x, d) && Load(m, x) == Bank.Wrap(v) && w == v + d
    ensures Load(Store(m, t.ws), x) == Bank.Wrap(w)
  {
    if Buffered(t.ws, x) {
      var i :| 0 <= i < |t.seen| && t.seen[i].addr == x && WriteSet.Last(t.ws, x) == Some(Bank.Wrap(t.seen[i].val + d));
      WriteSet.CommitLeavesLast(m, t.ws, x);
      Bank.WrapWrap(v, d);
    } else {
      StoreElsewhere(m, t.ws, x);
    }
  }

  // ---------------------------------------------------------- chunk numbers

  /** get_next_chunk: the counter goes up by one, and the raw read after that still returns
      the old value, because the store is only buffered. */
  ghost predicate IsDraw(t: Commit, ctr: int) {
    && |t.seen| == 2 && t.seen[0].addr == ctr && t.seen[1].addr == ctr
    && t.ws == [Access(ctr, Bank.Wrap(t.seen[0].val + 1))]
  }

  /** Only get_next_chunk writes the counter. */
  ghost predicate CounterRun(log: seq<Commit>, ctr: int) {
    forall k | 0 <= k < |log| && Buffered(log[k].ws, ctr) :: IsDraw(log[k], ctr)
  }

  /** One for every draw. */
  function Draws(log: seq<Commit>, ctr: int): seq<int> {
    if log == [] then [] else Draws(log[..|log| - 1], ctr) + [if Buffered(log[|log| - 1].ws, ctr) then 1 else 0]
  }

  function Drawn(log: seq<Commit>, ctr: int): int { Total(Draws(log, ctr)) }

  lemma {:induction false} DrawsAddUp(log: seq<Commit>, ctr: int)
    requires CounterRun(log, ctr)
    ensures AddsUp(log, ctr, Draws(log, ctr)) && 0 <= Drawn(log, ctr)
  {
    if log != [] {
      var before, t, ds := log[..|log| - 1], log[|log| - 1], Draws(log, ctr);
      assert forall k | 0 <= k < |before| :: before[k] == log[k];
      DrawsAddUp(before, ctr);
      assert ds[..|ds| - 1] == Draws(before, ctr);
      if Buffered(t.ws, ctr) {
        assert IsDraw(t, ctr) && t.ws[..0] == [];
        assert WriteSet.Last(t.ws, ctr) == Some(Bank.Wrap(t.seen[0].val + 1));
      }
      forall k | 0 <= k < |log| ensures Adds(log[k], ctr, ds[k]) {
        if k < |before| {
          assert ds[k] == Draws(before, ctr)[k] && Adds(before[k], ctr, Draws(before, ctr)[k]);
        }
      }
    }
  }

  /** The draws return 0, 1, 2, ... in the order in which they commit: no number twice, none
      left out. */
  lemma DrawnInOrder(c: Config, s: State, ctr: int, k: nat)
    requires Reachable(c, s) && CounterRun(s.log, ctr) && Load(s.init, ctr) == 0
    requires k < |s.log| && IsDraw(s.log[k], ctr) && Drawn(s.log[..k], ctr) < Bank.TWO_TO_THE_31
    ensures s.log[k].seen[1].val == Drawn(s.log[..k], ctr)
    ensures Drawn(s.log[..k + 1], ctr) == Drawn(s.log[..k], ctr) + 1
  {
    AllSerializable(c, s);
    DrawIs(s.init, s.log, ctr, k);
  }

  lemma DrawIs(init: map<int, int>, log: seq<Commit>, ctr: int, k: nat)
    requires ReadsAreSerial(init, log) && CounterRun(log, ctr) && Load(init, ctr) == 0
    requires k < |log| && IsDraw(log[k], ctr) && Drawn(log[..k], ctr) < Bank.TWO_TO_THE_31
    ensures log[k].seen[1].val == Drawn(log[..k], ctr) >= 0
    ensures Drawn(log[..k + 1], ctr) == Drawn(log[..k], ctr) + 1
  {
    assert log[k].ws[0].addr == ctr;
    CounterIs(init, log, ctr, k);
    DrawCounts(log, ctr, k);
    assert ReadsMatch(log[k].seen, SerialMem(init, log[..k]));
  }

  lemma CounterIs(init: map<int, int>, log: seq<Commit>, ctr: int, k: nat)
    requires ReadsAreSerial(init, log) && CounterRun(log, ctr) && Load(init, ctr) == 0
    requires k <= |log| && Drawn(log[..k], ctr) < Bank.TWO_TO_THE_31
    ensures Load(SerialMem(init, log[..k]), ctr) == Drawn(log[..k], ctr) >= 0
  {
    PrefixRun(init, log, ctr, k);
    DrawsAddUp(log[..k], ctr);
    NothingIsLost(init, log[..k], ctr, Draws(log[..k], ctr));
  }

  lemma PrefixRun(init: map<int, int>, log: seq<Commit>, ctr: int, k: nat)
    requires ReadsAreSerial(init, log) && CounterRun(log, ctr) && k <= |log|
    ensures ReadsAreSerial(init, log[..k]) && CounterRun(log[..k], ctr)
  {
    assert forall i | 0 <= i < k :: log[..k][i] == log[i] && log[..k][..i] == log[..i];
  }

  lemma DrawCounts(log: seq<Commit>, ctr: int, k: nat)
    requires k < |log|
    ensures Drawn(log[..k + 1], ctr) == Drawn(log[..k], ctr) + if Buffered(log[k].ws, ctr) then 1 else 0
  {
    assert log[..k + 1][..k] == log[..k] && log[..k + 1][k] == log[k];
    var ds := Draws(log[..k + 1], ctr);
    assert ds[..|ds| - 1] == Draws(log[..k], ctr);
  }

  // -------------------------------------------------- parallel = sequential

  /** What process `p` contributes to a sum over the committed attempts. */
  function Of(log: seq<Commit>, ds: seq<int>, p: nat): int
    requires |ds| == |log|
  {
    if log == [] then 0
    else Of(log[..|log| - 1], ds[..|log| - 1], p) + if log[|log| - 1].node == p then ds[|log| - 1] else 0
  }

  function OfAll(log: seq<Commit>, ds: seq<int>, n: nat): int
    requires |ds| == |log|
  {
    if n == 0 then 0 else OfAll(log, ds, n - 1) + Of(log, ds, n - 1)
  }

  lemma {:induction false} ByProcess(log: seq<Commit>, ds: seq<int>, n: nat)
    requires |ds| == |log| && forall k | 0 <= k < |log| :: log[k].node < n
    ensures OfAll(log, ds, n) == Total(ds)
  {
    if log == [] {
      NoContribution(n);
    } else {
      var before := log[..|log| - 1];
      assert forall k | 0 <= k < |before| :: before[k] == log[k];
      ByProcess(before, ds[..|log| - 1], n);
      LastContribution(log, ds, n);
    }
  }

  lemma {:induction false} NoContribution(n: nat)
    ensures OfAll([], [], n) == 0
  {
    if n > 0 {
      NoContribution(n - 1);
    }
  }

  lemma {:induction false} LastContribution(log: seq<Commit>, ds: seq<int>, n: nat)
    requires |ds| == |log| > 0
    ensures OfAll(log, ds, n) ==
            OfAll(log[..|log| - 1], ds[..|log| - 1], n) + if log[|log| - 1].node < n then ds[|log| - 1] else 0
  {
    if n > 0 {
      LastContribution(log, ds, n - 1);
    }
  }

  lemma {:induction false} SameContributions(log: seq<Commit>, ds: seq<int>, es: seq<int>, n: nat)
    requires |ds| == |es| == |log| && forall p | 0 <= p < n :: Of(log, ds, p) == Of(log, es, p)
    ensures OfAll(log, ds, n) == OfAll(log, es, n)
  {
    if n > 0 {
      SameContributions(log, ds, es, n - 1);
    }
  }

  /** For every draw, the occurrences of class `l` in the chunk that was drawn. */
  function Counted(log: seq<Commit>, ctr: int, text: seq<int>, chunk: nat, l: nat): (r: seq<int>)
    requires |text| > 0
    ensures |r| == |log|
  {
    if log == [] then []
    else
      var t := log[|log| - 1];
      Counted(log[..|log| - 1], ctr, text, chunk, l) +
      [if Buffered(t.ws, ctr) && |t.seen| == 2 && t.seen[1].val >= 0
       then ChunkCount(text, chunk, t.seen[1].val, l) else 0]
  }

  /** The chunk numbers that process `p` has drawn. */
  function Mine(log: seq<Commit>, ctr: int, p: nat): seq<int> {
    if log == [] then []
    else
      var t := log[|log| - 1];
      Mine(log[..|log| - 1], ctr, p) +
      if t.node == p && Buffered(t.ws, ctr) && |t.seen| == 2 then [t.seen[1].val] else []
  }

  lemma {:induction false} MineIsCounted(log: seq<Commit>, ctr: int, text: seq<int>, chunk: nat, l: nat, p: nat)
    requires |text| > 0
    ensures Of(log, Counted(log, ctr, text, chunk, l), p) == DrawnCount(text, chunk, Mine(log, ctr, p), l)
  {
    if log != [] {
      var n, cs, mine := |log| - 1, Counted(log, ctr, text, chunk, l), Mine(log, ctr, p);
      MineIsCounted(log[..n], ctr, text, chunk, l, p);
      assert cs[..n] == Counted(log[..n], ctr, text, chunk, l);
      if mine != Mine(log[..n], ctr, p) {
        assert mine[..|mine| - 1] == Mine(log[..n], ctr, p);
      }
    }
  }

  lemma {:induction false} CountedIsChunks(init: map<int, int>, log: seq<Commit>, ctr: int, text: seq<int>,
                                           chunk: nat, l: nat)
    requires |text| > 0 && ReadsAreSerial(init, log) && CounterRun(log, ctr) && Load(init, ctr) == 0
    requires Drawn(log, ctr) <= Bank.TWO_TO_THE_31
    ensures Drawn(log, ctr) >= 0 && Total(Counted(log, ctr, text, chunk, l)) == Chunks(text, chunk, Drawn(log, ctr), l)
  {
    DrawsAddUp(log, ctr);
    if log != [] {
      var n := |log| - 1;
      var cs := Counted(log, ctr, text, chunk, l);
      assert cs[..n] == Counted(log[..n], ctr, text, chunk, l);
      SerialPrefix(init, log);
      CounterPrefix(log, ctr);
      DrawCounts(log, ctr, n);
      assert log[..n + 1] == log;
      CountedIsChunks(init, log[..n], ctr, text, chunk, l);
      if Buffered(log[n].ws, ctr) {
        DrawIs(init, log, ctr, n);
      }
    }
  }

  lemma CounterPrefix(log: seq<Commit>, ctr: int)
    requires log != [] && CounterRun(log, ctr)
    ensures CounterRun(log[..|log| - 1], ctr) && (Buffered(log[|log| - 1].ws, ctr) ==> IsDraw(log[|log| - 1], ctr))
  {
    var before := log[..|log| - 1];
    assert forall k | 0 <= k < |before| :: before[k] == log[k];
  }

  lemma {:induction false} CommittersExist(c: Config, states: seq<State>, steps: seq<Step>, i: nat)
    requires IsTrace(c, states, steps) && i <= |steps| && states[0].log == []
    ensures forall k | 0 <= k < |states[i].log| :: states[i].log[k].node < c.apps
  {
    if i > 0 {
      CommittersExist(c, states, steps, i - 1);
      assert StepAt(c, states, steps, i - 1);
      LogStep(c, states[i - 1], steps[i - 1], states[i]);
    }
  }

  /** Whichever process draws which chunk and whatever aborts and is retried: once some
      process has drawn a number beyond the file and every process has added what its loop counts
      for the numbers it has drawn, the shared count is what the sequential loop counts. */
  lemma ParallelIsSequential(c: Config, s: State, ctr: int, x: int, ds: seq<int>, text: seq<int>, chunk: nat, l: nat)
    requires Reachable(c, s) && |text| > 0 && chunk > 0
    requires CounterRun(s.log, ctr) && Load(s.init, ctr) == 0 && Drawn(s.log, ctr) <= Bank.TWO_TO_THE_31
    requires AddsUp(s.log, x, ds) && Load(s.init, x) == 0
    requires forall p | 0 <= p < c.apps :: Of(s.log, ds, p) == DrawnCount(text, chunk, Mine(s.log, ctr, p), l)
    requires exists k :: 0 <= k < |s.log| && IsDraw(s.log[k], ctr) && s.log[k].seen[1].val * chunk >= |text| - 1
    ensures Load(Serial(s), x) == Bank.Wrap(Count(text, 1, |text|, l))
  {
    AllSerializable(c, s);
    var states, steps :| IsTrace(c, states, steps) && Init(c, states[0]) && s == states[|steps|];
    CommittersExist(c, states, steps, |steps|);
    forall p | 0 <= p < c.apps ensures Of(s.log, ds, p) == Of(s.log, Counted(s.log, ctr, text, chunk, l), p) {
      MineIsCounted(s.log, ctr, text, chunk, l, p);
    }
    AddedIsCounted(s.init, s.log, c.apps, ctr, x, ds, text, chunk, l);
  }

  lemma AddedIsCounted(init: map<int, int>, log: seq<Commit>, n: nat, ctr: int, x: int, ds: seq<int>, text: seq<int>,
                       chunk: nat, l: nat)
    requires ReadsAreSerial(init, log) && (forall k | 0 <= k < |log| :: log[k].node < n) && |text| > 0 && chunk > 0
    requires CounterRun(log, ctr) && Load(init, ctr) == 0 && Drawn(log, ctr) <= Bank.TWO_TO_THE_31
    requires AddsUp(log, x, ds) && Load(init, x) == 0
    requires forall p | 0 <= p < n :: Of(log, ds, p) == Of(log, Counted(log, ctr, text, chunk, l), p)
    requires exists k :: 0 <= k < |log| && IsDraw(log[k], ctr) && log[k].seen[1].val * chunk >= |text| - 1
    ensures Load(SerialMem(init, log), x) == Bank.Wrap(Count(text, 1, |text|, l))
  {
    NothingIsLost(init, log, x, ds);
    ByProcess(log, ds, n);
    ByProcess(log, Counted(log, ctr, text, chunk, l), n);
    SameContributions(log, ds, Counted(log, ctr, text, chunk, l), n);
    CountedIsChunks(init, log, ctr, text, chunk, l);
    WholeFileDrawn(init, log, ctr, text, chunk);
    ChunksCount(text, chunk, Drawn(log, ctr), l);
  }

  /** If a number beyond the file was drawn, all numbers within it were. */
  lemma WholeFileDrawn(init: map<int, int>, log: seq<Commit>, ctr: int, text: seq<int>, chunk: nat)
    requires ReadsAreSerial(init, log) && |text| > 0
    requires CounterRun(log, ctr) && Load(init, ctr) == 0 && Drawn(log, ctr) <= Bank.TWO_TO_THE_31
    requires exists k :: 0 <= k < |log| && IsDraw(log[k], ctr) && log[k].seen[1].val * chunk >= |text| - 1
    ensures Drawn(log, ctr) * chunk >= |text| - 1
  {
    var k :| 0 <= k < |log| && IsDraw(log[k], ctr) && log[k].seen[1].val * chunk >= |text| - 1;
    assert Buffered(log[k].ws, ctr) by {
      assert log[k].ws[0].addr == ctr;
    }
    DrawCounts(log, ctr, k);
    DrawnGrows(log, ctr, k + 1);
    DrawIs(init, log, ctr, k);
    LargerTimes(log[k].seen[1].val, Drawn(log, ctr), chunk);
  }

  lemma LargerTimes(a: int, b: int, c: nat)
    requires a <= b
    ensures a * c <= b * c
  {
  }

  lemma {:induction false} DrawnGrows(log: seq<Commit>, ctr: int, k: nat)
    requires k <= |log|
    ensures Drawn(log[..k], ctr) <= Drawn(log, ctr)
  {
    if k < |log| {
      var before, ds := log[..|log| - 1], Draws(log, ctr);
      assert ds[..|ds| - 1] == Draws(before, ctr) && before[..k] == log[..k];
      DrawnGrows(before, ctr, k);
    } else {
      assert log[..k] == log;
    }
  }
}
