/** The bank benchmark: transfers and balance checks as transactions over the protocol. */
module Bank {
  import opened Locks
  import opened Protocol
  import opened Serializability
  import opened Theorems

  const TWO_TO_THE_32: int := 0x1_0000_0000
  const TWO_TO_THE_31: int := 0x8000_0000

  predicate IsInt32(n: int) { -TWO_TO_THE_31 <= n < TWO_TO_THE_31 }

  /** Two's-complement wrap-around of a 32-bit int. */
  function Wrap(n: int): int
    decreases if n < 0 then -n else n + 1
  {
    if IsInt32(n) then n
    else if n < 0 then Wrap(n + TWO_TO_THE_32)
    else Wrap(n - TWO_TO_THE_32)
  }

  lemma {:induction false} WrapIs(n: int) returns (q: int)
    ensures IsInt32(Wrap(n)) && Wrap(n) == n + q * TWO_TO_THE_32
    decreases if n < 0 then -n else n + 1
  {
    if IsInt32(n) {
      q := 0;
    } else if n < 0 {
      q := WrapIs(n + TWO_TO_THE_32);
      q := q + 1;
    } else {
      q := WrapIs(n - TWO_TO_THE_32);
      q := q - 1;
    }
  }

  /** Numbers wrap to the same value exactly if they differ by a multiple of 2 to the 32; what fits
      a signed int stays. */
  lemma WrapExactly(a: int, b: int)
    ensures Wrap(a) == Wrap(b) <==> (a - b) % 4294967296 == 0
    ensures -2147483648 <= Wrap(a) <= 2147483647 && (-2147483648 <= a <= 2147483647 ==> Wrap(a) == a)
  {
    var q := WrapIs(a);
    var r := WrapIs(b);
    var k := (a - b) / TWO_TO_THE_32;
    assert a - b == k * TWO_TO_THE_32 + (a - b) % TWO_TO_THE_32;
    if Wrap(a) == Wrap(b) {
      Multiple(a - b, r - q);
    }
    if (a - b) % TWO_TO_THE_32 == 0 {
      assert Wrap(a) - Wrap(b) == (k + q - r) * TWO_TO_THE_32;
    }
  }

  lemma Multiple(n: int, k: int)
    requires n == k * TWO_TO_THE_32
    ensures n % TWO_TO_THE_32 == 0
  {
  }

  lemma WrapWrap(a: int, b: int)
    ensures Wrap(Wrap(a) + b) == Wrap(a + b)
  {
    var q := WrapIs(a);
    Multiple(Wrap(a) + b - (a + b), q);
    WrapExactly(Wrap(a) + b, a + b);
  }

  // ------------------------------------------------------------- balances

  /** The true sum of the balances at `accounts`. */
  function Sum(m: map<int, int>, accounts: seq<int>): int {
    if accounts == [] then 0
    else Sum(m, accounts[..|accounts| - 1]) + Load(m, accounts[|accounts| - 1])
  }

  /** That of one account is its balance, that of more what their parts have together. */
  lemma {:induction false} SumSplits(m: map<int, int>, xs: seq<int>, x: int, ys: seq<int>)
    ensures Sum(m, [x]) == Load(m, x)
    ensures Sum(m, xs + ys) == Sum(m, xs) + Sum(m, ys)
  {
    assert [x][..0] == [];
    if ys == [] {
      assert xs + ys == xs;
    } else {
      var n := |ys| - 1;
      SumSplits(m, xs, x, ys[..n]);
      assert (xs + ys)[..|xs + ys| - 1] == xs + ys[..n];
    }
  }

  ghost predicate NoRepeat(xs: seq<int>) { forall i, j | 0 <= i < j < |xs| :: xs[i] != xs[j] }

  lemma {:induction false} SumElsewhere(m: map<int, int>, accounts: seq<int>, x: int, v: int)
    requires x !in accounts
    ensures Sum(m[x := v], accounts) == Sum(m, accounts)
  {
    if accounts != [] {
      SumElsewhere(m, accounts[..|accounts| - 1], x, v);
    }
  }

  /** One balance set: the sum changes by the difference. */
  lemma {:induction false} SumUpdated(m: map<int, int>, accounts: seq<int>, x: int, v: int)
    requires NoRepeat(accounts) && x in accounts
    ensures Sum(m[x := v], accounts) == Sum(m, accounts) - Load(m, x) + v
  {
    var before, last := accounts[..|accounts| - 1], accounts[|accounts| - 1];
    if last == x {
      SumElsewhere(m, before, x, v);
    } else {
      SumUpdated(m, before, x, v);
    }
  }

  /** Two balances as an int32 shows them differ by `d`. */
  predicate DiffersBy(after: int, before: int, d: int) {
    IsInt32(after) && (after - before - d) % TWO_TO_THE_32 == 0
  }

  lemma WrapDiffers(before: int, d: int)
    ensures DiffersBy(Wrap(before + d), before, d) && (IsInt32(before + d) ==> Wrap(before + d) == before + d)
  {
    var q := WrapIs(before + d);
    Multiple(Wrap(before + d) - before - d, q);
  }

  /** transfer with TX_LOAD_STORE: both balances are read raw under their write locks. */
  function TransferWrites(m: map<int, int>, src: int, dst: int, amount: int): seq<Access> {
    [Access(src, Wrap(Load(m, src) - amount)), Access(dst, Wrap(Load(m, dst) + amount))]
  }

  /** A transfer keeps the 32-bit sum of the balances exactly if the accounts differ or the
      amount is nothing in 32 bits. */
  lemma TransferKeepsSumExactly(m: map<int, int>, accounts: seq<int>, src: int, dst: int, amount: int)
    requires NoRepeat(accounts) && src in accounts && dst in accounts
    ensures Wrap(Sum(Store(m, TransferWrites(m, src, dst, amount)), accounts)) == Wrap(Sum(m, accounts))
            <==> src != dst || amount % TWO_TO_THE_32 == 0
  {
    var v, w := Wrap(Load(m, src) - amount), Wrap(Load(m, dst) + amount);
    var ws := TransferWrites(m, src, dst, amount);
    StoreBoth(m, ws);
    SumUpdated(m, accounts, src, v);
    SumUpdated(m[src := v], accounts, dst, w);
    TransferArithmetic(Load(m, src), Load(m, dst), amount, src == dst, Sum(m, accounts), Sum(Store(m, ws), accounts));
  }

  lemma TransferArithmetic(x: int, y: int, amount: int, same: bool, before: int, after: int)
    requires same ==> x == y
    requires after == before - x + Wrap(x - amount) - (if same then Wrap(x - amount) else y) + Wrap(y + amount)
    ensures Wrap(after) == Wrap(before) <==> !same || amount % TWO_TO_THE_32 == 0
  {
    var q := WrapIs(x - amount);
    var r := WrapIs(y + amount);
    WrapExactly(after, before);
    if same {
      assert after - before == amount + r * TWO_TO_THE_32;
      PlusMultiple(amount, r);
    } else {
      Multiple(after - before, q + r);
    }
  }

  lemma PlusMultiple(n: int, k: int)
    ensures (n + k * TWO_TO_THE_32) % TWO_TO_THE_32 == n % TWO_TO_THE_32
  {
  }

  /** A transfer between two accounts takes the amount from the first, gives it to the second and
      leaves everything else alone. */
  lemma TransferMoves(m: map<int, int>, src: int, dst: int, amount: int)
    requires src != dst
    ensures var m' := Store(m, TransferWrites(m, src, dst, amount));
            && DiffersBy(Load(m', src), Load(m, src), -amount) && DiffersBy(Load(m', dst), Load(m, dst), amount)
            && forall x | x != src && x != dst :: Load(m', x) == Load(m, x)
  {
    StoreBoth(m, TransferWrites(m, src, dst, amount));
    WrapDiffers(Load(m, src), -amount);
    WrapDiffers(Load(m, dst), amount);
  }

  lemma StoreBoth(m: map<int, int>, ws: seq<Access>)
    requires |ws| == 2
    ensures Store(m, ws) == m[ws[0].addr := ws[0].val][ws[1].addr := ws[1].val]
  {
    assert ws[..1] == [ws[0]] && ws[..1][..0] == [];
    assert Store(m, ws[..1]) == m[ws[0].addr := ws[0].val];
  }

  /** test() draws two accounts out of `n` and moves `dst` on if they are the same; with a
      power of two as `n` the mask does what the modulus does. */
  function Destination(src: nat, drawn: nat, n: nat): nat
    requires n > 0
  {
    if drawn == src then (src + 1) % n else drawn
  }

  /** That makes them different exactly if there are two accounts to choose from. */
  lemma DestinationDiffersExactly(n: nat)
    requires n > 0
    ensures (forall src: nat, drawn: nat | src < n && drawn < n :: Destination(src, drawn, n) != src) <==> n >= 2
    ensures forall src: nat, drawn: nat | src < n && drawn < n ::
              Destination(src, drawn, n) < n && (drawn != src ==> Destination(src, drawn, n) == drawn)
  {
    if n == 1 {
      assert Destination(0, 0, n) == 0;
    }
  }

  // --------------------------------------------------------- transactions

  /** What a committed attempt of transfer looks like ... */
  ghost predicate IsTransfer(t: Commit, src: int, dst: int, amount: int) {
    && |t.seen| == 2 && t.seen[0].addr == src && t.seen[1].addr == dst
    && t.ws == [Access(src, Wrap(t.seen[0].val - amount)), Access(dst, Wrap(t.seen[1].val + amount))]
  }

  /** transfer, run on memory `m` up to its commit. */
  method Transfer(m: map<int, int>, self: nat, src: int, dst: int, amount: int) returns (t: Commit)
    ensures IsTransfer(t, src, dst, amount) && t.node == self && !t.plain && ReadsMatch(t.seen, m)
    ensures src != dst ==>
              var m' := Store(m, t.ws);
              && DiffersBy(Load(m', src), Load(m, src), -amount) && DiffersBy(Load(m', dst), Load(m, dst), amount)
              && forall x | x != src && x != dst :: Load(m', x) == Load(m, x)
  {
    var i := Load(m, src);
    var ws := [Access(src, Wrap(i - amount))];
    var j := Load(m, dst);
    ws := ws + [Access(dst, Wrap(j + amount))];
    t := Commit(self, false, [Access(src, i), Access(dst, j)], [], ws);
    if src != dst {
      CommittedTransferMoves(m, t, src, dst, amount);
    }
  }

  /** So does every committed attempt of it. */
  lemma CommittedTransferMoves(m: map<int, int>, t: Commit, src: int, dst: int, amount: int)
    requires IsTransfer(t, src, dst, amount) && ReadsMatch(t.seen, m) && src != dst
    ensures var m' := Store(m, t.ws);
            && DiffersBy(Load(m', src), Load(m, src), -amount) && DiffersBy(Load(m', dst), Load(m, dst), amount)
            && forall x | x != src && x != dst :: Load(m', x) == Load(m, x)
  {
    assert t.ws == TransferWrites(m, src, dst, amount);
    TransferMoves(m, src, dst, amount);
  }

  /** ... and one of total or check_accs, which store nothing. */
  ghost predicate IsTotal(t: Commit, accounts: seq<int>) {
    && t.ws == [] && |t.seen| == |accounts|
    && forall i | 0 <= i < |accounts| :: t.seen[i].addr == accounts[i]
  }

  predicate Elsewhere(ws: seq<Access>, accounts: seq<int>) {
    forall j | 0 <= j < |ws| :: ws[j].addr !in accounts
  }

  /** Every transaction of the run moves money between two different accounts or stores to none. */
  ghost predicate BankRun(log: seq<Commit>, accounts: seq<int>) {
    forall k | 0 <= k < |log| ::
      Elsewhere(log[k].ws, accounts) ||
      exists src, dst, amount :: IsTransfer(log[k], src, dst, amount) && src in accounts && dst in accounts
          && src != dst
  }

  /** The loop of total: what an attempt that read `seen` returns. */
  method TotalOf(seen: seq<Access>) returns (total: int)
    ensures total == Wrap(SumSeen(seen))
  {
    total := 0;
    var i := 0;
    while i < |seen|
      invariant i <= |seen| && total == Wrap(SumSeen(seen[..i]))
    {
      assert seen[..i + 1][..i] == seen[..i];
      WrapWrap(SumSeen(seen[..i]), seen[i].val);
      total := Wrap(total + seen[i].val);
      i := i + 1;
    }
    assert seen[..i] == seen;
  }

  function SumSeen(seen: seq<Access>): int {
    if seen == [] then 0 else SumSeen(seen[..|seen| - 1]) + seen[|seen| - 1].val
  }

  lemma {:induction false} SumOfReads(m: map<int, int>, seen: seq<Access>, accounts: seq<int>)
    requires |seen| == |accounts| && ReadsMatch(seen, m) && forall i | 0 <= i < |seen| :: seen[i].addr == accounts[i]
    ensures SumSeen(seen) == Sum(m, accounts)
  {
    if seen != [] {
      SumOfReads(m, seen[..|seen| - 1], accounts[..|accounts| - 1]);
    }
  }

  // --------------------------------------------------------------- ledger

  datatype Booking = Booking(src: int, dst: int, amount: int)

  /** What every commit of the run did to the accounts. */
  ghost predicate IsLedger(log: seq<Commit>, accounts: seq<int>, ledger: seq<Option<Booking>>) {
    |ledger| == |log| && forall k | 0 <= k < |log| ::
      match ledger[k]
      case None => Elsewhere(log[k].ws, accounts)
      case Some(b) => IsTransfer(log[k], b.src, b.dst, b.amount) && b.src != b.dst
  }

  /** All that account `x` has received, less all it has paid. */
  function Booked(ledger: seq<Option<Booking>>, x: int): int {
    if ledger == [] then 0
    else
      Booked(ledger[..|ledger| - 1], x) +
      match ledger[|ledger| - 1]
      case None => 0
      case Some(b) => (if b.dst == x then b.amount else 0) - if b.src == x then b.amount else 0
  }

  lemma OneBooking(m: map<int, int>, t: Commit, accounts: seq<int>, b: Option<Booking>, x: int)
    requires ReadsMatch(t.seen, m) && IsLedger([t], accounts, [b]) && x in accounts
    ensures Wrap(Load(Store(m, t.ws), x)) == Wrap(Load(m, x) + Booked([b], x))
  {
    assert [b][..0] == [] && IsLedger([t], accounts, [b]) && [t][0] == t && [b][0] == b;
    match b
    case None => StoreElsewhere(m, t.ws, x);
    case Some(k) =>
      CommittedTransferMoves(m, t, k.src, k.dst, k.amount);
      WrapExactly(Load(Store(m, t.ws), x), Load(m, x) + Booked([b], x));
  }

  lemma LedgerGrows(ledger: seq<Option<Booking>>, k: nat, x: int)
    requires k < |ledger|
    ensures Booked(ledger[..k + 1], x) == Booked(ledger[..k], x) + Booked([ledger[k]], x)
  {
    assert ledger[..k + 1][..k] == ledger[..k] && [ledger[k]][..0] == [];
  }

  lemma BookedStep(init: map<int, int>, log: seq<Commit>, accounts: seq<int>, ledger: seq<Option<Booking>>, x: int,
                   k: nat)
    requires IsLedger(log, accounts, ledger) && x in accounts && k < |log|
    requires ReadsMatch(log[k].seen, SerialMem(init, log[..k]))
    ensures Wrap(Load(SerialMem(init, log[..k + 1]), x)) ==
            Wrap(Load(SerialMem(init, log[..k]), x) + Booked([ledger[k]], x))
  {
    assert log[..k + 1][..k] == log[..k];
    OneBooking(SerialMem(init, log[..k]), log[k], accounts, ledger[k], x);
  }

  lemma WrapMore(a: int, b: int, d: int, after: int)
    requires Wrap(a) == Wrap(b) && Wrap(after) == Wrap(a + d)
    ensures Wrap(after) == Wrap(b + d)
  {
    WrapWrap(a, d);
    WrapWrap(b, d);
  }

  lemma {:induction false} BookedSoFar(s: State, accounts: seq<int>, ledger: seq<Option<Booking>>, x: int, k: nat)
    requires CommittedReadsSerial(s) && IsLedger(s.log, accounts, ledger) && x in accounts && k <= |s.log|
    ensures Wrap(Load(SerialMem(s.init, s.log[..k]), x)) == Wrap(Load(s.init, x) + Booked(ledger[..k], x))
  {
    if k > 0 {
      BookedSoFar(s, accounts, ledger, x, k - 1);
      BookedStep(s.init, s.log, accounts, ledger, x, k - 1);
      LedgerGrows(ledger, k - 1, x);
      WrapMore(Load(SerialMem(s.init, s.log[..k - 1]), x), Load(s.init, x) + Booked(ledger[..k - 1], x),
               Booked([ledger[k - 1]], x), Load(SerialMem(s.init, s.log[..k]), x));
    }
  }

  /** However transfers are interleaved, and whatever aborts: every single balance is what it was at
      the beginning plus all that the committed transfers have brought and less all they have taken. */
  lemma BalanceIsBooked(c: Config, s: State, accounts: seq<int>, ledger: seq<Option<Booking>>, x: int, k: nat)
    requires Reachable(c, s) && IsLedger(s.log, accounts, ledger) && x in accounts && k <= |s.log|
    ensures Wrap(Load(SerialMem(s.init, s.log[..k]), x)) == Wrap(Load(s.init, x) + Booked(ledger[..k], x))
  {
    AllSerializable(c, s);
    BookedSoFar(s, accounts, ledger, x, k);
  }

  // -------------------------------------------------------------- results

  lemma {:induction false} ConservedSoFar(init: map<int, int>, log: seq<Commit>, accounts: seq<int>, k: nat)
    requires NoRepeat(accounts) && BankRun(log, accounts) && k <= |log|
    requires forall i | 0 <= i < |log| :: ReadsMatch(log[i].seen, SerialMem(init, log[..i]))
    ensures Wrap(Sum(SerialMem(init, log[..k]), accounts)) == Wrap(Sum(init, accounts))
  {
    if k > 0 {
      ConservedSoFar(init, log, accounts, k - 1);
      assert log[..k][..k - 1] == log[..k - 1];
      OneTransaction(SerialMem(init, log[..k - 1]), log[k - 1], accounts);
    }
  }

  lemma {:induction false} StoredElsewhere(m: map<int, int>, ws: seq<Access>, accounts: seq<int>)
    requires Elsewhere(ws, accounts)
    ensures Sum(Store(m, ws), accounts) == Sum(m, accounts)
  {
    if ws != [] {
      var n := |ws| - 1;
      StoredElsewhere(m, ws[..n], accounts);
      SumElsewhere(Store(m, ws[..n]), accounts, ws[n].addr, ws[n].val);
    }
  }

  lemma OneTransaction(m: map<int, int>, t: Commit, accounts: seq<int>)
    requires NoRepeat(accounts) && ReadsMatch(t.seen, m)
    requires Elsewhere(t.ws, accounts) ||
             exists src, dst, amount :: IsTransfer(t, src, dst, amount) && src in accounts && dst in accounts
                 && src != dst
    ensures Wrap(Sum(Store(m, t.ws), accounts)) == Wrap(Sum(m, accounts))
  {
    if Elsewhere(t.ws, accounts) {
      StoredElsewhere(m, t.ws, accounts);
    } else {
      var src, dst, amount :| IsTransfer(t, src, dst, amount) && src in accounts && dst in accounts && src != dst;
      TransferKeepsSumExactly(m, accounts, src, dst, amount);
    }
  }

  /** However transfers, checks and totals are interleaved, and whatever aborts, the 32-bit
      sum of the balances after any number of commits is the one at the beginning. */
  lemma MoneyIsConserved(c: Config, s: State, accounts: seq<int>, k: nat)
    requires Reachable(c, s) && NoRepeat(accounts) && BankRun(s.log, accounts) && k <= |s.log|
    ensures Wrap(Sum(SerialMem(s.init, s.log[..k]), accounts)) == Wrap(Sum(s.init, accounts))
  {
    AllSerializable(c, s);
    ConservedSoFar(s.init, s.log, accounts, k);
  }

  /** Every committed total returns it ... */
  lemma TotalsAgree(c: Config, s: State, accounts: seq<int>, k: nat)
    requires Reachable(c, s) && NoRepeat(accounts) && BankRun(s.log, accounts)
    requires k < |s.log| && IsTotal(s.log[k], accounts)
    ensures Wrap(SumSeen(s.log[k].seen)) == Wrap(Sum(s.init, accounts))
  {
    AllSerializable(c, s);
    MoneyIsConserved(c, s, accounts, k);
    SumOfReads(SerialMem(s.init, s.log[..k]), s.log[k].seen, accounts);
  }

  /** ... and so does the memory itself whenever nobody is storing. */
  lemma BalancesAgree(c: Config, s: State, accounts: seq<int>)
    requires Reachable(c, s) && NoRepeat(accounts) && BankRun(s.log, accounts)
    requires forall a | 0 <= a < c.apps :: !s.apps[a].pc.Persisting?
    ensures Wrap(Sum(s.mem, accounts)) == Wrap(Sum(s.init, accounts))
  {
    MoneyIsConserved(c, s, accounts, |s.log|);
    assert s.log[..|s.log|] == s.log;
    forall x ensures Load(s.mem, x) == Load(SerialMem(s.init, s.log), x) {
      QuiescentMemory(c, s, x);
    }
    SameSum(s.mem, SerialMem(s.init, s.log), accounts);
  }

  lemma {:induction false} SameSum(m: map<int, int>, n: map<int, int>, accounts: seq<int>)
    requires forall x :: Load(m, x) == Load(n, x)
    ensures Sum(m, accounts) == Sum(n, accounts)
  {
    if accounts != [] {
      SameSum(m, n, accounts[..|accounts| - 1]);
    }
  }
}
