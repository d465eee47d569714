/**
 * The value-level parts of `InMemoryAccounting`: the per-account holder, the
 * filter `getAccountLog` applies to the transfer log, the totals in which
 * conservation of money is stated, and the step of a transfer that rebuilds
 * the two borrowed accounts.
 */
module Ledger {

  import opened Wrappers
  import opened JavaLang
  import opened Accounts
  import opened Transfers
  import opened Accounting

  /**
   * `AccountHolder`: the slot holding the account's current value, `None`
   * while some operation has borrowed it, and the `deleted` flag.
   */
  datatype Holder = Holder(slot: Option<Account>, deleted: bool)

  /** Account `id` exists and has not been removed. */
  predicate Live(m: map<int, Holder>, id: int)
  {
    id in m && !m[id].deleted
  }

  /**
   * From holders `m0` to holders `m1` no id disappears and no removal is
   * undone: a holder, once stored, stays, and its `deleted` flag is never
   * cleared.
   */
  ghost predicate RemovalsKept(m0: map<int, Holder>, m1: map<int, Holder>)
  {
    forall k :: k in m0 ==> k in m1 && (m0[k].deleted ==> m1[k].deleted)
  }

  /** Keeping removals composes, so it holds over any run of operations. */
  lemma RemovalsKeptTransitive(m0: map<int, Holder>, m1: map<int, Holder>, m2: map<int, Holder>)
    requires RemovalsKept(m0, m1) && RemovalsKept(m1, m2)
    ensures RemovalsKept(m0, m2)
  {
  }

  /** The filter of `getAccountLog`: the transfer debits or credits account `id`. */
  predicate Touches(t: Transfer, id: int)
  {
    t.dstId == id || t.srcId == id
  }

  /** The entries of `log` that touch account `id`, in log order. */
  function Related(log: seq<Transfer>, id: int): (r: seq<Transfer>)
    ensures |r| <= |log|
    ensures forall t :: t in r ==> t in log && Touches(t, id)
    decreases |log|
  {
    if log == [] then []
    else
      var last := log[|log| - 1];
      Related(log[..|log| - 1], id) + (if Touches(last, id) then [last] else [])
  }

  /** No entry touching the account is lost by the filter. */
  lemma {:induction false} RelatedComplete(log: seq<Transfer>, id: int, t: Transfer)
    requires t in log && Touches(t, id)
    ensures t in Related(log, id)
    decreases |log|
  {
    var last := log[|log| - 1];
    if t != last {
      assert log == log[..|log| - 1] + [last];
      RelatedComplete(log[..|log| - 1], id, t);
    }
  }

  /**
   * Filtering commutes with appending: the related entries of a log are those of
   * its first part followed by those of its second, so insertion order is kept.
   */
  lemma {:induction false} RelatedAppend(a: seq<Transfer>, b: seq<Transfer>, id: int)
    ensures Related(a + b, id) == Related(a, id) + Related(b, id)
    decreases |b|
  {
    if b == [] {
      assert a + b == a;
    } else {
      var init := b[..|b| - 1];
      assert (a + b)[..|a + b| - 1] == a + init;
      RelatedAppend(a, init, id);
    }
  }

  /** Sum of the amounts of all external credits in `log`. */
  function ExternalCredits(log: seq<Transfer>): (credited: int)
    decreases |log|
  {
    if log == [] then 0
    else
      var last := log[|log| - 1];
      ExternalCredits(log[..|log| - 1]) + (if last.IsExternal() then last.amount else 0)
  }

  /** Logging one more entry adds its amount when it is an external credit. */
  lemma ExternalCreditsAppend(log: seq<Transfer>, t: Transfer)
    ensures ExternalCredits(log + [t]) == ExternalCredits(log) + (if t.IsExternal() then t.amount else 0)
  {
    assert (log + [t])[..|log + [t]| - 1] == log;
  }

  /** The balance in the slot of account `k`; 0 for an unknown id or a borrowed slot. */
  function BalanceAt(m: map<int, Holder>, k: int): (balance: Int64)
  {
    if k in m && m[k].slot.Some? then m[k].slot.value.balance else 0
  }

  /** Sum of the balances of accounts 1 to `n`, removed ones included. */
  function TotalUpTo(m: map<int, Holder>, n: nat): (total: int)
  {
    if n == 0 then 0 else TotalUpTo(m, n - 1) + BalanceAt(m, n)
  }

  /** Replacing one holder changes the total by exactly the change of its balance. */
  lemma {:induction false} TotalUpdate(m: map<int, Holder>, k: int, h: Holder, n: nat)
    requires 1 <= k <= n
    ensures TotalUpTo(m[k := h], n) == TotalUpTo(m, n) - BalanceAt(m, k) + BalanceAt(m[k := h], k)
  {
    if k < n {
      TotalUpdate(m, k, h, n - 1);
    } else {
      TotalUnaffected(m, k, h, n - 1);
    }
  }

  /** A holder beyond `n` does not enter the total up to `n`. */
  lemma {:induction false} TotalUnaffected(m: map<int, Holder>, k: int, h: Holder, n: nat)
    requires k > n
    ensures TotalUpTo(m[k := h], n) == TotalUpTo(m, n)
  {
    if n > 0 {
      TotalUnaffected(m, k, h, n - 1);
    }
  }

  /** `MAX_ID`: the last id `createAccount` may hand out. */
  const MaxId: int := 100000

  /** Ids stay in the handed-out range and every stored account is valid and keyed by its own id. */
  ghost predicate WellFormed(nextId: nat, m: map<int, Holder>, log: seq<Transfer>)
  {
    && (forall k :: k in m ==> 1 <= k <= nextId && k <= MaxId)
    && (forall k :: k in m && m[k].slot.Some? ==> m[k].slot.value.id == k && m[k].slot.value.Valid())
    && (forall t :: t in log ==> t.Valid())
  }

  /** Between operations every account is back in its slot. */
  ghost predicate NoSlotBorrowed(m: map<int, Holder>)
  {
    forall k :: k in m ==> m[k].slot.Some?
  }

  /**
   * The ledger's invariant: well formed, nothing borrowed, and balanced: all
   * the money in the accounts, removed ones included, came in as external
   * credits.
   */
  ghost predicate LedgerInvariant(nextId: nat, m: map<int, Holder>, log: seq<Transfer>)
  {
    WellFormed(nextId, m, log) && NoSlotBorrowed(m) && TotalUpTo(m, nextId) == ExternalCredits(log)
  }

  /**
   * Putting back one account, credited with `credit` (and logged as an
   * external credit when `credit` is positive), keeps the ledger's invariant.
   */
  lemma PutBackKeepsInvariant(nextId: nat, m: map<int, Holder>, log: seq<Transfer>,
                              k: Int32, h: Holder, credit: Int64, log': seq<Transfer>)
    requires LedgerInvariant(nextId, m, log)
    requires k in m && h.slot.Some? && h.slot.value.Valid() && h.slot.value.id == k
    requires h.slot.value.balance == BalanceAt(m, k) + credit
    requires (credit == 0 && log' == log) || (credit > 0 && log' == log + [Transfer(ExternalSource, k, credit)])
    ensures LedgerInvariant(nextId, m[k := h], log')
  {
    TotalUpdate(m, k, h, nextId);
    if credit > 0 {
      ExternalCreditsAppend(log, Transfer(ExternalSource, k, credit));
    }
  }

  /** All checks of a transfer pass and the destination's new balance fits in a `long`. */
  predicate TransferApplies(m: map<int, Holder>, srcId: int, dstId: int, amount: int)
  {
    && srcId != dstId && amount > 0
    && Live(m, srcId) && Live(m, dstId)
    && amount <= BalanceAt(m, srcId)
    && BalanceAt(m, dstId) + amount <= LongMax
  }

  /**
   * The outcome of the private `transfer` on holders `m`: its checks in the
   * order the code makes them, the first failing one deciding. A destination
   * balance that would overflow makes the `Account` constructor throw.
   */
  function TransferCheck(m: map<int, Holder>, srcId: int, dstId: int, amount: int): (r: Outcome<TransferResult>)
    ensures r == Normal(Ok) <==> TransferApplies(m, srcId, dstId, amount)
    ensures r != Normal(Error)
  {
    if srcId == dstId then Normal(SameAccounts)
    else if amount <= 0 then Normal(AmountCheckFailed)
    else if srcId !in m then Normal(SourceNotFound)
    else if dstId !in m then Normal(DestinationNotFound)
    else if m[srcId].deleted then Normal(SourceNotFound)
    else if m[dstId].deleted then Normal(DestinationNotFound)
    else if BalanceAt(m, srcId) < amount then Normal(SourceBalanceCheckFailed)
    else if BalanceAt(m, dstId) + amount > LongMax then Thrown(IllegalArgument)
    else Normal(Ok)
  }

  /**
   * "Not found" does not tell an id that never existed from a removed one: a
   * reported account is not live, and when exactly one of the two accounts
   * is not live, that one is reported. (When both are missing, an absent
   * destination is reported before a removed source.)
   */
  lemma NotFoundMeansNotLive(m: map<int, Holder>, srcId: int, dstId: int, amount: int)
    requires srcId != dstId && amount > 0
    ensures TransferCheck(m, srcId, dstId, amount) == Normal(SourceNotFound) ==> !Live(m, srcId)
    ensures TransferCheck(m, srcId, dstId, amount) == Normal(DestinationNotFound) ==> !Live(m, dstId)
    ensures !Live(m, srcId) && Live(m, dstId) ==> TransferCheck(m, srcId, dstId, amount) == Normal(SourceNotFound)
    ensures Live(m, srcId) && !Live(m, dstId) ==> TransferCheck(m, srcId, dstId, amount) == Normal(DestinationNotFound)
  {
  }

  /** The holders after a transfer that applies: the money moves from source to destination. */
  function Transferred(m: map<int, Holder>, srcId: Int32, dstId: Int32, amount: Int64): (m': map<int, Holder>)
    requires TransferApplies(m, srcId, dstId, amount)
    ensures m'.Keys == m.Keys
    ensures forall k :: k in m && k != srcId && k != dstId ==> m'[k] == m[k]
    ensures BalanceAt(m', srcId) == BalanceAt(m, srcId) - amount >= 0
    ensures BalanceAt(m', dstId) == BalanceAt(m, dstId) + amount
    ensures Live(m', srcId) && Live(m', dstId)
  {
    m[srcId := Holder(Some(Account(srcId, BalanceAt(m, srcId) - amount)), false)]
     [dstId := Holder(Some(Account(dstId, BalanceAt(m, dstId) + amount)), false)]
  }

  /** Borrowing a slot and then filling it again leaves only the final value. */
  lemma BorrowedRefilled(m: map<int, Holder>, k: int, h: Holder, h': Holder)
    requires k in m
    ensures m[k := h][k := h'] == m[k := h']
    ensures h' == m[k] ==> m[k := h'] == m
  {
  }

  /** Borrowing two slots and then filling them again leaves only the final values. */
  lemma BorrowedPairRefilled(m: map<int, Holder>, s: int, d: int, hs: Holder, hd: Holder, hs': Holder, hd': Holder)
    requires s != d
    ensures m[s := hs][d := hd][d := hd'][s := hs'] == m[s := hs'][d := hd']
  {
  }

  /**
   * Putting back two accounts whose balances moved money between them, and
   * logging at most one internal transfer, keeps the ledger's invariant.
   */
  lemma PutBackPairKeepsInvariant(nextId: nat, m: map<int, Holder>, log: seq<Transfer>,
                                  s: int, d: int, a: Account, b: Account, log': seq<Transfer>)
    requires LedgerInvariant(nextId, m, log)
    requires s != d && s in m && d in m
    requires a.Valid() && a.id == s && b.Valid() && b.id == d
    requires a.balance + b.balance == BalanceAt(m, s) + BalanceAt(m, d)
    requires log' == log || (|log'| == |log| + 1 && log' == log + [log'[|log|]]
                             && log'[|log|].Valid() && !log'[|log|].IsExternal())
    ensures LedgerInvariant(nextId, m[s := Holder(Some(a), m[s].deleted)][d := Holder(Some(b), m[d].deleted)], log')
  {
    var m1 := m[s := Holder(Some(a), m[s].deleted)];
    var m2 := m1[d := Holder(Some(b), m[d].deleted)];
    TotalUpdate(m, s, m1[s], nextId);
    TotalUpdate(m1, d, m2[d], nextId);
    if log' != log {
      ExternalCreditsAppend(log, log'[|log|]);
    }
  }

  /**
   * What the `try` block of a two-account transfer hands to `finally`: the
   * source and destination accounts to put back, and how the call ends.
   */
  datatype Settlement = Settlement(src: Account, dst: Account, result: Outcome<TransferResult>)

  /**
   * The balance check and rebuilding of both accounts exactly as the
   * transfer writes it: the debited source is built and assigned before the
   * credited destination, whose constructor throws when the destination's
   * balance overflows a `long`. The `finally` block then hands back the new
   * source beside the old destination.
   */
  function SettleAsWritten(src: Account, dst: Account, amount: Int64): (s: Settlement)
  {
    var left := SubLong(src.balance, amount);
    if left < 0 then Settlement(src, dst, Normal(SourceBalanceCheckFailed))
    else
      match NewAccount(src.id, left)
      case Thrown(f) => Settlement(src, dst, Thrown(f))
      case Normal(debited) =>
        match NewAccount(dst.id, AddLong(dst.balance, amount))
        case Thrown(f) => Settlement(debited, dst, Thrown(f))
        case Normal(credited) => Settlement(debited, credited, Normal(Ok))
  }

  /**
   * On overflow the transfer as written destroys money: the source keeps its
   * debit, the destination gets nothing, and the call throws.
   */
  lemma SettleAsWrittenLosesMoneyOnOverflow(src: Account, dst: Account, amount: Int64)
    requires src.Valid() && dst.Valid() && 0 < amount <= src.balance
    requires dst.balance + amount > LongMax
    ensures var s := SettleAsWritten(src, dst, amount);
      && s.result == Thrown(IllegalArgument)
      && s.src.balance + s.dst.balance == src.balance + dst.balance - amount
  {
  }

  /** One input that shows it: one cent moved onto an account that already holds `Long.MAX_VALUE`. */
  lemma SettleAsWrittenCounterexample()
    ensures var s := SettleAsWritten(Account(1, 1), Account(2, LongMax), 1);
      && s == Settlement(Account(1, 0), Account(2, LongMax), Thrown(IllegalArgument))
  {
  }

  /**
   * The step as evidently intended: the credited destination is built before
   * the source is debited, so a throwing constructor leaves both accounts as
   * they were borrowed.
   */
  function Settle(src: Account, dst: Account, amount: Int64): (s: Settlement)
    requires src.Valid() && dst.Valid() && amount > 0
    ensures s.result == Normal(SourceBalanceCheckFailed) <==> src.balance < amount
    ensures s.result == Normal(Ok) <==> amount <= src.balance && dst.balance + amount <= LongMax
    ensures s.result.Thrown? <==> amount <= src.balance && dst.balance + amount > LongMax
    ensures s.result.Thrown? ==> s.result.failure == IllegalArgument
    ensures s.result == Normal(Ok) ==>
      s.src == Account(src.id, src.balance - amount) && s.dst == Account(dst.id, dst.balance + amount)
    ensures s.result != Normal(Ok) ==> s.src == src && s.dst == dst
    ensures s.src.Valid() && s.dst.Valid()
    ensures s.src.balance + s.dst.balance == src.balance + dst.balance
  {
    var left := SubLong(src.balance, amount);
    if left < 0 then Settlement(src, dst, Normal(SourceBalanceCheckFailed))
    else
      match NewAccount(dst.id, AddLong(dst.balance, amount))
      case Thrown(f) => Settlement(src, dst, Thrown(f))
      case Normal(credited) =>
        match NewAccount(src.id, left)
        case Thrown(f) => Settlement(src, dst, Thrown(f))
        case Normal(debited) => Settlement(debited, credited, Normal(Ok))
  }

  /** The correction changes nothing but the overflow case. */
  lemma SettleAgreesWithoutOverflow(src: Account, dst: Account, amount: Int64)
    requires src.Valid() && dst.Valid() && amount > 0
    requires dst.balance + amount <= LongMax
    ensures Settle(src, dst, amount) == SettleAsWritten(src, dst, amount)
  {
  }
}
