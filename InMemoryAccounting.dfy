/**
 * `InMemoryAccounting`: the ledger engine. It keeps an id counter, a map from
 * account id to holder, and an append-only transfer log. Every operation that
 * changes an account first borrows the account out of its holder's slot
 * (leaving the slot empty) and puts a value back before it returns, on every
 * path; the borrow is explicit here so that "no slot is left borrowed" is part
 * of the object invariant.
 */
module InMemory {

  import opened Wrappers
  import opened JavaLang
  import opened Accounts
  import opened Transfers
  import opened Accounting
  import opened Ledger

  class InMemoryAccounting {

    /** The last id handed out (or refused); ids start at 1. */
    var nextId: nat
    var accounts: map<int, Holder>
    var transferLog: seq<Transfer>

    /** The money held by all accounts, removed ones included. */
    ghost function Total(): int
      reads this
    {
      TotalUpTo(accounts, nextId)
    }

    /** The object invariant: in particular no slot is left borrowed and the ledger balances. */
    ghost predicate Valid()
      reads this
    {
      LedgerInvariant(nextId, accounts, transferLog)
    }

    constructor ()
      ensures Valid()
      ensures nextId == 0 && accounts == map[] && transferLog == []
    {
      nextId := 0;
      accounts := map[];
      transferLog := [];
    }

    /**
     * `borrowAccount`: takes the account out of its slot. The compare-and-set
     * loop succeeds on its first round in a sequential run, because the slot is
     * full.
     */
    method BorrowAccount(id: int) returns (account: Account)
      requires id in accounts && accounts[id].slot.Some?
      modifies this
      ensures account == old(accounts[id].slot.value)
      ensures accounts == old(accounts)[id := Holder(None, old(accounts[id].deleted))]
      ensures nextId == old(nextId) && transferLog == old(transferLog)
    {
      account := accounts[id].slot.value;
      accounts := accounts[id := Holder(None, accounts[id].deleted)];
    }

    /** `holder.account.set(account)`: puts an account back into the slot. */
    method ReturnAccount(id: int, account: Account)
      requires id in accounts
      modifies this
      ensures accounts == old(accounts)[id := Holder(Some(account), old(accounts[id].deleted))]
      ensures nextId == old(nextId) && transferLog == old(transferLog)
    {
      accounts := accounts[id := Holder(Some(account), accounts[id].deleted)];
    }

    /**
     * Borrows the two accounts of a transfer, the smaller id first whatever
     * the direction, so that any two transfers contend for their accounts in
     * the same order (the engine's guard against deadlock).
     */
    method BorrowBoth(srcId: int, dstId: int) returns (srcAccount: Account, dstAccount: Account)
      requires srcId != dstId
      requires srcId in accounts && accounts[srcId].slot.Some?
      requires dstId in accounts && accounts[dstId].slot.Some?
      modifies this
      ensures srcAccount == old(accounts[srcId].slot.value) && dstAccount == old(accounts[dstId].slot.value)
      ensures accounts == old(accounts)
        [srcId := Holder(None, old(accounts[srcId].deleted))]
        [dstId := Holder(None, old(accounts[dstId].deleted))]
      ensures nextId == old(nextId) && transferLog == old(transferLog)
    {
      if srcId < dstId {
        srcAccount := BorrowAccount(srcId);
        dstAccount := BorrowAccount(dstId);
      } else {
        dstAccount := BorrowAccount(dstId);
        srcAccount := BorrowAccount(srcId);
      }
    }

    /** `markDeleted`: sets the holder's flag. */
    method MarkDeleted(id: int)
      requires id in accounts
      modifies this
      ensures accounts == old(accounts)[id := Holder(old(accounts[id].slot), true)]
      ensures nextId == old(nextId) && transferLog == old(transferLog)
    {
      accounts := accounts[id := Holder(accounts[id].slot, true)];
    }

    /** `while (!transferLog.offer(e))`: an unbounded queue accepts the first offer. */
    method AppendLog(t: Transfer)
      modifies this
      ensures transferLog == old(transferLog) + [t]
      ensures nextId == old(nextId) && accounts == old(accounts)
    {
      transferLog := transferLog + [t];
    }

    /**
     * `createAccount`: increments the counter, then throws
     * `IllegalStateException` if the new id is beyond `MAX_ID`; otherwise
     * stores a fresh account with balance 0. As the counter is incremented
     * before the check, every call after the first refusal is refused too.
     */
    method CreateAccount() returns (r: Outcome<Account>)
      requires Valid()
      modifies this
      ensures Valid()
      ensures RemovalsKept(old(accounts), accounts)
      ensures nextId == old(nextId) + 1 && transferLog == old(transferLog)
      ensures r.Normal? <==> old(nextId) < MaxId
      ensures r.Thrown? ==> r.failure == IllegalState && accounts == old(accounts)
      ensures r.Normal? ==>
        && r.value == Account(nextId, 0)
        && nextId !in old(accounts)
        && (forall k :: k in old(accounts) ==> k < nextId)
        && accounts == old(accounts)[nextId := Holder(Some(r.value), false)]
      ensures Total() == old(Total())
    {
      nextId := nextId + 1;
      var id := nextId;
      if id > MaxId {
        // checkState(id <= MAX_ID, ...)
        r := Thrown(IllegalState);
        return;
      }
      // `new Account(id, 0L)`: its checks pass, as id > 0
      var account := Account(id, 0);
      TotalUpdate(accounts, id, Holder(Some(account), false), id);
      accounts := accounts[id := Holder(Some(account), false)];
      r := Normal(account);
    }

    /**
     * `removeAccount`: false when no holder exists; otherwise marks it
     * removed under a borrow and answers true, also when it already was
     * removed. The balance and the log are left as they were.
     */
    method RemoveAccount(id: Int32) returns (removed: bool)
      requires Valid()
      modifies this
      ensures Valid()
      ensures RemovalsKept(old(accounts), accounts)
      ensures removed <==> id in old(accounts)
      ensures removed ==> accounts == old(accounts)[id := Holder(old(accounts[id].slot), true)]
      ensures !removed ==> accounts == old(accounts)
      ensures nextId == old(nextId) && transferLog == old(transferLog)
      ensures Total() == old(Total())
    {
      if id !in accounts {
        return false;
      }
      var account := BorrowAccount(id);
      MarkDeleted(id);
      ReturnAccount(id, account);
      assert accounts == old(accounts)[id := Holder(old(accounts[id].slot), true)];
      PutBackKeepsInvariant(nextId, old(accounts), transferLog, id, accounts[id], 0, transferLog);
      TotalUpdate(old(accounts), id, accounts[id], nextId);
      removed := true;
    }

    /**
     * `getAccount`: `null` (here `None`) for an unknown or removed id;
     * otherwise the stored account with its current balance. The read loop
     * finds the slot full at once, since nothing is borrowed.
     */
    method GetAccount(id: Int32) returns (r: Option<Account>)
      requires Valid()
      ensures r.Some? <==> Live(accounts, id)
      ensures r.Some? ==> r.value.id == id && r.value.balance >= 0 && r.value.balance == BalanceAt(accounts, id)
    {
      if id !in accounts || accounts[id].deleted {
        return None;
      }
      r := accounts[id].slot;
    }

    /**
     * `increaseAccountBalance`: throws `IllegalArgumentException` for a
     * non-positive amount; answers false for an unknown or removed id;
     * otherwise adds the amount under a borrow and logs one external credit
     * `Transfer(0, id, amount)`. When the new balance overflows a `long` the
     * `Account` constructor throws inside the `try`, and `finally` puts the
     * unchanged account back.
     */
    method IncreaseAccountBalance(id: Int32, amount: Int64) returns (r: Outcome<bool>)
      requires Valid()
      modifies this
      ensures Valid()
      ensures RemovalsKept(old(accounts), accounts)
      ensures nextId == old(nextId)
      ensures amount <= 0 ==> r == Thrown(IllegalArgument)
      ensures amount > 0 && !Live(old(accounts), id) ==> r == Normal(false)
      ensures amount > 0 && Live(old(accounts), id) && BalanceAt(old(accounts), id) + amount > LongMax ==>
        r == Thrown(IllegalArgument)
      ensures r == Normal(true) <==>
        amount > 0 && Live(old(accounts), id) && BalanceAt(old(accounts), id) + amount <= LongMax
      ensures r != Normal(true) ==> accounts == old(accounts) && transferLog == old(transferLog)
      ensures r == Normal(true) ==>
        && accounts == old(accounts)[id := Holder(Some(Account(id, BalanceAt(old(accounts), id) + amount)), false)]
        && transferLog == old(transferLog) + [Transfer(ExternalSource, id, amount)]
      ensures Total() == old(Total()) + (if r == Normal(true) then amount else 0)
    {
      if amount <= 0 {
        // checkArgument(amount > 0L, ...)
        return Thrown(IllegalArgument);
      }
      if id !in accounts || accounts[id].deleted {
        return Normal(false);
      }
      var account := BorrowAccount(id);
      label body: {
        match NewAccount(account.id, AddLong(account.balance, amount)) {
          case Thrown(f) =>
            r := Thrown(f);
            break body;
          case Normal(credited) =>
            account := credited;
        }
        // `new Transfer(0, id, amount)`: its checks pass
        AppendLog(Transfer(ExternalSource, account.id, amount));
        r := Normal(true);
      }
      // finally
      ReturnAccount(id, account);
      ghost var h := Holder(Some(account), false);
      BorrowedRefilled(old(accounts), id, Holder(None, false), h);
      PutBackKeepsInvariant(nextId, old(accounts), old(transferLog), id, h,
                            if r == Normal(true) then amount else 0, transferLog);
    }

    /** `execute`: delegates to the private transfer on the record's fields. */
    method Execute(t: Transfer) returns (r: Outcome<TransferResult>)
      requires Valid() && t.Valid()
      modifies this
      ensures Valid()
      ensures RemovalsKept(old(accounts), accounts)
      ensures nextId == old(nextId)
      ensures r == TransferCheck(old(accounts), t.srcId, t.dstId, t.amount)
      ensures r != Normal(Ok) ==> accounts == old(accounts) && transferLog == old(transferLog)
      ensures r == Normal(Ok) ==>
        && accounts == Transferred(old(accounts), t.srcId, t.dstId, t.amount)
        && transferLog == old(transferLog) + [t]
      ensures Total() == old(Total())
    {
      r := TransferFunds(t.srcId, t.dstId, t.amount);
    }

    /**
     * The private `transfer(srcId, dstId, amount)`: runs its checks in order
     * and answers the first that fails; only when all pass does it move the
     * money and log `Transfer(srcId, dstId, amount)`. On every other outcome,
     * the holders and the log are as they were.
     */
    method TransferFunds(srcId: Int32, dstId: Int32, amount: Int64) returns (r: Outcome<TransferResult>)
      requires Valid()
      modifies this
      ensures Valid()
      ensures RemovalsKept(old(accounts), accounts)
      ensures nextId == old(nextId)
      ensures r == TransferCheck(old(accounts), srcId, dstId, amount)
      ensures r != Normal(Ok) ==> accounts == old(accounts) && transferLog == old(transferLog)
      ensures r == Normal(Ok) ==>
        && accounts == Transferred(old(accounts), srcId, dstId, amount)
        && transferLog == old(transferLog) + [Transfer(srcId, dstId, amount)]
      ensures Total() == old(Total())
    {
      if srcId == dstId {
        return Normal(SameAccounts);
      }
      if amount <= 0 {
        return Normal(AmountCheckFailed);
      }
      if srcId !in accounts {
        return Normal(SourceNotFound);
      }
      if dstId !in accounts {
        return Normal(DestinationNotFound);
      }
      r := TransferBorrowed(srcId, dstId, amount);
    }

    /**
     * The second half of the private `transfer`, once both holders are known
     * to exist: borrows both accounts, re-checks the `deleted` flags, settles
     * the balances, and in `finally` puts both accounts back, whatever the
     * outcome.
     */
    method TransferBorrowed(srcId: Int32, dstId: Int32, amount: Int64) returns (r: Outcome<TransferResult>)
      requires Valid()
      requires srcId != dstId && amount > 0 && srcId in accounts && dstId in accounts
      modifies this
      ensures Valid()
      ensures RemovalsKept(old(accounts), accounts)
      ensures nextId == old(nextId)
      ensures r == TransferCheck(old(accounts), srcId, dstId, amount)
      ensures r != Normal(Ok) ==> accounts == old(accounts) && transferLog == old(transferLog)
      ensures r == Normal(Ok) ==>
        && accounts == Transferred(old(accounts), srcId, dstId, amount)
        && transferLog == old(transferLog) + [Transfer(srcId, dstId, amount)]
      ensures Total() == old(Total())
    {
      var srcAccount, dstAccount := BorrowBoth(srcId, dstId);
      label body: {
        if accounts[srcId].deleted {
          r := Normal(SourceNotFound);
          break body;
        }
        if accounts[dstId].deleted {
          r := Normal(DestinationNotFound);
          break body;
        }
        var s := Settle(srcAccount, dstAccount, amount);
        srcAccount, dstAccount, r := s.src, s.dst, s.result;
        if r == Normal(Ok) {
          AppendLog(Transfer(srcAccount.id, dstAccount.id, amount));
        }
      }
      // finally
      ReturnAccount(dstId, dstAccount);
      ReturnAccount(srcId, srcAccount);
      BorrowedPairRefilled(old(accounts), srcId, dstId,
                           Holder(None, old(accounts[srcId].deleted)), Holder(None, old(accounts[dstId].deleted)),
                           Holder(Some(srcAccount), old(accounts[srcId].deleted)),
                           Holder(Some(dstAccount), old(accounts[dstId].deleted)));
      assert accounts == old(accounts)
        [srcId := Holder(Some(srcAccount), old(accounts[srcId].deleted))]
        [dstId := Holder(Some(dstAccount), old(accounts[dstId].deleted))];
      PutBackPairKeepsInvariant(old(nextId), old(accounts), old(transferLog), srcId, dstId,
                                srcAccount, dstAccount, transferLog);
    }

    /**
     * `getAccountLog`: empty for an unknown or removed id; otherwise, under a
     * borrow, exactly the log entries that debit or credit the account, in
     * the order they were logged.
     */
    method GetAccountLog(id: Int32) returns (log: seq<Transfer>)
      requires Valid()
      modifies this
      ensures Valid()
      ensures RemovalsKept(old(accounts), accounts)
      ensures accounts == old(accounts) && transferLog == old(transferLog) && nextId == old(nextId)
      ensures log == if Live(accounts, id) then Related(transferLog, id) else []
      ensures forall t :: t in log <==> Live(accounts, id) && t in transferLog && Touches(t, id)
    {
      if id !in accounts || accounts[id].deleted {
        return [];
      }
      var account := BorrowAccount(id);
      log := Related(transferLog, id);
      ReturnAccount(id, account);
      assert accounts == old(accounts);
      forall t | t in transferLog && Touches(t, id)
        ensures t in log
      {
        RelatedComplete(transferLog, id, t);
      }
    }
  }
}
