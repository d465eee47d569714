/**
 * Clients of the ledger that replay the repository's tests: what a caller
 * can conclude from the contracts of `InMemoryAccounting` alone.
 */
module Scenarios {

  import opened Wrappers
  import opened JavaLang
  import opened Accounts
  import opened Transfers
  import opened Accounting
  import opened Ledger
  import opened InMemory

  /** The ledger holds exactly accounts 1 and 2, live, with balances `b1` and `b2`. */
  ghost predicate TwoAccounts(ledger: InMemoryAccounting, b1: int, b2: int)
    reads ledger
  {
    && ledger.accounts.Keys == {1, 2}
    && Live(ledger.accounts, 1) && Live(ledger.accounts, 2)
    && BalanceAt(ledger.accounts, 1) == b1 && BalanceAt(ledger.accounts, 2) == b2
  }

  /** The test `commonScenario`, in parts; each part states the ledger it leaves. */
  method CommonScenario() returns (ledger: InMemoryAccounting)
    ensures fresh(ledger) && ledger.Valid() && ledger.nextId == 2
    ensures !Live(ledger.accounts, 1) && Live(ledger.accounts, 2) && BalanceAt(ledger.accounts, 2) == 8
    ensures ledger.Total() == 50
  {
    ledger := CommonCreate();
    CommonCredit(ledger);
    CommonCreditLogs(ledger);
    CommonTransfers(ledger);
    CommonTransfersBack(ledger);
    assert ledger.Total() == TotalUpTo(ledger.accounts, 1) + 8 == 42 + 8;
    CommonLogs(ledger);
    CommonRemoval(ledger);
  }

  /** Two new accounts, numbered 1 and 2, with empty logs. */
  method CommonCreate() returns (ledger: InMemoryAccounting)
    ensures fresh(ledger) && ledger.Valid() && ledger.nextId == 2
    ensures TwoAccounts(ledger, 0, 0) && ledger.transferLog == []
  {
    ledger := new InMemoryAccounting();
    var c1 := ledger.CreateAccount();
    var c2 := ledger.CreateAccount();
    assert c1 == Normal(Account(1, 0)) && c2 == Normal(Account(2, 0));
    assert ledger.accounts.Keys == {1, 2};

    var log := ledger.GetAccountLog(1);
    assert log == [];
    log := ledger.GetAccountLog(2);
    assert log == [];
  }

  /** The accounts are credited with 20 and 30. */
  method CommonCredit(ledger: InMemoryAccounting)
    requires ledger.Valid() && ledger.nextId == 2
    requires TwoAccounts(ledger, 0, 0) && ledger.transferLog == []
    modifies ledger
    ensures ledger.Valid() && ledger.nextId == 2
    ensures TwoAccounts(ledger, 20, 30)
    ensures ledger.transferLog == [Transfer(0, 1, 20), Transfer(0, 2, 30)]
  {
    var credited := ledger.IncreaseAccountBalance(1, 20);
    assert credited == Normal(true);
    credited := ledger.IncreaseAccountBalance(2, 30);
    assert credited == Normal(true);

    var a := ledger.GetAccount(1);
    assert a == Some(Account(1, 20));
    a := ledger.GetAccount(2);
    assert a == Some(Account(2, 30));
  }

  /** Each credit is in its own account's log. */
  method CommonCreditLogs(ledger: InMemoryAccounting)
    requires ledger.Valid() && TwoAccounts(ledger, 20, 30)
    requires ledger.transferLog == [Transfer(0, 1, 20), Transfer(0, 2, 30)]
    modifies ledger
    ensures ledger.Valid() && ledger.accounts == old(ledger.accounts) && ledger.nextId == old(ledger.nextId)
    ensures ledger.transferLog == old(ledger.transferLog)
  {
    var log := ledger.GetAccountLog(1);
    assert Transfer(0, 1, 20) in log;
    log := ledger.GetAccountLog(2);
    assert Transfer(0, 2, 30) in log;
  }

  /** Transfers from account 1 to account 2, one of them refused for want of money. */
  method CommonTransfers(ledger: InMemoryAccounting)
    requires ledger.Valid() && ledger.nextId == 2
    requires TwoAccounts(ledger, 20, 30)
    requires ledger.transferLog == [Transfer(0, 1, 20), Transfer(0, 2, 30)]
    modifies ledger
    ensures ledger.Valid() && ledger.nextId == 2
    ensures TwoAccounts(ledger, 5, 45)
    ensures ledger.transferLog ==
      [Transfer(0, 1, 20), Transfer(0, 2, 30), Transfer(1, 2, 10), Transfer(1, 2, 5)]
  {
    var r := ledger.Execute(Transfer(1, 2, 10));
    assert r == Normal(Ok);
    var a := ledger.GetAccount(1);
    assert a == Some(Account(1, 10));
    a := ledger.GetAccount(2);
    assert a == Some(Account(2, 40));

    r := ledger.Execute(Transfer(1, 2, 5));
    assert r == Normal(Ok);
    a := ledger.GetAccount(1);
    assert a == Some(Account(1, 5));
    a := ledger.GetAccount(2);
    assert a == Some(Account(2, 45));

    r := ledger.Execute(Transfer(1, 2, 10));
    assert r == Normal(SourceBalanceCheckFailed);
    a := ledger.GetAccount(1);
    assert a == Some(Account(1, 5));
    a := ledger.GetAccount(2);
    assert a == Some(Account(2, 45));
  }

  /** The last transfers, one in each direction. */
  method CommonTransfersBack(ledger: InMemoryAccounting)
    requires ledger.Valid() && ledger.nextId == 2
    requires TwoAccounts(ledger, 5, 45)
    requires ledger.transferLog ==
      [Transfer(0, 1, 20), Transfer(0, 2, 30), Transfer(1, 2, 10), Transfer(1, 2, 5)]
    modifies ledger
    ensures ledger.Valid() && ledger.nextId == 2
    ensures TwoAccounts(ledger, 42, 8)
    ensures ledger.transferLog ==
      [Transfer(0, 1, 20), Transfer(0, 2, 30), Transfer(1, 2, 10), Transfer(1, 2, 5),
       Transfer(1, 2, 5), Transfer(2, 1, 42)]
  {
    var r := ledger.Execute(Transfer(1, 2, 5));
    assert r == Normal(Ok);
    var a := ledger.GetAccount(1);
    assert a == Some(Account(1, 0));
    a := ledger.GetAccount(2);
    assert a == Some(Account(2, 50));

    r := ledger.Execute(Transfer(2, 1, 42));
    assert r == Normal(Ok);
    a := ledger.GetAccount(1);
    assert a == Some(Account(1, 42));
    a := ledger.GetAccount(2);
    assert a == Some(Account(2, 8));
  }

  /** Each account's log holds its credit and every transfer between the two, and nothing else. */
  method CommonLogs(ledger: InMemoryAccounting)
    requires ledger.Valid() && TwoAccounts(ledger, 42, 8)
    requires ledger.transferLog ==
      [Transfer(0, 1, 20), Transfer(0, 2, 30), Transfer(1, 2, 10), Transfer(1, 2, 5),
       Transfer(1, 2, 5), Transfer(2, 1, 42)]
    modifies ledger
    ensures ledger.Valid() && ledger.accounts == old(ledger.accounts) && ledger.nextId == old(ledger.nextId)
  {
    var log := ledger.GetAccountLog(1);
    assert Transfer(0, 1, 20) in log && Transfer(1, 2, 10) in log && Transfer(1, 2, 5) in log;
    assert Transfer(2, 1, 42) in log && Transfer(0, 2, 30) !in log;
    log := ledger.GetAccountLog(2);
    assert Transfer(0, 2, 30) in log && Transfer(1, 2, 10) in log && Transfer(1, 2, 5) in log;
    assert Transfer(2, 1, 42) in log;
    assert Transfer(0, 1, 20) !in log;
  }

  /** A removed account is gone for every operation, and removing it again still answers true. */
  method CommonRemoval(ledger: InMemoryAccounting)
    requires ledger.Valid() && ledger.nextId == 2 && TwoAccounts(ledger, 42, 8)
    modifies ledger
    ensures ledger.Valid() && ledger.nextId == 2
    ensures !Live(ledger.accounts, 1) && Live(ledger.accounts, 2) && BalanceAt(ledger.accounts, 2) == 8
    ensures ledger.Total() == old(ledger.Total())
    ensures ledger.transferLog == old(ledger.transferLog)
  {
    var removed := ledger.RemoveAccount(1);
    assert removed;
    var a := ledger.GetAccount(1);
    assert a == None;
    var log := ledger.GetAccountLog(1);
    assert log == [];
    var credited := ledger.IncreaseAccountBalance(1, 1);
    assert credited == Normal(false);
    var r := ledger.Execute(Transfer(1, 2, 1));
    assert r == Normal(SourceNotFound);
    r := ledger.Execute(Transfer(2, 1, 1));
    assert r == Normal(DestinationNotFound);
    removed := ledger.RemoveAccount(1);
    assert removed;
    removed := ledger.RemoveAccount(3);
    assert !removed;
  }

  /** Rejected transfers, to the same account and of nothing, and a rejected credit of nothing. */
  method RejectedTransfers() returns (ledger: InMemoryAccounting)
    ensures fresh(ledger) && ledger.Valid() && ledger.nextId == 2
    ensures TwoAccounts(ledger, 0, 0) && ledger.transferLog == []
  {
    ledger := new InMemoryAccounting();
    var c1 := ledger.CreateAccount();
    var c2 := ledger.CreateAccount();
    var r := ledger.Execute(Transfer(1, 1, 1));
    assert r == Normal(SameAccounts);
    r := ledger.TransferFunds(1, 2, 0);
    assert r == Normal(AmountCheckFailed);
    var credited := ledger.IncreaseAccountBalance(1, 0);
    assert credited == Thrown(IllegalArgument);
    assert ledger.transferLog == [];
  }

  /**
   * The closing check of the test `underLoad`: however many transfers are
   * executed, and whatever their outcomes, no money appears or disappears.
   */
  method ExecuteAll(ledger: InMemoryAccounting, transfers: seq<Transfer>)
    requires ledger.Valid()
    requires forall t :: t in transfers ==> t.Valid()
    modifies ledger
    ensures ledger.Valid()
    ensures ledger.Total() == old(ledger.Total())
    ensures ExternalCredits(ledger.transferLog) == ExternalCredits(old(ledger.transferLog))
    ensures RemovalsKept(old(ledger.accounts), ledger.accounts)
  {
    for i := 0 to |transfers|
      invariant ledger.Valid()
      invariant ledger.Total() == old(ledger.Total())
      invariant RemovalsKept(old(ledger.accounts), ledger.accounts)
    {
      ghost var before := ledger.accounts;
      var _ := ledger.Execute(transfers[i]);
      RemovalsKeptTransitive(old(ledger.accounts), before, ledger.accounts);
    }
  }
}
