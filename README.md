# In-memory accounting: a Dafny model

This project models the ledger engine of the in-memory accounting service, a small Java billing back end.
The engine has four parts:

- `Account`: an immutable id and balance, checked when it is built.
- `Transfer`: an immutable log record. A source id of 0 marks an external credit.
- `Accounting.TransferResult`: the seven outcomes of a transfer.
- `InMemoryAccounting`: an id counter, a map from account id to holder, and an append-only transfer log.

A holder keeps the account's current value in a slot plus a `deleted` flag.
Every operation that changes an account first borrows the value out of the slot, which leaves the slot empty.
It then puts a value back in a `finally` block.
A transfer borrows its two accounts smaller id first, whatever the transfer's direction.

The model follows the Java code closely:

- Java `int` and `long` are the subset types `Int32` and `Int64` (module `JavaLang`).
  The `long` additions and subtractions that the code leaves unchecked wrap explicitly (`AddLong`, `SubLong`).
- Exceptions thrown by Guava's `checkArgument`/`checkState` are the `Thrown` case of an `Outcome`.
  These are the only exceptions the core raises, apart from the `NullPointerException` of `execute(null)` (see Left out).
- `null` results are `Option.None`.
- `InMemoryAccounting` is a Dafny class with three fields: `nextId`, `accounts` (a `map<int, Holder>`) and `transferLog` (a `seq<Transfer>`).
  Each method updates these fields in the order the Java code does.
  Borrowing, returning, marking deleted and appending to the log are explicit steps (`BorrowAccount`, `ReturnAccount`, `MarkDeleted`, `AppendLog`).
  A `try`/`finally` is a labelled block; an early `return` inside it is a `break` out of the block, and the restoring statements follow the block.

The object invariant `Valid()` (`Ledger.LedgerInvariant`) states three things:

- Every stored account is valid and keyed by its own id, and every id lies in `1..nextId` and `1..MAX_ID`.
- No slot is left borrowed between operations.
- The ledger balances: the sum of all account balances equals the sum of all external credits in the log.
  Removed accounts count in the sum, because removal keeps the slot and its balance.

Every public operation preserves `Valid()`.
`Execute` and `TransferFunds` are specified by two functions:

- `Ledger.TransferCheck` gives the outcome: the ordered checks of the Java method, the first failing one deciding.
- `Ledger.Transferred` gives the new holders: the money moves from source to destination and nothing else changes.

`GetAccountLog` is specified by the log filter `Ledger.Related`.
Lemmas about `Related` show that the filter is complete and keeps insertion order.
The module `Scenarios` replays the repository's test `commonScenario` as a client that relies only on these contracts.
It also states the closing money check of the load test, over any sequence of transfers.

Two behaviours of the code are easy to misread:

- `removeAccount` answers `true` for an account that is already removed.
  The Java method (`InMemoryAccounting.java:57-67`) checks only that a holder exists; it never reads the `deleted` flag before it answers true.
  The interface's documentation (`Accounting.java:27-31`) reads "`true` if account successfully removed".
- When the source has been removed and the destination never existed, a transfer reports `DESTINATION_NOT_FOUND`.
  The code checks that both holders exist before it looks at either `deleted` flag.
  `Ledger.NotFoundMeansNotLive` states what the caller can still rely on.

No operation ever drops a holder or clears a `deleted` flag (`Ledger.RemovalsKept`).
Every public method of the class that changes the ledger states this in its contract; `GetAccount` changes nothing at all.

## Model

| member | source | states |
|---|---|---|
| JavaLang.WrapInt | src/main/java/me/torobev/billing/Account.java:47-50 | the result is the 32-bit two's-complement value congruent to the argument modulo 2^32, and equals the argument when it already fits |
| JavaLang.WrapLong | src/main/java/me/torobev/billing/accounting/InMemoryAccounting.java:92 | the result is the 64-bit value congruent to the argument modulo 2^64, and equals the argument when it fits |
| JavaLang.AddLong | src/main/java/me/torobev/billing/accounting/InMemoryAccounting.java:164 | Java `long` addition: the wrapped sum; equal to the true sum exactly when that fits; negative when two non-negative operands overflow |
| JavaLang.SubLong | src/main/java/me/torobev/billing/accounting/InMemoryAccounting.java:159 | Java `long` subtraction: the wrapped difference, equal to the true difference exactly when that fits |
| JavaLang.BitXor | src/main/java/me/torobev/billing/Account.java:49 | Java's `^` on two non-negative bit patterns, bit by bit from the lowest; it has no contract of its own, and `BitXorZero` and `LongHashOfSmall` carry its meaning |
| JavaLang.BitXorZero | src/main/java/me/torobev/billing/Account.java:49 | xor with zero is the identity, which the hash relies on for small balances |
| JavaLang.LongHash | src/main/java/me/torobev/billing/Account.java:49 | `(int) (v ^ (v >>> 32))`: the high half of the 64-bit pattern folded onto the low half, read as an `int` (also used at `Transfer.java:67`); it has no contract of its own, and `LongHashOfSmall` carries its meaning |
| JavaLang.LongHashOfSmall | src/main/java/me/torobev/billing/Account.java:49 | `(int)(v ^ (v >>> 32))` is `v` itself for every `v` in `0..Integer.MAX_VALUE` |
| Accounts.NewAccount | src/main/java/me/torobev/billing/Account.java:20-25 | the constructor succeeds exactly when `id > 0` and `amount >= 0`, and then holds those values; otherwise it throws `IllegalArgumentException` |
| Accounts.Equals | src/main/java/me/torobev/billing/Account.java:35-44 | two accounts are equal exactly when they have the same id and the same balance |
| Accounts.HashCode | src/main/java/me/torobev/billing/Account.java:46-51 | `31 * id + (int) (balance ^ (balance >>> 32))` in wrapping `int` arithmetic; it has no contract of its own, and `EqualAccountsHashAlike` and `HashCodeOfSmallAccount` carry its meaning |
| Accounts.EqualAccountsHashAlike | src/main/java/me/torobev/billing/Account.java:35-51 | equal accounts have equal hash codes |
| Accounts.HashCodeOfSmallAccount | src/main/java/me/torobev/billing/Account.java:46-51 | when `31*id + balance` fits in an `int`, the hash code is exactly that number |
| Transfers.NewTransfer | src/main/java/me/torobev/billing/Transfer.java:26-37 | the constructor succeeds exactly when `srcId >= 0`, `dstId > 0` and `amount > 0`, and then holds those values; a source of 0 marks an external credit; otherwise it throws `IllegalArgumentException` |
| Transfers.Equals | src/main/java/me/torobev/billing/Transfer.java:51-61 | two transfers are equal exactly when source, destination and amount agree |
| Transfers.HashCode | src/main/java/me/torobev/billing/Transfer.java:63-69 | the hash accumulated as the code does, wrapping to `int` after each step; it has no contract of its own, and `EqualTransfersHashAlike` and `HashCodeIsPolynomial` carry its meaning |
| Transfers.EqualTransfersHashAlike | src/main/java/me/torobev/billing/Transfer.java:51-69 | equal transfers have equal hash codes |
| JavaLang.WrapIntCongruent | src/main/java/me/torobev/billing/Transfer.java:64-68 | numbers congruent modulo 2^32 wrap to the same `int`, so wrapping at every step equals wrapping once |
| Transfers.HashCodeIsPolynomial | src/main/java/me/torobev/billing/Transfer.java:63-69 | the step-by-step wrapped hash equals `961*srcId + 31*dstId + hash(amount)` wrapped once |
| Accounting.AllResults | src/main/java/me/torobev/billing/accounting/Accounting.java:10-18 | the enumeration has seven pairwise distinct constants |
| Accounting.SevenOutcomes | src/main/java/me/torobev/billing/accounting/Accounting.java:10-18 | every transfer result is one of those seven |
| Ledger.Related | src/main/java/me/torobev/billing/accounting/InMemoryAccounting.java:185-187 | the filtered log is no longer than the log, and each of its entries is a log entry that debits or credits the account |
| Ledger.RelatedComplete | src/main/java/me/torobev/billing/accounting/InMemoryAccounting.java:185-187 | no log entry touching the account is dropped by the filter |
| Ledger.RelatedAppend | src/main/java/me/torobev/billing/accounting/InMemoryAccounting.java:185-187 | filtering commutes with appending, so adding to the log keeps the earlier filtered entries in their order |
| Ledger.ExternalCreditsAppend | src/main/java/me/torobev/billing/accounting/InMemoryAccounting.java:93-94 | logging an entry raises the external-credit total by its amount exactly when it is an external credit |
| Ledger.TotalUpdate | src/main/java/me/torobev/billing/accounting/InMemoryAccounting.java:52 | replacing one holder changes the total balance by exactly the change of that holder's balance |
| Ledger.TotalUnaffected | src/main/java/me/torobev/billing/accounting/InMemoryAccounting.java:52 | a holder with an id above `n` does not enter the total over ids `1..n` |
| Ledger.PutBackKeepsInvariant | src/main/java/me/torobev/billing/accounting/InMemoryAccounting.java:89-98 | putting back one account, credited by an amount that is logged as an external credit (or unchanged and not logged), keeps the ledger's invariant |
| Ledger.PutBackPairKeepsInvariant | src/main/java/me/torobev/billing/accounting/InMemoryAccounting.java:166-171 | putting back two accounts whose balances keep their sum, with at most one internal transfer logged, keeps the ledger's invariant |
| Ledger.TransferCheck | src/main/java/me/torobev/billing/accounting/InMemoryAccounting.java:122-173 | the transfer succeeds exactly when the ids differ, the amount is positive, both accounts are live, the source covers the amount and the destination cannot overflow; `ERROR` is never returned |
| Ledger.NotFoundMeansNotLive | src/main/java/me/torobev/billing/accounting/InMemoryAccounting.java:130-157 | a reported missing account is unknown or removed; when exactly one of the two is not live, that one is reported |
| Ledger.Transferred | src/main/java/me/torobev/billing/accounting/InMemoryAccounting.java:159-171 | an applied transfer keeps the set of ids and every other holder; the source loses the amount and stays non-negative, the destination gains it, and both stay live |
| Ledger.RemovalsKeptTransitive | src/main/java/me/torobev/billing/accounting/InMemoryAccounting.java:41-43 | keeping every holder and every removal composes over successive operations |
| Ledger.BorrowedRefilled | src/main/java/me/torobev/billing/accounting/InMemoryAccounting.java:103-111 | a borrow followed by putting a value back leaves only that value; putting back the borrowed value leaves the map as it was |
| Ledger.BorrowedPairRefilled | src/main/java/me/torobev/billing/accounting/InMemoryAccounting.java:143-149 | borrowing two slots in either order and filling them again leaves only the final values |
| Ledger.SettleAsWritten | src/main/java/me/torobev/billing/accounting/InMemoryAccounting.java:159-171 | the balance step exactly as written, debit built and assigned before the credit; it has no contract of its own, and `SettleAsWrittenLosesMoneyOnOverflow`, `SettleAsWrittenCounterexample` and `SettleAgreesWithoutOverflow` carry its meaning |
| Ledger.SettleAsWrittenLosesMoneyOnOverflow | src/main/java/me/torobev/billing/accounting/InMemoryAccounting.java:159-171 | as written, a destination overflow throws and the two put-back balances sum to `amount` less than before |
| Ledger.SettleAsWrittenCounterexample | src/main/java/me/torobev/billing/accounting/InMemoryAccounting.java:163-171 | moving 1 from `Account(1, 1)` to `Account(2, Long.MAX_VALUE)` puts back `Account(1, 0)` and `Account(2, Long.MAX_VALUE)` and throws |
| Ledger.Settle | src/main/java/me/torobev/billing/accounting/InMemoryAccounting.java:159-171 | the balance step: refused exactly when the source is short; throws exactly on destination overflow; succeeds otherwise and then moves the amount; on any other outcome both accounts are put back as borrowed; the sum of the two balances is always kept |
| Ledger.SettleAgreesWithoutOverflow | src/main/java/me/torobev/billing/accounting/InMemoryAccounting.java:159-164 | without a destination overflow, the corrected step and the code as written give the same result |
| InMemory.InMemoryAccounting.constructor | src/main/java/me/torobev/billing/accounting/InMemoryAccounting.java:25-29 | a new engine has counter 0, no accounts and an empty log, and satisfies the invariant |
| InMemory.InMemoryAccounting.BorrowAccount | src/main/java/me/torobev/billing/accounting/InMemoryAccounting.java:103-111 | the borrow returns the stored account and leaves the slot empty, the flag as it was |
| InMemory.InMemoryAccounting.ReturnAccount | src/main/java/me/torobev/billing/accounting/InMemoryAccounting.java:97 | puts the given account into the slot and keeps the flag |
| InMemory.InMemoryAccounting.BorrowBoth | src/main/java/me/torobev/billing/accounting/InMemoryAccounting.java:142-149 | borrows both accounts; both slots end empty and the borrowed values are the stored ones (the smaller-id-first order is in the body only; no contract states it) |
| InMemory.InMemoryAccounting.MarkDeleted | src/main/java/me/torobev/billing/accounting/InMemoryAccounting.java:41-43 | sets the holder's flag and keeps its slot |
| InMemory.InMemoryAccounting.AppendLog | src/main/java/me/torobev/billing/accounting/InMemoryAccounting.java:94 | appends one entry at the end of the log |
| InMemory.InMemoryAccounting.CreateAccount | src/main/java/me/torobev/billing/accounting/InMemoryAccounting.java:47-54 | the counter always advances; the call throws `IllegalStateException` with no account stored exactly when the new id exceeds `MAX_ID`; otherwise it stores and returns `Account(id, 0)` under an id that is new and larger than every earlier one; the invariant and the total are kept |
| InMemory.InMemoryAccounting.RemoveAccount | src/main/java/me/torobev/billing/accounting/InMemoryAccounting.java:57-67 | answers true exactly when a holder exists (removed or not) and then sets its flag, keeping the slot, balance and log; the invariant and the total are kept |
| InMemory.InMemoryAccounting.GetAccount | src/main/java/me/torobev/billing/accounting/InMemoryAccounting.java:70-80 | returns an account exactly when the id is live, and then that account's id and its current, non-negative balance |
| InMemory.InMemoryAccounting.IncreaseAccountBalance | src/main/java/me/torobev/billing/accounting/InMemoryAccounting.java:83-101 | a non-positive amount throws; an unknown or removed id answers false; an overflowing balance throws; otherwise it credits the amount, logs `Transfer(0, id, amount)` and answers true; the total grows by the amount exactly on success, and nothing changes otherwise |
| InMemory.InMemoryAccounting.Execute | src/main/java/me/torobev/billing/accounting/InMemoryAccounting.java:114-120 | the result is the one `TransferCheck` gives; on success the holders are `Transferred` and the transfer is logged; on any other outcome nothing changes; the total is kept |
| InMemory.InMemoryAccounting.TransferFunds | src/main/java/me/torobev/billing/accounting/InMemoryAccounting.java:122-138 | the same as `Execute`, for the private `transfer` with its three arguments |
| InMemory.InMemoryAccounting.TransferBorrowed | src/main/java/me/torobev/billing/accounting/InMemoryAccounting.java:140-173 | after borrowing both accounts, the re-checks of the flags, the balance step and `finally` together give the outcome and holders that `TransferCheck` and `Transferred` describe |
| InMemory.InMemoryAccounting.GetAccountLog | src/main/java/me/torobev/billing/accounting/InMemoryAccounting.java:177-191 | changes nothing; for a live id it returns the log entries that debit or credit the account, in log order; otherwise it returns the empty list; an entry is in the result exactly when the id is live and the entry touches it |
| Scenarios.CommonScenario | src/test/java/me/torobev/billing/accounting/InMemoryAccountingTest.java:44-111 | every check of the test; the balance reads of test lines 59-60 come before the log reads of lines 55-56, which changes nothing since reads leave the ledger as it is; it ends with account 1 removed, account 2 live with balance 8, and 50 in total |
| Scenarios.CommonCreate | src/test/java/me/torobev/billing/accounting/InMemoryAccountingTest.java:46-50 | two accounts are created as ids 1 and 2 with balance 0, and their logs are empty |
| Scenarios.CommonCredit | src/test/java/me/torobev/billing/accounting/InMemoryAccountingTest.java:52-60 | crediting 20 and 30 succeeds and gives those balances, with the two credits logged in order |
| Scenarios.CommonCreditLogs | src/test/java/me/torobev/billing/accounting/InMemoryAccountingTest.java:55-56 | each credit is in its own account's log, and reading the logs changes nothing |
| Scenarios.CommonTransfers | src/test/java/me/torobev/billing/accounting/InMemoryAccountingTest.java:62-75 | two transfers out of account 1 succeed, a third is refused for want of money, and the balances are 5 and 45 |
| Scenarios.CommonTransfersBack | src/test/java/me/torobev/billing/accounting/InMemoryAccountingTest.java:77-85 | a further transfer of 5 succeeds, leaving balances 0 and 50; a transfer of 42 back succeeds, leaving balances 42 and 8 |
| Scenarios.CommonLogs | src/test/java/me/torobev/billing/accounting/InMemoryAccountingTest.java:88-102 | each account's log holds its own credit and every transfer between the two accounts (`1 -> 2` of 10 and of 5, `2 -> 1` of 42), and not the other account's credit |
| Scenarios.CommonRemoval | src/test/java/me/torobev/billing/accounting/InMemoryAccountingTest.java:104-110 | after removing account 1 it is unknown to `getAccount`, its log is empty, a credit answers false and transfers from and to it are not found; removing it again answers true and removing an unknown id answers false; balances and log are unchanged |
| Scenarios.RejectedTransfers | src/main/java/me/torobev/billing/accounting/InMemoryAccounting.java:122-128 | a transfer to the same account and a transfer of 0 are rejected, and so is a credit of 0 (line 84), leaving both accounts at 0 and the log empty |
| Scenarios.ExecuteAll | src/test/java/me/torobev/billing/accounting/InMemoryAccountingTest.java:131-147 | executing any sequence of valid transfers, whatever their outcomes, keeps the invariant, the total balance, the external-credit total, every holder and every removal |

## Left out

- Concurrency is not modelled: the threads, the compare-and-set borrow loop, the spinning read in `getAccount`, the `offer` retry loop, `ConcurrentHashMap` and `volatile`. Every operation here runs alone, so each borrow, read and `offer` succeeds on its first try.
- Deadlock freedom under the smaller-id-first borrow order cannot be stated in a sequential model. `BorrowBoth` keeps the order but proves nothing about it.
- Races between a removal and a transfer or credit in flight are not modelled, because they need interleaving.
- InMemory.InMemoryAccounting.CreateAccount: the counter is an unbounded `nat`, so once `MAX_ID` is passed the model throws `IllegalStateException` on every later call, and every id it hands out is new. The Java `AtomicInteger` starts at 0 (`InMemoryAccounting.java:25`) and `incrementAndGet` (line 48) returns the new value, which wraps. From call 2^31 to call 2^32 - 1, the ids are negative: they pass the `MAX_ID` check, and the `Account` constructor's `checkArgument(id > 0)` (`Account.java:21`) throws `IllegalArgumentException`. Call 2^32 hands out id 0, which the constructor refuses in the same way. Call 2^32 + 1 hands out id 1, which passes both checks, and `accounts.put` (line 52) replaces the live holder of account 1 with `Account(1, 0)`, reusing the id and destroying its balance. The model leaves this out because it takes over four billion calls to reach.
- InMemory.InMemoryAccounting.TransferBorrowed: it uses the corrected `Ledger.Settle`, not the step as written. On a destination overflow, it therefore puts both accounts back unchanged, where the code loses the amount (see Findings).
- InMemory.InMemoryAccounting.TransferFunds: it inherits the corrected `Ledger.Settle` from `TransferBorrowed`. Its promises that nothing changes on a failed outcome and that the total is kept do not hold of the code as written when the destination overflows (`InMemoryAccounting.java:163-171`).
- InMemory.InMemoryAccounting.Execute: it inherits the same correction through `TransferFunds`, so the same two promises hold only of the corrected step.
- Scenarios.ExecuteAll: it inherits the same correction through `Execute`. Under the code as written, a transfer onto an account holding close to `Long.MAX_VALUE` loses its amount, and the total is then not kept.
- `execute(null)` throws a `NullPointerException` in Java. A transfer record always exists here, and `Execute` requires it to be valid, which the `Transfer` constructor guarantees.
- `toString`, the Jackson annotations, the REST client, the HTTP handler and server, and the command-line demo are not part of this model.
- The hash codes are proved to agree with `equals`, and to have their value on small inputs; the full bit-level value of `(int)(v ^ (v >>> 32))` for every `long` outside `0..Integer.MAX_VALUE` is defined but has no lemma.

## Findings

| source | as written | input that shows it | evidently intended | confidence | as-written member | corrected member |
|---|---|---|---|---|---|---|
| src/main/java/me/torobev/billing/accounting/InMemoryAccounting.java:163-171 | the debited source is assigned before the credited destination is built; when the destination balance overflows a `long`, the `Account` constructor throws and `finally` puts back the debited source with the old destination, so the amount vanishes and no log entry is written | source `Account(1, 1)`, destination `Account(2, Long.MAX_VALUE)`, amount 1: `Account(1, 0)` and `Account(2, Long.MAX_VALUE)` are put back and `IllegalArgumentException` is thrown | a failed transfer leaves both accounts as they were, so the balances' sum is kept | high (not executed) | Ledger.SettleAsWrittenCounterexample | Ledger.Settle |
