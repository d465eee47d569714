/**
 * The `Accounting` interface: the outcomes of a money transfer. The
 * operations it declares are modelled, with the contracts its documentation
 * states, by the class in module `InMemory`.
 */
module Accounting {

  /** `TransferResult`, in declaration order. */
  datatype TransferResult =
    | Ok
    | SourceNotFound
    | DestinationNotFound
    | SourceBalanceCheckFailed
    | SameAccounts
    | AmountCheckFailed
    | Error

  /** Every outcome of a transfer, each once, in the enum's declaration order. */
  function AllResults(): (r: seq<TransferResult>)
    ensures |r| == 7
    ensures forall i, j :: 0 <= i < j < |r| ==> r[i] != r[j]
  {
    [Ok, SourceNotFound, DestinationNotFound, SourceBalanceCheckFailed, SameAccounts, AmountCheckFailed, Error]
  }

  /** A transfer has exactly seven possible outcomes: every one of them is listed. */
  lemma SevenOutcomes(x: TransferResult)
    ensures x in AllResults() && |AllResults()| == 7
  {
    match x
    case Ok => assert AllResults()[0] == x;
    case SourceNotFound => assert AllResults()[1] == x;
    case DestinationNotFound => assert AllResults()[2] == x;
    case SourceBalanceCheckFailed => assert AllResults()[3] == x;
    case SameAccounts => assert AllResults()[4] == x;
    case AmountCheckFailed => assert AllResults()[5] == x;
    case Error => assert AllResults()[6] == x;
  }
}
