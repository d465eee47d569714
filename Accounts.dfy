/**
 * `Account`: the immutable state of one billing account, an id and a balance
 * in cents. Every balance change replaces the whole value.
 */
module Accounts {

  import opened JavaLang

  datatype Account = Account(id: Int32, balance: Int64) {

    /** What the constructor's argument checks guarantee of every instance. */
    predicate Valid()
    {
      id > 0 && balance >= 0
    }
  }

  /**
   * `new Account(id, amount)`: throws `IllegalArgumentException` unless the id
   * is positive and the balance non-negative; otherwise the getters give back
   * exactly the arguments.
   */
  function NewAccount(id: Int32, amount: Int64): (r: Outcome<Account>)
    ensures r.Normal? <==> id > 0 && amount >= 0
    ensures r.Normal? ==> r.value.Valid() && r.value.id == id && r.value.balance == amount
    ensures r.Thrown? ==> r.failure == IllegalArgument
  {
    if id > 0 && amount >= 0 then Normal(Account(id, amount)) else Thrown(IllegalArgument)
  }

  /** `equals`: field-wise comparison, which is exactly value equality. */
  function Equals(a: Account, b: Account): (r: bool)
    ensures r <==> a == b
  {
    a.id == b.id && a.balance == b.balance
  }

  /** `hashCode`: `31 * id + (int) (balance ^ (balance >>> 32))` in `int` arithmetic. */
  function HashCode(a: Account): (h: Int32)
  {
    WrapInt(31 * a.id + LongHash(a.balance))
  }

  /** `hashCode` is consistent with `equals`. */
  lemma EqualAccountsHashAlike(a: Account, b: Account)
    requires Equals(a, b)
    ensures HashCode(a) == HashCode(b)
  {
  }

  /** For an account whose id and balance are small the hash is the plain polynomial. */
  lemma HashCodeOfSmallAccount(a: Account)
    requires a.Valid() && 31 * a.id + a.balance <= IntMax
    ensures HashCode(a) == 31 * a.id + a.balance
  {
    LongHashOfSmall(a.balance);
  }
}
