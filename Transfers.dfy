/**
 * `Transfer`: the immutable record of one movement of money, from `srcId` to
 * `dstId`. A source id of 0 marks external income, a credit that debits no
 * account.
 */
module Transfers {

  import opened JavaLang

  /** The source id of external income. */
  const ExternalSource: int := 0

  datatype Transfer = Transfer(srcId: Int32, dstId: Int32, amount: Int64) {

    /** What the constructor's argument checks guarantee of every instance. */
    predicate Valid()
    {
      srcId >= 0 && dstId > 0 && amount > 0
    }

    /** A credit from outside the ledger, debiting no account. */
    predicate IsExternal()
    {
      srcId == ExternalSource
    }
  }

  /**
   * `new Transfer(srcId, dstId, amount)`: throws `IllegalArgumentException`
   * unless `srcId >= 0`, `dstId > 0` and `amount > 0`; otherwise the getters
   * give back exactly the arguments.
   */
  function NewTransfer(srcId: Int32, dstId: Int32, amount: Int64): (r: Outcome<Transfer>)
    ensures r.Normal? <==> srcId >= 0 && dstId > 0 && amount > 0
    ensures r.Normal? ==> r.value.Valid() && r.value == Transfer(srcId, dstId, amount)
    ensures r.Normal? ==> (r.value.IsExternal() <==> srcId == 0)
    ensures r.Thrown? ==> r.failure == IllegalArgument
  {
    if srcId >= 0 && dstId > 0 && amount > 0 then Normal(Transfer(srcId, dstId, amount))
    else Thrown(IllegalArgument)
  }

  /** `equals`: field-wise comparison, which is exactly value equality. */
  function Equals(a: Transfer, b: Transfer): (r: bool)
    ensures r <==> a == b
  {
    a.srcId == b.srcId && a.dstId == b.dstId && a.amount == b.amount
  }

  /** `hashCode`, accumulated in `int` arithmetic that wraps at every step. */
  function HashCode(t: Transfer): (r: Int32)
  {
    var h := WrapInt(31 * t.srcId + t.dstId);
    WrapInt(31 * h + LongHash(t.amount))
  }

  /** `hashCode` is consistent with `equals`. */
  lemma EqualTransfersHashAlike(a: Transfer, b: Transfer)
    requires Equals(a, b)
    ensures HashCode(a) == HashCode(b)
  {
  }

  /**
   * Wrapping after every step of the hash gives the same `int` as wrapping the
   * whole polynomial `961 * srcId + 31 * dstId + (int) (amount ^ (amount >>> 32))` once.
   */
  lemma HashCodeIsPolynomial(t: Transfer)
    ensures HashCode(t) == WrapInt(961 * t.srcId + 31 * t.dstId + LongHash(t.amount))
  {
    var x := 31 * t.srcId + t.dstId;
    var h := WrapInt(x);
    var k := (h - x) / IntModulus;
    assert h == x + k * IntModulus;
    WrapIntCongruent(31 * h + LongHash(t.amount), 961 * t.srcId + 31 * t.dstId + LongHash(t.amount));
  }
}
