/**
 * The pieces of Java semantics the ledger relies on: the value ranges of
 * `int` and `long`, their two's-complement wrap-around, the folding of a
 * `long` into an `int` used by `hashCode`, and exceptions thrown by the
 * Guava precondition checks.
 */
module JavaLang {

  const IntMin: int := -0x8000_0000
  const IntMax: int := 0x7FFF_FFFF
  const LongMin: int := -0x8000_0000_0000_0000
  const LongMax: int := 0x7FFF_FFFF_FFFF_FFFF

  /** Modulus of `int` arithmetic, 2^32. */
  const IntModulus: int := 0x1_0000_0000
  /** Modulus of `long` arithmetic, 2^64. */
  const LongModulus: int := 0x1_0000_0000_0000_0000

  /** Values of a Java `int`. */
  type Int32 = x: int | -0x8000_0000 <= x <= 0x7FFF_FFFF

  /** Values of a Java `long`. */
  type Int64 = x: int | -0x8000_0000_0000_0000 <= x <= 0x7FFF_FFFF_FFFF_FFFF

  /** The exceptions the modelled code throws: `checkArgument` and `checkState` failures. */
  datatype Failure = IllegalArgument | IllegalState

  /** How a Java call ends: it returns a value or throws. */
  datatype Outcome<+T> = Normal(value: T) | Thrown(failure: Failure)

  /** The `int` that Java's arithmetic yields for the mathematical value `x`. */
  function WrapInt(x: int): (r: Int32)
    ensures (r - x) % IntModulus == 0
    ensures IntMin <= x <= IntMax ==> r == x
  {
    var m := x % IntModulus;
    if m <= IntMax then m else m - IntModulus
  }

  /** `WrapInt` depends on its argument only modulo 2^32. */
  lemma WrapIntCongruent(x: int, y: int)
    requires (x - y) % IntModulus == 0
    ensures WrapInt(x) == WrapInt(y)
  {
  }

  /** The `long` that Java's arithmetic yields for the mathematical value `x`. */
  function WrapLong(x: int): (r: Int64)
    ensures (r - x) % LongModulus == 0
    ensures LongMin <= x <= LongMax ==> r == x
  {
    var m := x % LongModulus;
    if m <= LongMax then m else m - LongModulus
  }

  /** Java's `a + b` on two `long`s. */
  function AddLong(a: Int64, b: Int64): (r: Int64)
    ensures r == WrapLong(a + b)
    ensures r == a + b <==> a + b <= LongMax && LongMin <= a + b
    // two non-negative longs whose true sum does not fit always wrap to a negative long
    ensures 0 <= a && 0 <= b && a + b > LongMax ==> r < 0
  {
    // the true sum is less than one modulus away from the range of `long`
    var x := a + b;
    if x > LongMax then x - LongModulus else if x < LongMin then x + LongModulus else x
  }

  /** Java's `a - b` on two `long`s. */
  function SubLong(a: Int64, b: Int64): (r: Int64)
    ensures r == WrapLong(a - b)
    ensures r == a - b <==> a - b <= LongMax && LongMin <= a - b
  {
    var x := a - b;
    if x > LongMax then x - LongModulus else if x < LongMin then x + LongModulus else x
  }

  /** Bitwise exclusive or of two non-negative integers, one bit at a time. */
  function BitXor(a: nat, b: nat): (r: nat)
    decreases a + b
  {
    if a == 0 && b == 0 then 0
    else 2 * BitXor(a / 2, b / 2) + (if a % 2 == b % 2 then 0 else 1)
  }

  lemma {:induction false} BitXorZero(a: nat)
    ensures BitXor(a, 0) == a
  {
    if a != 0 {
      BitXorZero(a / 2);
    }
  }

  /**
   * Java's `(int) (v ^ (v >>> 32))`: the high 32 bits of `v`'s two's-complement
   * pattern folded onto its low 32 bits, read back as an `int`.
   */
  function LongHash(v: Int64): (r: Int32)
  {
    var bits := if v < 0 then v + LongModulus else v;
    WrapInt(BitXor(bits % IntModulus, bits / IntModulus))
  }

  /** A non-negative `long` that fits in an `int` hashes to itself. */
  lemma LongHashOfSmall(v: Int64)
    requires 0 <= v <= IntMax
    ensures LongHash(v) == v
  {
    assert v / IntModulus == 0 && v % IntModulus == v;
    BitXorZero(v);
  }
}
