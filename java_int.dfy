/**
 * Java's 32-bit `int`: values, two's-complement wrap-around, and the bit pattern used for the
 * bitwise operators.
 */
module JavaInt {

  const TWO_32: int := 0x1_0000_0000
  const MIN_INT: int := -0x8000_0000
  const MAX_INT: int := 0x7FFF_FFFF

  type int32 = x: int | MIN_INT <= x <= MAX_INT

  /** The value of `i` after the wrap-around of Java's `int` arithmetic. */
  function Wrap(i: int): (r: int32)
    ensures (r - i) % TWO_32 == 0
  {
    ((i - MIN_INT) % TWO_32) + MIN_INT
  }

  /** Arithmetic that stays within the range of `int` does not wrap. */
  lemma WrapInRange(i: int)
    requires MIN_INT <= i <= MAX_INT
    ensures Wrap(i) == i
  {
  }

  /** Two numbers that differ by a multiple of 2^32 wrap to the same `int`. */
  lemma WrapCongruent(x: int, y: int)
    requires (x - y) % TWO_32 == 0
    ensures Wrap(x) == Wrap(y)
  {
    var k := (x - y) / TWO_32;
    assert x - MIN_INT == (y - MIN_INT) + k * TWO_32;
    ModShift(y - MIN_INT, k);
  }

  lemma ModShift(a: int, k: int)
    ensures (a + k * TWO_32) % TWO_32 == a % TWO_32
  {
  }

  /** The unsigned reading of an `int` (what `Integer.toUnsignedLong` gives). */
  function Unsigned(x: int32): (r: nat)
    ensures r < TWO_32 && (r - x) % TWO_32 == 0
  {
    if x < 0 then x + TWO_32 else x
  }

  /** The 32-bit pattern of an `int`. */
  function Bits(x: int32): bv32 {
    Unsigned(x) as bv32
  }

  /** The `int` whose bit pattern is `b`. */
  function Signed(b: bv32): int32 {
    var u := b as int;
    if u <= MAX_INT then u else u - TWO_32
  }

  /** Reading a bit pattern as an `int` and taking its pattern again gives the same bits. */
  lemma SignedBits(b: bv32)
    ensures Bits(Signed(b)) == b
  {
    UnsignedSigned(b);
  }

  /** The unsigned reading of the `int` whose bit pattern is `b` is the number `b` stands for. */
  lemma UnsignedSigned(b: bv32)
    ensures Unsigned(Signed(b)) == b as int
  {
    BitsRange(b);
    var u := b as int;
    assert Signed(b) == if u <= MAX_INT then u else u - TWO_32;
    UnsignedOfSigned(u);
  }

  /** A 32-bit pattern stands for a number below 2^32. */
  lemma BitsRange(b: bv32)
    ensures 0 <= b as int < TWO_32
  {
  }

  /** The same on numbers: the signed reading of `u`, read unsigned again, is `u`. */
  lemma UnsignedOfSigned(u: int)
    requires 0 <= u < TWO_32
    ensures Unsigned(if u <= MAX_INT then u else u - TWO_32) == u
  {
  }
}
