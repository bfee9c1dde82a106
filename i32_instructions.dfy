/**
 * The i32 test, unary and binary instructions of the interpreter's dispatch: which operator each
 * opcode applies, and to which of the two popped operands. `first` is the operand pushed first
 * (deeper in the stack), `second` the one on top, which the interpreter pops first.
 */
module I32Instructions {
  import opened Wrappers
  import opened Exceptions
  import opened JavaInt
  import opened Constants
  import opened I32

  const TWO_64: int := 0x1_0000_0000_0000_0000

  /** An `int` widened to `long` (sign extension) and read as an unsigned 64-bit number. */
  function UnsignedLong(x: int32): (r: nat)
    ensures r < TWO_64
  {
    if x < 0 then x + TWO_64 else x
  }

  /** `Long.compareUnsigned(x, y)` on two `int`s widened to `long`: negative, zero or positive. */
  function CompareUnsignedLong(x: int32, y: int32): (r: int)
    ensures r < 0 <==> UnsignedLong(x) < UnsignedLong(y)
    ensures r == 0 <==> x == y
  {
    if UnsignedLong(x) < UnsignedLong(y) then -1 else if UnsignedLong(x) == UnsignedLong(y) then 0 else 1
  }

  /** Sign extension keeps the unsigned order of 32-bit values, so comparing the widened `long`s compares the `int`s as unsigned 32-bit numbers. */
  lemma CompareUnsignedLongIs32Bit(x: int32, y: int32)
    ensures CompareUnsignedLong(x, y) < 0 <==> Unsigned(x) < Unsigned(y)
    ensures CompareUnsignedLong(x, y) > 0 <==> Unsigned(x) > Unsigned(y)
  {
  }

  predicate IsTest(op: bv8) {
    I32_EQ <= op <= I32_GE_U
  }

  /** The 1 or 0 a two-operand test pushes, computed as the dispatch does: its first `pop()` is `second`. */
  function Test(op: bv8, first: int32, second: int32): (r: int32)
    requires IsTest(op)
    ensures r == 0 || r == 1
  {
    var holds :=
      if op == I32_EQ then second == first
      else if op == I32_NE then second != first
      else if op == I32_LT_S then second > first
      else if op == I32_LT_U then CompareUnsignedLong(second, first) > 0
      else if op == I32_GT_S then second < first
      else if op == I32_GT_U then CompareUnsignedLong(second, first) < 0
      else if op == I32_LE_S then second >= first
      else if op == I32_LE_U then CompareUnsignedLong(second, first) >= 0
      else if op == I32_GE_S then second <= first
      else CompareUnsignedLong(second, first) <= 0;
    if holds then 1 else 0
  }

  /** The relation each test instruction decides in WebAssembly, `first` being its left-hand side. */
  predicate Relation(op: bv8, first: int32, second: int32)
    requires IsTest(op)
  {
    match op
    case 0x46 => first == second
    case 0x47 => first != second
    case 0x48 => first < second
    case 0x49 => Unsigned(first) < Unsigned(second)
    case 0x4A => first > second
    case 0x4B => Unsigned(first) > Unsigned(second)
    case 0x4C => first <= second
    case 0x4D => Unsigned(first) <= Unsigned(second)
    case 0x4E => first >= second
    case _ => Unsigned(first) >= Unsigned(second)
  }

  /** Every test pushes 1 exactly when its relation holds between the operands in push order. */
  lemma TestDecidesRelation(op: bv8, first: int32, second: int32)
    requires IsTest(op)
    ensures Test(op, first, second) == 1 <==> Relation(op, first, second)
    ensures Test(op, first, second) == 0 <==> !Relation(op, first, second)
  {
    CompareUnsignedLongIs32Bit(second, first);
    UnsignedOrder(first, second);
  }

  lemma UnsignedOrder(a: int32, b: int32)
    ensures Unsigned(a) == Unsigned(b) <==> a == b
  {
  }

  /** `i32.eqz`: 1 for zero, 0 otherwise. */
  function Eqz(x: int32): (r: int32)
    ensures r == 1 <==> x == 0
    ensures r == 0 <==> x != 0
  {
    if x == 0 then 1 else 0
  }

  predicate IsUnary(op: bv8) {
    I32_CLZ <= op <= I32_POPCNT
  }

  /** `i32.clz`, `i32.ctz`, `i32.popcnt`. */
  function Unary(op: bv8, x: int32): (r: int32)
    requires IsUnary(op)
    ensures 0 <= r <= 32
    ensures op == I32_CLZ ==> r == Clz(x)
    ensures op == I32_CTZ ==> r == Ctz(x)
    ensures op == I32_POPCNT ==> r == Popcnt(x)
  {
    if op == I32_CLZ then Clz(x) else if op == I32_CTZ then Ctz(x) else Popcnt(x)
  }

  predicate IsBinary(op: bv8) {
    I32_ADD <= op <= I32_ROTR
  }

  predicate IsShift(op: bv8) {
    I32_SHL <= op <= I32_ROTR
  }

  /** `x` shifted or rotated by `n`. */
  function Shift(op: bv8, x: int32, n: int32): int32
    requires IsShift(op)
  {
    if op == I32_SHL then Shl(x, n)
    else if op == I32_SHR_S then ShrS(x, n)
    else if op == I32_SHR_U then ShrU(x, n)
    else if op == I32_ROTL then RotL(x, n)
    else RotR(x, n)
  }

  /**
   * A binary instruction applied to `first` and `second` (`second` on top): `first` is the
   * dividend, the minuend and the value shifted. The bitwise operators are computed on
   * `second` and `first`, in the order they are popped.
   */
  function Binary(op: bv8, first: int32, second: int32): (r: Outcome<int32>)
    requires IsBinary(op)
    ensures r.Err? <==> (op == I32_DIV_S || op == I32_DIV_U || op == I32_REM_S || op == I32_REM_U) && second == 0
    ensures r.Err? ==> r.error == DivisionByZero
    ensures IsShift(op) ==> r == Ok(Shift(op, first, second))
  {
    if op == I32_ADD then Ok(Add(first, second))
    else if op == I32_SUB then Ok(Sub(first, second))
    else if op == I32_MUL then Ok(Mul(first, second))
    else if op == I32_DIV_S then DivS(first, second)
    else if op == I32_DIV_U then DivU(first, second)
    else if op == I32_REM_S then RemS(first, second)
    else if op == I32_REM_U then RemU(first, second)
    else if op == I32_AND then Ok(And(second, first))
    else if op == I32_OR then Ok(Or(second, first))
    else if op == I32_XOR then Ok(Xor(second, first))
    else Ok(Shift(op, first, second))
  }

  /** The dispatch as written: the shift and rotate cases compute `pop() << pop()`, shifting the top operand by the one below it. */
  function BinaryAsWritten(op: bv8, first: int32, second: int32): (r: Outcome<int32>)
    requires IsBinary(op)
    ensures !IsShift(op) ==> r == Binary(op, first, second)
    ensures IsShift(op) ==> r == Ok(Shift(op, second, first))
  {
    if IsShift(op) then Ok(Shift(op, second, first)) else Binary(op, first, second)
  }

  /** `1 << 3` in WebAssembly operand order is 8; the dispatch as written computes `3 << 1`, which is 6. */
  lemma ShiftOperandsSwapped()
    ensures BinaryAsWritten(I32_SHL, 1, 3) == Ok(6)
    ensures Binary(I32_SHL, 1, 3) == Ok(8)
  {
    assert Distance(3) == 3 && Distance(1) == 1;
    assert Pow2(3) == 8 && Pow2(1) == 2;
  }

  /** Subtraction and division take their operands in push order: `first - second` added back to `second` is `first`, and the quotient and remainder of `first` by `second` rebuild `first`. */
  lemma ArithmeticOperandOrder(first: int32, second: int32)
    ensures Binary(I32_ADD, Binary(I32_SUB, first, second).value, second) == Ok(first)
    ensures second != 0 ==>
      Binary(I32_ADD, Binary(I32_MUL, Binary(I32_DIV_S, first, second).value, second).value,
                      Binary(I32_REM_S, first, second).value) == Ok(first)
  {
    AddSubInverse(first, second);
    if second != 0 {
      DivRemIdentity(first, second);
    }
  }
}
