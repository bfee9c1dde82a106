/**
 * The i32 operators as the interpreter computes them with Java's `int`: wrapping `+ - *`,
 * truncating `/` and `%`, the unsigned division helpers of `Integer`, the shift operators (whose
 * distance is taken modulo 32), the rotations and the bit counts.
 */
module I32 {
  import opened Wrappers
  import opened Exceptions
  import opened JavaInt

  function Pow2(n: nat): (p: nat)
    ensures p >= 1
  {
    if n == 0 then 1 else 2 * Pow2(n - 1)
  }

  lemma Pow2Add(a: nat, b: nat)
    ensures Pow2(a + b) == Pow2(a) * Pow2(b)
    decreases a
  {
    if a > 0 {
      Pow2Add(a - 1, b);
    }
  }

  lemma Pow2_32()
    ensures Pow2(32) == TWO_32
  {
    assert Pow2(4) == 16;
    Pow2Add(4, 4);
    assert Pow2(8) == 256;
    Pow2Add(8, 8);
    assert Pow2(16) == 0x1_0000;
    Pow2Add(16, 16);
  }

  /** A number in the unsigned range wraps to the `int` whose unsigned reading it is. */
  lemma UnsignedWrap(u: int)
    requires 0 <= u < TWO_32
    ensures Unsigned(Wrap(u)) == u
  {
    if u <= MAX_INT {
      assert Wrap(u) == u;
    } else {
      assert (u - MIN_INT) % TWO_32 == u - MIN_INT - TWO_32;
    }
  }

  lemma UnsignedQuotient(u: nat, d: nat)
    requires u < TWO_32 && d >= 1
    ensures Unsigned(Wrap(u / d)) == u / d
  {
    DivAtMost(u, d);
    UnsignedWrap(u / d);
  }

  function Add(a: int32, b: int32): (r: int32)
    ensures (r - (a + b)) % TWO_32 == 0
  {
    Wrap(a + b)
  }

  function Sub(a: int32, b: int32): (r: int32)
    ensures (r - (a - b)) % TWO_32 == 0
  {
    Wrap(a - b)
  }

  function Mul(a: int32, b: int32): (r: int32)
    ensures (r - a * b) % TWO_32 == 0
  {
    Wrap(a * b)
  }

  /** Subtracting and adding back the same `int` gives the original, overflow or not. */
  lemma AddSubInverse(a: int32, b: int32)
    ensures Add(Sub(a, b), b) == a
  {
    var d := Sub(a, b);
    assert (d + b - a) % TWO_32 == 0;
    WrapCongruent(d + b, a);
    WrapInRange(a);
  }

  /** Java's `/` on non-zero divisors: the quotient rounded toward zero. */
  function TruncDiv(a: int, b: int): (q: int)
    requires b != 0
  {
    var m := Abs(a) / Abs(b);
    if (a < 0) == (b < 0) then m else -m
  }

  /** `a / b` on `int`: throws on a zero divisor; `Integer.MIN_VALUE / -1` wraps to `Integer.MIN_VALUE`. */
  function DivS(a: int32, b: int32): (r: Outcome<int32>)
    ensures r.Err? <==> b == 0
    ensures r.Err? ==> r.error == DivisionByZero
    ensures r.Ok? ==> (r.value - TruncDiv(a, b)) % TWO_32 == 0
    ensures r.Ok? && !(a == MIN_INT && b == -1) ==> r.value == TruncDiv(a, b)
  {
    if b == 0 then Err(DivisionByZero)
    else
      TruncDivRange(a, b);
      Ok(Wrap(TruncDiv(a, b)))
  }

  lemma TruncDivRange(a: int32, b: int32)
    requires b != 0
    ensures !(a == MIN_INT && b == -1) ==> MIN_INT <= TruncDiv(a, b) <= MAX_INT
  {
    NatDivRange(Abs(a), Abs(b));
  }

  function Abs(x: int): int {
    if x < 0 then -x else x
  }

  lemma NatDivRange(a: nat, b: nat)
    requires 1 <= b && a <= -MIN_INT
    ensures a / b <= a
    ensures a / b == -MIN_INT ==> b == 1
  {
    DivAtMost(a, b);
  }

  lemma DivAtMost(a: nat, b: nat)
    requires b >= 1
    ensures a / b <= a
  {
  }

  /** `a % b` on `int`: the sign of the dividend; throws on a zero divisor. */
  function RemS(a: int32, b: int32): (r: Outcome<int32>)
    ensures r.Err? <==> b == 0
    ensures r.Err? ==> r.error == DivisionByZero
    ensures r.Ok? ==> r.value == a - TruncDiv(a, b) * b
  {
    if b == 0 then Err(DivisionByZero)
    else
      RemRange(a, b);
      Ok(a - TruncDiv(a, b) * b)
  }

  lemma RemRange(a: int32, b: int32)
    requires b != 0
    ensures var r := a - TruncDiv(a, b) * b;
      -Abs(b) < r < Abs(b) && (r == 0 || (r < 0 <==> a < 0))
  {
    var m := Abs(a) / Abs(b);
    var t := TruncDiv(a, b);
    SignedProduct(m, Abs(b));
    var p := m * Abs(b);
    assert t * b == (if a < 0 then -p else p);
    assert Abs(a) == p + Abs(a) % Abs(b);
  }

  lemma SignedProduct(m: int, n: int)
    ensures (-m) * n == -(m * n) && m * (-n) == -(m * n) && (-m) * (-n) == m * n
  {
  }

  /** Java's identity `(a / b) * b + a % b == a`, with all operations on `int`, including the overflowing `Integer.MIN_VALUE / -1`. */
  lemma DivRemIdentity(a: int32, b: int32)
    requires b != 0
    ensures Add(Mul(DivS(a, b).value, b), RemS(a, b).value) == a
  {
    if a == MIN_INT && b == -1 {
      DivRemOverflow();
    } else {
      DivRemExact(a, b);
    }
  }

  lemma DivRemOverflow()
    ensures DivS(MIN_INT, -1).value == MIN_INT && RemS(MIN_INT, -1).value == 0
  {
    assert TruncDiv(MIN_INT, -1) == -MIN_INT;
  }

  lemma DivRemExact(a: int32, b: int32)
    requires b != 0 && !(a == MIN_INT && b == -1)
    ensures Add(Mul(DivS(a, b).value, b), RemS(a, b).value) == a
  {
    var t := TruncDiv(a, b);
    TruncDivRange(a, b);
    var p := t * b;
    var w := Wrap(p);
    assert Mul(t, b) == w;
    assert RemS(a, b).value == a - p;
    WrapCongruent(w + (a - p), a);
  }

  /** `a % b` keeps the sign of `a` and is smaller than `b` in magnitude. */
  lemma RemSign(a: int32, b: int32)
    requires b != 0
    ensures var r := RemS(a, b).value;
      (r == 0 || (r < 0 <==> a < 0)) && -Abs(b) < r < Abs(b)
  {
    RemRange(a, b);
  }

  /** `Integer.divideUnsigned`. */
  function DivU(a: int32, b: int32): (r: Outcome<int32>)
    ensures r.Err? <==> b == 0
    ensures r.Err? ==> r.error == DivisionByZero
    ensures r.Ok? ==> Unsigned(r.value) == Unsigned(a) / Unsigned(b)
  {
    if b == 0 then Err(DivisionByZero)
    else
      UnsignedQuotient(Unsigned(a), Unsigned(b));
      Ok(Wrap(Unsigned(a) / Unsigned(b)))
  }

  /** `Integer.remainderUnsigned`. */
  function RemU(a: int32, b: int32): (r: Outcome<int32>)
    ensures r.Err? <==> b == 0
    ensures r.Err? ==> r.error == DivisionByZero
    ensures r.Ok? ==> Unsigned(r.value) == Unsigned(a) % Unsigned(b) < Unsigned(b)
  {
    if b == 0 then Err(DivisionByZero)
    else
      UnsignedWrap(Unsigned(a) % Unsigned(b));
      Ok(Wrap(Unsigned(a) % Unsigned(b)))
  }

  /** The unsigned quotient and remainder rebuild the unsigned dividend. */
  lemma DivRemUnsigned(a: int32, b: int32)
    requires b != 0
    ensures Unsigned(DivU(a, b).value) * Unsigned(b) + Unsigned(RemU(a, b).value) == Unsigned(a)
  {
  }

  datatype Bitwise = AndBits | OrBits | XorBits

  /** One bit of the result of a bitwise operator, from one bit of each operand. */
  function BitOf(op: Bitwise, x: nat, y: nat): (r: nat)
    requires x < 2 && y < 2
    ensures r < 2
    ensures op == AndBits ==> (r == 1 <==> x == 1 && y == 1)
    ensures op == OrBits ==> (r == 1 <==> x == 1 || y == 1)
    ensures op == XorBits ==> (r == 1 <==> x != y)
  {
    match op
    case AndBits => x * y
    case OrBits => if x + y > 0 then 1 else 0
    case XorBits => (x + y) % 2
  }

  /** The low `width` bits of the bitwise combination of `u` and `v`. */
  function Combine(op: Bitwise, u: nat, v: nat, width: nat): (r: nat)
    ensures r < Pow2(width)
    decreases width
  {
    if width == 0 then 0
    else 2 * Combine(op, u / 2, v / 2, width - 1) + BitOf(op, u % 2, v % 2)
  }

  /** `a & b`, `a | b` and `a ^ b` on `int`, bit by bit over the 32 bits of the operands. */
  function Bitwise32(op: Bitwise, a: int32, b: int32): (r: int32)
    ensures Unsigned(r) == Combine(op, Unsigned(a), Unsigned(b), 32)
  {
    Pow2_32();
    UnsignedWrap(Combine(op, Unsigned(a), Unsigned(b), 32));
    Wrap(Combine(op, Unsigned(a), Unsigned(b), 32))
  }

  function And(a: int32, b: int32): int32 {
    Bitwise32(AndBits, a, b)
  }

  function Or(a: int32, b: int32): int32 {
    Bitwise32(OrBits, a, b)
  }

  function Xor(a: int32, b: int32): int32 {
    Bitwise32(XorBits, a, b)
  }

  lemma {:induction false} CombineXorTwice(u: nat, v: nat, width: nat)
    requires u < Pow2(width)
    ensures Combine(XorBits, Combine(XorBits, u, v, width), v, width) == u
    decreases width
  {
    if width > 0 {
      var c := Combine(XorBits, u / 2, v / 2, width - 1);
      var b := BitOf(XorBits, u % 2, v % 2);
      Halves(c, b);
      CombineXorTwice(u / 2, v / 2, width - 1);
      assert BitOf(XorBits, b, v % 2) == u % 2;
    }
  }

  /** The halving steps of `Combine` recover the two parts of `2 * c + b`. */
  lemma Halves(c: nat, b: nat)
    requires b < 2
    ensures (2 * c + b) / 2 == c && (2 * c + b) % 2 == b
  {
  }

  lemma {:induction false} CombineSame(op: Bitwise, u: nat, width: nat)
    requires op != XorBits && u < Pow2(width)
    ensures Combine(op, u, u, width) == u
    decreases width
  {
    if width > 0 {
      CombineSame(op, u / 2, width - 1);
    }
  }

  lemma {:induction false} CombineZero(op: Bitwise, u: nat, width: nat)
    requires op != AndBits && u < Pow2(width)
    ensures Combine(op, u, 0, width) == u
    decreases width
  {
    if width > 0 {
      CombineZero(op, u / 2, width - 1);
    }
  }

  /** The unsigned reading determines the `int`. */
  lemma UnsignedInjective(a: int32, b: int32)
    requires Unsigned(a) == Unsigned(b)
    ensures a == b
  {
  }

  /** Applying `^` with the same operand twice gives back the original `int`. */
  lemma XorInvolutive(a: int32, b: int32)
    ensures Xor(Xor(a, b), b) == a
  {
    Pow2_32();
    CombineXorTwice(Unsigned(a), Unsigned(b), 32);
    UnsignedInjective(Xor(Xor(a, b), b), a);
  }

  /** `a & a == a`, `a | a == a`, `a | 0 == a` and `a ^ 0 == a`. */
  lemma BitwiseIdentities(a: int32)
    ensures And(a, a) == a && Or(a, a) == a
    ensures Or(a, 0) == a && Xor(a, 0) == a
  {
    Pow2_32();
    CombineSame(AndBits, Unsigned(a), 32);
    CombineSame(OrBits, Unsigned(a), 32);
    CombineZero(OrBits, Unsigned(a), 32);
    CombineZero(XorBits, Unsigned(a), 32);
    UnsignedInjective(And(a, a), a);
    UnsignedInjective(Or(a, a), a);
    UnsignedInjective(Or(a, 0), a);
    UnsignedInjective(Xor(a, 0), a);
  }

  /** The shift distance Java uses for an `int`: the low five bits of the right operand. */
  function Distance(n: int32): (d: nat)
    ensures d < 32 && (d - n) % 32 == 0
  {
    Unsigned(n) % 32
  }

  /** `x << n`. */
  function Shl(x: int32, n: int32): (r: int32)
    ensures (r - x * Pow2(Distance(n))) % TWO_32 == 0
  {
    Wrap(x * Pow2(Distance(n)))
  }

  /** `x >> n`: rounds toward negative infinity. */
  function ShrS(x: int32, n: int32): (r: int32)
    ensures r * Pow2(Distance(n)) <= x < (r + 1) * Pow2(Distance(n))
  {
    var p := Pow2(Distance(n));
    DivBounds(x, p);
    x / p
  }

  lemma DivBounds(x: int32, p: nat)
    requires p >= 1
    ensures MIN_INT <= x / p <= MAX_INT
    ensures (x / p) * p <= x < (x / p + 1) * p
  {
    if x >= 0 {
      DivAtMost(x, p);
    } else {
      var q := x / p;
      if q < x {
        MulNegative(q + 1, p);
      }
    }
  }

  lemma MulNegative(c: int, p: nat)
    requires c <= 0 && p >= 1
    ensures c * p <= c
  {
  }

  /** `x >>> n`: the unsigned reading shifted, zeros coming in from the left. */
  function ShrU(x: int32, n: int32): (r: int32)
    ensures Unsigned(r) == Unsigned(x) / Pow2(Distance(n))
  {
    UnsignedQuotient(Unsigned(x), Pow2(Distance(n)));
    Wrap(Unsigned(x) / Pow2(Distance(n)))
  }

  /** Bit `i` of `u`. */
  function Bit(u: int, i: nat): nat {
    (u / Pow2(i)) % 2
  }

  /** `Integer.rotateLeft(x, n)`: bit `i` of the result is bit `i - n` (modulo 32) of `x`. */
  function RotL(x: int32, n: int32): (r: int32)
    ensures forall i :: 0 <= i < 32 ==> Bit(Unsigned(r), i) == Bit(Unsigned(x), (i + 32 - Distance(n)) % 32)
  {
    var d := Distance(n);
    var u := Unsigned(x);
    RotateLeftValue(u, d);
    var v := (u * Pow2(d)) % TWO_32 + u / Pow2(32 - d);
    UnsignedWrap(v);
    Wrap(v)
  }

  /** `Integer.rotateRight(x, n)`: bit `i` of the result is bit `i + n` (modulo 32) of `x`. */
  function RotR(x: int32, n: int32): (r: int32)
    ensures forall i :: 0 <= i < 32 ==> Bit(Unsigned(r), i) == Bit(Unsigned(x), (i + Distance(n)) % 32)
  {
    var d := Distance(n);
    var u := Unsigned(x);
    RotateRightValue(u, d);
    var v := u / Pow2(d) + (u * Pow2(32 - d)) % TWO_32;
    UnsignedWrap(v);
    Wrap(v)
  }

  /** The bits of `a * 2^k + b`, for `b` below `2^k`: those of `b` below position `k`, those of `a` from `k` on. */
  lemma BitOfSum(a: nat, b: nat, k: nat, i: nat)
    requires b < Pow2(k)
    ensures Bit(a * Pow2(k) + b, i) == if i < k then Bit(b, i) else Bit(a, i - k)
  {
    if i < k {
      LowBitOfSum(a, b, k, i);
    } else {
      var v := a * Pow2(k) + b;
      DivUnique(v, Pow2(k), a, b);
      HighBits(v, k, i - k);
    }
  }

  lemma LowBitOfSum(a: nat, b: nat, k: nat, i: nat)
    requires b < Pow2(k) && i < k
    ensures Bit(a * Pow2(k) + b, i) == Bit(b, i)
  {
    Pow2Add(k - i, i);
    assert Pow2(k - i) == 2 * Pow2(k - i - 1);
    EvenMultipleBit(a, b, Pow2(i), Pow2(k - i - 1), Pow2(k));
  }

  /** Adding a multiple of `2 * p` does not change the parity of the quotient by `p`. */
  lemma EvenMultipleBit(a: nat, b: nat, p: nat, h: nat, m: nat)
    requires p >= 1 && m == (2 * h) * p
    ensures ((a * m + b) / p) % 2 == (b / p) % 2
  {
    var x: nat := a * h;
    var c: nat, e: nat := b / p, b % p;
    assert a * m == (2 * x) * p by {
      MulAssociates(a, 2 * h, p);
    }
    MulDistributes(2 * x, c, p);
    DivUnique(a * m + b, p, 2 * x + c, e);
  }

  /** The 32 bits of `v` are those of `u` rotated right by `k` places: bit `i` of `v` is bit `i + k` (modulo 32) of `u`. */
  predicate RotatedRight(v: nat, u: nat, k: int) {
    forall i :: 0 <= i < 32 ==> Bit(v, i) == Bit(u, (i + k) % 32)
  }

  /**
   * Rotating the 32 bits of `u` right by `k`: the low `32 - k` bits of the result are the high
   * bits of `u`, its high `k` bits the low bits of `u`.
   */
  lemma RotateRightBits(u: nat, k: nat) returns (v: nat)
    requires u < TWO_32 && k <= 32
    ensures v == (u % Pow2(k)) * Pow2(32 - k) + u / Pow2(k)
    ensures v < TWO_32 && RotatedRight(v, u, k)
  {
    var p, q := Pow2(k), Pow2(32 - k);
    Pow2Add(32 - k, k);
    Pow2_32();
    var hi, lo := Split(u, p);
    v := Join(lo, q, hi);
    RotateParts(u, q, p);
    forall i | 0 <= i < 32
      ensures Bit(v, i) == Bit(u, (i + k) % 32)
    {
      BitOfSum(lo, hi, 32 - k, i);
      if i < 32 - k {
        HighBits(u, k, i);
        assert (i + k) % 32 == i + k;
      } else {
        BitOfSum(hi, lo, k, i + k - 32);
        assert (i + k) % 32 == i + k - 32;
      }
    }
  }

  /** Quotient and remainder of `u` by `p`. */
  lemma Split(u: nat, p: nat) returns (hi: nat, lo: nat)
    requires p >= 1
    ensures hi == u / p && lo == u % p && u == hi * p + lo && lo < p
  {
    hi, lo := u / p, u % p;
  }

  lemma Join(lo: nat, q: nat, hi: nat) returns (v: nat)
    ensures v == lo * q + hi
  {
    v := lo * q + hi;
  }

  /** Bit `i` of `u / 2^k` is bit `i + k` of `u`. */
  lemma HighBits(u: nat, k: nat, i: nat)
    ensures Bit(u / Pow2(k), i) == Bit(u, i + k)
  {
    Pow2Add(k, i);
    DivDivBy(u, Pow2(k), Pow2(i), Pow2(k + i));
  }

  lemma DivDivBy(u: nat, a: nat, b: nat, c: nat)
    requires a >= 1 && b >= 1 && c == a * b
    ensures u / a / b == u / c
  {
    DivDivGeneral(u, a, b);
  }

  /** The value `rotateLeft` computes from the unsigned reading `u` and the distance `d`: `u` rotated right by `32 - d`, that is left by `d`. */
  lemma RotateLeftValue(u: nat, d: nat)
    requires u < TWO_32 && d < 32
    ensures 0 <= (u * Pow2(d)) % TWO_32 + u / Pow2(32 - d) < TWO_32
    ensures RotatedRight((u * Pow2(d)) % TWO_32 + u / Pow2(32 - d), u, 32 - d)
  {
    Pow2Add(d, 32 - d);
    Pow2_32();
    RotateParts(u, Pow2(d), Pow2(32 - d));
    var w := RotateRightBits(u, 32 - d);
    assert w == (u * Pow2(d)) % TWO_32 + u / Pow2(32 - d);
  }

  /** The value `rotateRight` computes from the unsigned reading `u` and the distance `d`. */
  lemma RotateRightValue(u: nat, d: nat)
    requires u < TWO_32 && d < 32
    ensures 0 <= u / Pow2(d) + (u * Pow2(32 - d)) % TWO_32 < TWO_32
    ensures RotatedRight(u / Pow2(d) + (u * Pow2(32 - d)) % TWO_32, u, d)
  {
    Pow2Add(32 - d, d);
    Pow2_32();
    RotateParts(u, Pow2(32 - d), Pow2(d));
    var w := RotateRightBits(u, d);
    assert w == u / Pow2(d) + (u * Pow2(32 - d)) % TWO_32;
  }

  /** Rotating right undoes rotating left by the same distance. */
  lemma {:induction false} RotateInverse(x: int32, n: int32)
    ensures RotR(RotL(x, n), n) == x
  {
    if Distance(n) == 0 {
      RotateZero(x, n);
    } else {
      RotateNonzero(x, n);
    }
  }

  lemma RotateZero(x: int32, n: int32)
    requires Distance(n) == 0
    ensures RotL(x, n) == x && RotR(x, n) == x
  {
    Pow2_32();
    var u := Unsigned(x);
    assert (u * Pow2(0)) % TWO_32 + u / Pow2(32) == u;
    ModShift(0, u);
    assert u / Pow2(0) + (u * Pow2(32)) % TWO_32 == u;
    WrapCongruent(u, x);
    WrapInRange(x);
  }

  lemma RotateNonzero(x: int32, n: int32)
    requires Distance(n) != 0
    ensures RotR(RotL(x, n), n) == x
  {
    var d := Distance(n);
    var u := Unsigned(x);
    var p, q := Pow2(d), Pow2(32 - d);
    Pow2_32();
    Pow2Add(d, 32 - d);
    var v := RotateNat(u, p, q, TWO_32);
    var w := RotL(x, n);
    assert w == Wrap(v);
    UnsignedWrap(v);
    assert RotR(w, n) == Wrap(u);
    WrapCongruent(u, x);
    WrapInRange(x);
  }

  /** Rotation on unsigned numbers below `p * q`, split at a factor `q`. */
  lemma RotateNat(u: nat, p: nat, q: nat, m: nat) returns (v: nat)
    requires p >= 1 && q >= 1 && m == p * q && u < m
    ensures v == (u * p) % m + u / q
    ensures v < m && v / p + (v * q) % m == u
  {
    v := (u * p) % m + u / q;
    var hi, lo := u / q, u % q;
    RotateParts(u, p, q);
    RotateBack(lo, hi, p, q);
  }

  lemma RotateParts(u: nat, p: nat, q: nat)
    requires p >= 1 && q >= 1 && u < p * q
    ensures (u * p) % (p * q) == (u % q) * p
    ensures u / q < p
    ensures (u % q) * p + u / q < p * q
  {
    var hi, lo := u / q, u % q;
    RotateLowPart(u, p, q, hi, lo);
    HighPartBound(u, p, q, hi, lo);
    MulMonotone(lo, q - 1, p);
    MulDistributes(q, -1, p);
  }

  lemma RotateLowPart(u: nat, p: nat, q: nat, hi: nat, lo: nat)
    requires p >= 1 && q >= 1 && u == hi * q + lo && lo < q
    ensures (u * p) % (p * q) == lo * p
  {
    calc {
      u * p;
      { MulDistributes(hi * q, lo, p); }
      (hi * q) * p + lo * p;
      { MulAssociates(hi, q, p); }
      hi * (p * q) + lo * p;
    }
    MulMonotone(lo + 1, q, p);
    MulDistributes(lo, 1, p);
    ModUnique(u * p, p * q, hi, lo * p);
  }

  lemma HighPartBound(u: nat, p: nat, q: nat, hi: nat, lo: nat)
    requires p >= 1 && q >= 1 && u < p * q && u == hi * q + lo
    ensures hi < p
  {
    if hi >= p {
      MulMonotone(p, hi, q);
    }
  }

  lemma RotateBack(lo: nat, hi: nat, p: nat, q: nat)
    requires p >= 1 && q >= 1 && lo < q && hi < p
    ensures (lo * p + hi) / p == lo
    ensures ((lo * p + hi) * q) % (p * q) == hi * q
  {
    DivUnique(lo * p + hi, p, lo, hi);
    assert (lo * p + hi) * q == lo * (p * q) + hi * q;
    MulMonotone(hi + 1, p, q);
    ModUnique((lo * p + hi) * q, p * q, lo, hi * q);
  }

  lemma ModUnique(u: nat, m: nat, q: nat, r: nat)
    requires m >= 1 && u == q * m + r && r < m
    ensures u % m == r
  {
    DivUnique(u, m, q, r);
  }

  /** The number of significant bits of `u`. */
  function BitLength(u: nat): (n: nat)
    ensures u < Pow2(n) && (u > 0 ==> Pow2(n - 1) <= u)
  {
    if u == 0 then 0 else 1 + BitLength(u / 2)
  }

  /** `Integer.numberOfLeadingZeros`. */
  function Clz(x: int32): (r: int32)
    ensures 0 <= r <= 32
    ensures Unsigned(x) < Pow2(32 - r) && (r < 32 ==> Pow2(31 - r) <= Unsigned(x))
    ensures r == 32 <==> x == 0
    ensures r == 0 <==> x < 0
  {
    var n := BitLength(Unsigned(x));
    BitLengthSign(x);
    32 - n
  }

  lemma BitLengthSign(x: int32)
    ensures BitLength(Unsigned(x)) <= 32
    ensures BitLength(Unsigned(x)) == 32 <==> x < 0
  {
    Pow2_32();
    assert Pow2(32) == 2 * Pow2(31);
    BitLengthAtMost(Unsigned(x), 32);
    if x < 0 {
      BitLengthAtLeast(Unsigned(x), 31);
    } else {
      BitLengthAtMost(Unsigned(x), 31);
    }
  }

  lemma BitLengthAtMost(u: nat, k: nat)
    requires u < Pow2(k)
    ensures BitLength(u) <= k
  {
    if u > 0 && BitLength(u) > k {
      Pow2Monotone(k, BitLength(u) - 1);
    }
  }

  lemma BitLengthAtLeast(u: nat, k: nat)
    requires Pow2(k) <= u
    ensures BitLength(u) > k
  {
    if BitLength(u) <= k {
      Pow2Monotone(BitLength(u), k);
    }
  }

  lemma Pow2Monotone(a: nat, b: nat)
    requires a <= b
    ensures Pow2(a) <= Pow2(b)
    decreases b - a
  {
    if a < b {
      Pow2Monotone(a + 1, b);
    }
  }

  /** The number of trailing zero bits among the low `width` bits of `u`. */
  function TrailingZeros(u: nat, width: nat): (n: nat)
    ensures n <= width
    ensures n < width ==> (u / Pow2(n)) % 2 == 1
    ensures u % Pow2(n) == 0
    decreases width
  {
    if width == 0 || u % 2 == 1 then 0
    else
      var n := TrailingZeros(u / 2, width - 1);
      DivDiv(u, n);
      EvenMultiple(u, n);
      1 + n
  }

  lemma EvenMultiple(u: nat, n: nat)
    requires u % 2 == 0 && (u / 2) % Pow2(n) == 0
    ensures u % Pow2(n + 1) == 0
  {
    var k := u / 2 / Pow2(n);
    assert u / 2 == k * Pow2(n);
    assert u == k * Pow2(n + 1);
    ModUnique(u, Pow2(n + 1), k, 0);
  }

  lemma DivDiv(u: nat, n: nat)
    ensures u / 2 / Pow2(n) == u / Pow2(n + 1)
  {
    DivDivGeneral(u, 2, Pow2(n));
  }

  lemma DivDivGeneral(u: nat, a: nat, b: nat)
    requires a >= 1 && b >= 1
    ensures u / a / b == u / (a * b)
  {
    var q1, r1 := u / a, u % a;
    var q, r2 := q1 / b, q1 % b;
    DivDivParts(u, a, b, q1, r1, q, r2);
    DivUnique(u, a * b, q, r2 * a + r1);
  }

  /** Dividing by `a` and then by `b` splits `u` into a multiple of `a * b` and a remainder below it. */
  lemma DivDivParts(u: nat, a: nat, b: nat, q1: nat, r1: nat, q: nat, r2: nat)
    requires a >= 1 && b >= 1 && u == q1 * a + r1 && r1 < a && q1 == q * b + r2 && r2 < b
    ensures u == q * (a * b) + (r2 * a + r1) && r2 * a + r1 < a * b
  {
    calc {
      u;
      (q * b + r2) * a + r1;
      { MulDistributes(q * b, r2, a); }
      (q * b) * a + r2 * a + r1;
      { MulAssociates(q, b, a); }
      q * (a * b) + (r2 * a + r1);
    }
    MulMonotone(r2, b - 1, a);
    MulDistributes(b, -1, a);
  }

  lemma MulDistributes(x: int, y: int, m: int)
    ensures (x + y) * m == x * m + y * m
  {
  }

  lemma MulAssociates(x: int, y: int, z: int)
    ensures (x * y) * z == x * (z * y)
  {
  }

  lemma DivUnique(u: nat, m: nat, q: nat, r: nat)
    requires m >= 1 && u == q * m + r && r < m
    ensures u / m == q
  {
    var q' := u / m;
    if q' < q {
      MulMonotone(q' + 1, q, m);
    } else if q' > q {
      MulMonotone(q + 1, q', m);
    }
  }

  lemma MulMonotone(a: int, b: int, m: nat)
    requires a <= b
    ensures a * m <= b * m
  {
  }

  /** `Integer.numberOfTrailingZeros`: 32 for zero, otherwise the index of the lowest set bit. */
  function Ctz(x: int32): (r: int32)
    ensures 0 <= r <= 32
    ensures r < 32 ==> (Unsigned(x) / Pow2(r)) % 2 == 1
    ensures Unsigned(x) % Pow2(r) == 0
  {
    TrailingZeros(Unsigned(x), 32)
  }

  /** The number of one bits of `u`. */
  function OneBits(u: nat): (n: nat)
    ensures n <= BitLength(u)
  {
    if u == 0 then 0 else u % 2 + OneBits(u / 2)
  }

  /** `Integer.bitCount`: the number of positions among the 32 whose bit is one. */
  function Popcnt(x: int32): (r: int32)
    ensures r == BitCount(Unsigned(x), 32)
    ensures 0 <= r <= 32
    ensures r == 0 <==> x == 0
  {
    BitLengthSign(x);
    OneBitsZero(Unsigned(x));
    Pow2_32();
    OneBitsCount(Unsigned(x), 32);
    OneBits(Unsigned(x))
  }

  /** The number of one bits among bits `0` to `n - 1` of `u`, position by position. */
  function BitCount(u: nat, n: nat): (c: nat)
    ensures c <= n
  {
    if n == 0 then 0 else BitCount(u, n - 1) + Bit(u, n - 1)
  }

  /** Counting the bits of `u` is counting bit 0 and then the bits of `u / 2`. */
  lemma {:induction false} BitCountHalves(u: nat, n: nat)
    requires n >= 1
    ensures BitCount(u, n) == u % 2 + BitCount(u / 2, n - 1)
  {
    if n > 1 {
      BitCountHalves(u, n - 1);
      DivDiv(u, n - 2);
    }
  }

  /** Halving off the low bit until nothing is left counts the same bits, for a number below `2^n`. */
  lemma {:induction false} OneBitsCount(u: nat, n: nat)
    requires u < Pow2(n)
    ensures OneBits(u) == BitCount(u, n)
  {
    if n > 0 {
      BitCountHalves(u, n);
      OneBitsCount(u / 2, n - 1);
    }
  }

  lemma OneBitsZero(u: nat)
    ensures OneBits(u) == 0 <==> u == 0
  {
    if u > 0 && u % 2 == 0 {
      OneBitsZero(u / 2);
    }
  }
}
