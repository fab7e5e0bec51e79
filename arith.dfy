/**
 * Fixed-width arithmetic of the integer ALU: 32-bit wrap-around (the effect
 * of the final conversion to an unsigned 32-bit value), the two's-complement
 * reading of a 32-bit value, and the signed quotient that DIV produces.
 */
module Arith {

  /** Width of output values. */
  const XLEN: nat := 32

  /** 2^XLEN: every stored operand and result lies in [0, MODULUS). */
  const MODULUS: nat := 0x1_0000_0000

  /** The all-ones word, 2^XLEN - 1. */
  const ALL_ONES: nat := 0xFFFF_FFFF

  /** The bit pattern of the most negative 32-bit signed integer. */
  const INT32_MIN_BITS: nat := 0x8000_0000

  const INT32_MIN: int := -0x8000_0000
  const INT32_MAX: int := 0x7FFF_FFFF

  type U32 = x: int | 0 <= x < MODULUS

  /** A one-bit output signal. */
  type Bit = b: int | 0 <= b <= 1

  function Abs(x: int): nat
  {
    if x < 0 then -x else x
  }

  /** Conversion of an unbounded integer to an unsigned 32-bit value. */
  function Wrap(x: int): (r: U32)
    ensures 0 <= x < MODULUS ==> r == x
    ensures (x - r) % MODULUS == 0
  {
    x % MODULUS
  }

  /** Addition wraps around at most once: the carry out of bit 31 is dropped. */
  lemma AddWraps(a: U32, b: U32)
    ensures Wrap(a + b) == if a + b < MODULUS then a + b else a + b - MODULUS
  {
  }

  /** Subtraction borrows at most once: a negative difference is read modulo 2^32. */
  lemma SubWraps(a: U32, b: U32)
    ensures Wrap(a - b) == if b <= a then a - b else a - b + MODULUS
  {
  }

  /** The two's-complement reading of a 32-bit word. */
  function ToSigned(a: U32): (r: int)
    ensures INT32_MIN <= r <= INT32_MAX
    ensures Wrap(r) == a
    ensures (r < 0) == (a >= INT32_MIN_BITS)
  {
    if a < INT32_MIN_BITS then a else a - MODULUS
  }

  /** Integer division that rounds toward zero, as C and numpy's int32 conversion do. */
  function TruncDiv(n: int, d: int): (q: int)
    requires d != 0
    ensures Abs(n - q * d) < Abs(d)
    ensures n - q * d == 0 || (n - q * d < 0) == (n < 0)
    ensures Abs(q) <= Abs(n)
  {
    var m: int := NonNegDiv(Abs(n), Abs(d));
    var q := if (n < 0) == (d < 0) then m else -m;
    TruncDivCorrect(n, d, m, q);
    q
  }

  /** The remainder of the truncated quotient carries the sign of the dividend. */
  lemma TruncDivCorrect(n: int, d: int, m: int, q: int)
    requires d != 0 && 0 <= m <= Abs(n)
    requires m * Abs(d) <= Abs(n) < m * Abs(d) + Abs(d)
    requires q == if (n < 0) == (d < 0) then m else -m
    ensures Abs(n - q * d) < Abs(d)
    ensures n - q * d == 0 || (n - q * d < 0) == (n < 0)
    ensures Abs(q) <= Abs(n)
  {
    var a: int := Abs(d);
    var p := m * a;
    if n >= 0 && d > 0 {
      assert q * d == p;
    } else if n >= 0 {
      assert q * d == (-m) * (-a) == p;
    } else if d > 0 {
      assert q * d == (-m) * a == -p;
    } else {
      assert q * d == m * (-a) == -p;
    }
  }

  /** Quotient and remainder of two non-negative integers. */
  function NonNegDiv(n: nat, d: nat): (q: nat)
    requires d > 0
    ensures q * d <= n < q * d + d
    ensures q <= n
  {
    DivBounds(n, d);
    n / d
  }

  lemma DivBounds(n: nat, d: nat)
    requires d > 0
    ensures (n / d) * d <= n < (n / d) * d + d
    ensures n / d <= n
  {
    var q, r := n / d, n % d;
    assert n == d * q + r && 0 <= r < d;
    assert q * d == d * q;
    MulNonNegative(q, d - 1);
    assert q * d == q + q * (d - 1);
  }

  lemma MulNonNegative(x: nat, y: nat)
    ensures x * y >= 0
  {
  }

  /** Whether the signed quotient of a by b leaves the 32-bit signed range. */
  predicate IsInt32Overflow(a: U32, b: U32)
  {
    a == INT32_MIN_BITS && b == ALL_ONES
  }

  /**
   * The word DIV stores for a nonzero divisor: the truncated quotient of the
   * two's-complement readings, re-encoded as 32 bits. For INT32_MIN / -1 the
   * quotient 2^31 does not fit, and the float-to-int32 conversion that
   * produces it has no defined result; `overflow` stands for that value.
   */
  function Int32Div(a: U32, b: U32, overflow: U32): (r: U32)
    requires b != 0
    ensures IsInt32Overflow(a, b) ==> r == overflow
    ensures !IsInt32Overflow(a, b) ==> ToSigned(r) == TruncDiv(ToSigned(a), ToSigned(b))
  {
    if IsInt32Overflow(a, b) then overflow
    else
      var q := TruncDiv(ToSigned(a), ToSigned(b));
      QuotientFits(a, b);
      Wrap(q)
  }

  /** Apart from INT32_MIN / -1, the truncated signed quotient fits 32 signed bits. */
  lemma QuotientFits(a: U32, b: U32)
    requires b != 0 && !IsInt32Overflow(a, b)
    ensures INT32_MIN <= TruncDiv(ToSigned(a), ToSigned(b)) <= INT32_MAX
    ensures ToSigned(Wrap(TruncDiv(ToSigned(a), ToSigned(b)))) == TruncDiv(ToSigned(a), ToSigned(b))
  {
  }

  /** On operands below 2^31 signed and unsigned division agree. */
  lemma {:induction false} Int32DivOfNonNegative(a: U32, b: U32, overflow: U32)
    requires 0 < b && a < INT32_MIN_BITS && b < INT32_MIN_BITS
    ensures Int32Div(a, b, overflow) == a / b
  {
    DivBounds(a, b);
    var q := TruncDiv(a, b);
    assert q == a / b;
  }
}
