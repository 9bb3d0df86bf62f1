/** Rust's `i64`: wrapping arithmetic, truncating division, masked shifts and
    bitwise operators, all written out over the unbounded integers. */
module Int64 {
  import opened Wrappers

  const MIN: int := -0x8000_0000_0000_0000
  const MAX: int := 0x7fff_ffff_ffff_ffff

  type i64 = x: int | MIN <= x <= MAX

  /** The two's-complement value congruent to `x` modulo 2^64. */
  function Wrap(x: int): (r: i64)
    ensures MIN <= x <= MAX ==> r == x
  {
    (x - MIN) % 0x1_0000_0000_0000_0000 + MIN
  }

  function Pow2(n: nat): (r: int)
    ensures r >= 1
  {
    if n == 0 then 1 else 2 * Pow2(n - 1)
  }

  lemma Pow2Of63()
    ensures Pow2(63) == -MIN
  {
    assert Pow2(8) == 0x100;
    assert Pow2(16) == 0x1_0000;
    assert Pow2(24) == 0x100_0000;
    assert Pow2(32) == 0x1_0000_0000;
    assert Pow2(40) == 0x100_0000_0000;
    assert Pow2(48) == 0x1_0000_0000_0000;
    assert Pow2(56) == 0x100_0000_0000_0000;
  }

  function Magnitude(a: int): nat {
    if a >= 0 then a else -a
  }

  /** Quotient rounded toward zero, as Rust's `/` rounds it. */
  function TruncDiv(a: int, b: int): int
    requires b != 0
  {
    var q := Magnitude(a) / Magnitude(b);
    if (a >= 0) == (b > 0) then q else -q
  }

  /** Rust's `%`: the sign follows the dividend. */
  function TruncRem(a: int, b: int): int
    requires b != 0
  {
    var r := Magnitude(a) % Magnitude(b);
    if a >= 0 then r else -r
  }

  /** i64::MIN / -1 is the only quotient of two i64 values that is not an i64. */
  lemma TruncatingRange(a: i64, b: i64)
    requires b != 0
    ensures MIN <= TruncRem(a, b) <= MAX
    ensures MIN <= TruncDiv(a, b) <= MAX <==> !(a == MIN && b == -1)
  {
    var p, m := Magnitude(a), Magnitude(b);
    EuclideanIdentity(p, m);
    QuotientBounds(p, m, p / m, p % m);
  }

  /** Quotient and remainder satisfy the division identity. */
  lemma TruncatingIdentity(a: int, b: int)
    requires b != 0
    ensures a == TruncDiv(a, b) * b + TruncRem(a, b)
    ensures Magnitude(TruncRem(a, b)) < Magnitude(b)
  {
    var p, m := Magnitude(a), Magnitude(b);
    EuclideanIdentity(p, m);
    RemainderBound(p, m);
    Signed(a, b, p, m, p / m, p % m, TruncDiv(a, b), TruncRem(a, b));
  }

  lemma Signed(a: int, b: int, p: nat, m: nat, q: int, rest: int, d: int, r: int)
    requires p == Magnitude(a) && m == Magnitude(b) && p == q * m + rest
    requires d == if (a >= 0) == (b > 0) then q else -q
    requires r == if a >= 0 then rest else -rest
    requires b != 0
    ensures a == d * b + r
  {
    SignedProduct(q, m, a >= 0, b > 0);
  }

  lemma RemainderBound(p: nat, m: nat)
    requires m >= 1
    ensures 0 <= p % m < m
  {
  }

  lemma EuclideanIdentity(p: nat, m: nat)
    requires m >= 1
    ensures p == p / m * m + p % m
  {
  }

  lemma SignedProduct(q: int, m: int, dividendUp: bool, divisorUp: bool)
    ensures (if dividendUp == divisorUp then q else -q) * (if divisorUp then m else -m)
         == if dividendUp then q * m else -(q * m)
  {
  }

  lemma QuotientBounds(p: nat, m: nat, q: nat, rest: nat)
    requires m >= 1 && p == q * m + rest && rest < m
    ensures q <= p
    ensures m >= 2 ==> 2 * q <= p
    ensures m == 1 ==> q == p
  {
    if m >= 2 {
      assert q * (m - 2) >= 0;
    }
  }

  datatype BitOperator = BitAnd | BitOr | BitXor

  function BitOf(op: BitOperator, a: bool, b: bool): bool {
    match op
    case BitAnd => a && b
    case BitOr => a || b
    case BitXor => a != b
  }

  /** Bitwise operation on two (n+1)-bit two's-complement numbers, low bit first. */
  function Bitwise(op: BitOperator, a: int, b: int, n: nat): (r: int)
    requires -Pow2(n) <= a < Pow2(n)
    requires -Pow2(n) <= b < Pow2(n)
    ensures -Pow2(n) <= r < Pow2(n)
    decreases n
  {
    if n == 0 then
      if BitOf(op, a == -1, b == -1) then -1 else 0
    else
      2 * Bitwise(op, a / 2, b / 2, n - 1)
      + (if BitOf(op, a % 2 == 1, b % 2 == 1) then 1 else 0)
  }

  function BitwiseI64(op: BitOperator, a: i64, b: i64): i64 {
    Pow2Of63();
    Bitwise(op, a, b, 63)
  }

  /** `wrapping_shl(rhs as u32)`: only the low six bits of the count are used. */
  function WrappingShl(a: i64, count: i64): i64 {
    Wrap(a * Pow2(count % 64))
  }

  /** `wrapping_shr(rhs as u32)`: arithmetic shift, rounding toward minus infinity. */
  function WrappingShr(a: i64, count: i64): i64 {
    var q := a / Pow2(count % 64);
    FloorShiftInRange(a, Pow2(count % 64));
    q
  }

  lemma FloorShiftInRange(a: i64, p: int)
    requires p >= 1
    ensures MIN <= a / p <= MAX
  {
  }
}
