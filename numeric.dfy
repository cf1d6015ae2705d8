/** The numeric conversions the evaluators apply to `double` values, on exact
    `real`s.  A C++ cast of a double to an integer type truncates toward zero;
    where the value does not fit, C++ leaves the result undefined and this
    model wraps it modulo 2^32 (2^64), as the usual two's complement targets do. */
module Numeric {

  const TWO31: int := 0x8000_0000
  const TWO32: int := 0x1_0000_0000
  const TWO63: int := 0x8000_0000_0000_0000
  const TWO64: int := 0x1_0000_0000_0000_0000

  /** `uint32_t`, the type of the time counter `t`. */
  type U32 = x: int | 0 <= x < 0x1_0000_0000

  /** Truncation toward zero, as a C++ cast from double to an integer type. */
  function Trunc(x: real): (n: int)
    ensures x >= 0.0 ==> 0 <= n && n as real <= x < n as real + 1.0
    ensures x < 0.0 ==> n <= 0 && n as real - 1.0 < x <= n as real
  {
    if x >= 0.0 then x.Floor else -((-x).Floor)
  }

  lemma TruncOfInt(n: int)
    ensures Trunc(n as real) == n
  {
  }

  /** Two's complement wrap of an integer into [-2^31, 2^31). */
  function Wrap32(n: int): (r: int)
    ensures -TWO31 <= r < TWO31
    ensures -TWO31 <= n < TWO31 ==> r == n
    ensures r % 256 == n % 256
    ensures r % 32 == n % 32
  {
    var m := n % TWO32;
    ModMultiple(n, TWO32 / 256, 256);
    ModMultiple(n, TWO32 / 32, 32);
    if m >= TWO31 then
      ShiftByMultiple(m, TWO32 / 256, 256);
      ShiftByMultiple(m, TWO32 / 32, 32);
      m - TWO32
    else m
  }

  /** Two's complement wrap of an integer into [-2^63, 2^63). */
  function Wrap64(n: int): (r: int)
    ensures -TWO63 <= r < TWO63
    ensures -TWO63 <= n < TWO63 ==> r == n
  {
    var m := n % TWO64;
    if m >= TWO63 then m - TWO64 else m
  }

  /** `(n % (k*d)) % d == n % d` for positive `k` and `d`. */
  lemma ModMultiple(n: int, k: nat, d: nat)
    requires k > 0 && d > 0
    ensures (n % (k * d)) % d == n % d
  {
    var q := n / (k * d);
    assert n == q * (k * d) + n % (k * d);
    assert n == (q * k) * d + n % (k * d);
    ShiftByMultiple(n % (k * d), -(q * k), d);
  }

  /** Subtracting a multiple of `d` does not change the remainder modulo `d`. */
  lemma ShiftByMultiple(m: int, k: int, d: nat)
    requires d > 0
    ensures (m - k * d) % d == m % d
  {
    var q := m / d;
    var r := m % d;
    assert m == q * d + r;
    assert m - k * d == (q - k) * d + r;
    ModUnique(m - k * d, q - k, r, d);
  }

  /** The remainder is determined by any quotient-remainder decomposition. */
  lemma ModUnique(x: int, q: int, r: int, d: nat)
    requires d > 0 && 0 <= r < d
    requires x == q * d + r
    ensures x % d == r
  {
    var c := q - x / d;
    assert x == (x / d) * d + x % d;
    assert c * d == x % d - r;
  }

  /** `(int32_t)x`. */
  function ToInt32(x: real): (n: int)
    ensures -TWO31 <= n < TWO31
  {
    Wrap32(Trunc(x))
  }

  /** `(int64_t)x`. */
  function ToInt64(x: real): (n: int)
    ensures -TWO63 <= n < TWO63
  {
    Wrap64(Trunc(x))
  }

  /** The 32-bit pattern of a signed 32-bit value. */
  function Bits32(n: int): (b: bv32)
    requires -TWO31 <= n < TWO31
  {
    (n % TWO32) as bv32
  }

  /** The signed value of a 32-bit pattern. */
  function Signed32(b: bv32): (n: int)
    ensures -TWO31 <= n < TWO31
  {
    if b as int >= TWO31 then b as int - TWO32 else b as int
  }

  function Pow2(k: nat): (p: nat)
    ensures p >= 1
  {
    if k == 0 then 1 else 2 * Pow2(k - 1)
  }

  /** `ib & 0x1F` for the int32 truncation `ib` of `b`: the low five bits. */
  function ShiftCount(b: real): (s: nat)
    ensures s < 32
  {
    ToInt32(b) % 32
  }

  /** `x & y` on the int32 truncations of both operands. */
  function BitAnd(a: real, b: real): real {
    Signed32(Bits32(ToInt32(a)) & Bits32(ToInt32(b))) as real
  }

  /** `x | y` on the int32 truncations of both operands. */
  function BitOr(a: real, b: real): real {
    Signed32(Bits32(ToInt32(a)) | Bits32(ToInt32(b))) as real
  }

  /** `x ^ y` on the int32 truncations of both operands. */
  function BitXor(a: real, b: real): real {
    Signed32(Bits32(ToInt32(a)) ^ Bits32(ToInt32(b))) as real
  }

  /** `ia << (ib & 0x1F)`, wrapping in 32 bits. */
  function ShiftLeft(a: real, b: real): real {
    Signed32(Bits32(ToInt32(a)) << ShiftCount(b)) as real
  }

  /** `ia >> (ib & 0x1F)`, an arithmetic shift (sign-extending). */
  function ShiftRight(a: real, b: real): real {
    (ToInt32(a) / Pow2(ShiftCount(b))) as real
  }

  /** The 64-bit two's-complement pattern of a signed 64-bit value, read
      as an unsigned number. */
  function Unsigned64(n: int): (u: nat)
    requires -TWO63 <= n < TWO63
    ensures u < TWO64
  {
    n % TWO64
  }

  /** The signed value of a 64-bit pattern. */
  function Signed64(u: nat): (n: int)
    requires u < TWO64
    ensures -TWO63 <= n < TWO63
  {
    if u >= TWO63 then u - TWO64 else u
  }

  /** The low `k` bits of `u`, each one inverted. */
  function FlipBits(u: nat, k: nat): (r: nat)
    ensures r < Pow2(k)
  {
    if k == 0 then 0 else (1 - u % 2) + 2 * FlipBits(u / 2, k - 1)
  }

  /** `(double)(~(int64_t)x)`: every bit of the int64 truncation inverted. */
  function BitNot64(x: real): (r: real)
    ensures -TWO63 as real <= r < TWO63 as real
  {
    Pow2Of64();
    Signed64(FlipBits(Unsigned64(ToInt64(x)), 64)) as real
  }

  /** Inverting the low `k` bits of a number below `2^k` subtracts it from
      the all-ones pattern. */
  lemma {:induction false} FlipBitsValue(u: nat, k: nat)
    requires u < Pow2(k)
    ensures FlipBits(u, k) == Pow2(k) - 1 - u
  {
    if k > 0 {
      FlipBitsValue(u / 2, k - 1);
    }
  }

  /** The bitwise complement of a two's-complement int64 is its negation
      minus one. */
  lemma BitNot64Value(x: real)
    ensures BitNot64(x) == (-ToInt64(x) - 1) as real
  {
    var n := ToInt64(x);
    if n >= 0 {
      ModUnique(n, 0, n, TWO64);
    } else {
      ModUnique(n, -1, n + TWO64, TWO64);
    }
    Pow2Of64();
    FlipBitsValue(Unsigned64(n), 64);
  }

  lemma {:induction false} Pow2Add(a: nat, b: nat)
    ensures Pow2(a + b) == Pow2(a) * Pow2(b)
  {
    if a > 0 {
      Pow2Add(a - 1, b);
      assert Pow2(a + b) == 2 * Pow2(a - 1 + b);
    }
  }

  lemma Pow2Of8()
    ensures Pow2(8) == 0x100
  {
  }

  lemma Pow2Of16()
    ensures Pow2(16) == 0x1_0000
  {
    Pow2Of8();
    Pow2Add(8, 8);
  }

  lemma Pow2Of32()
    ensures Pow2(32) == 0x1_0000_0000
  {
    Pow2Of16();
    Pow2Add(16, 16);
  }

  lemma Pow2Of64()
    ensures Pow2(64) == TWO64
  {
    Pow2Of32();
    Pow2Add(32, 32);
  }

  /** `fmod(a, b)` for `b != 0`: the remainder of the quotient truncated
      toward zero; it has the sign of `a` and is smaller than `|b|`. */
  function Fmod(a: real, b: real): (r: real)
    requires b != 0.0
    ensures a >= 0.0 ==> r >= 0.0
    ensures a <= 0.0 ==> r <= 0.0
    ensures (if r >= 0.0 then r else -r) < (if b >= 0.0 then b else -b)
  {
    var q := a / b;
    var t := Trunc(q) as real;
    assert a == q * b;
    assert a - t * b == (q - t) * b;
    FmodFactor(q - t, b, q);
    a - t * b
  }

  /** `f * b` for a fraction `f` of magnitude below 1 with the sign of `q`. */
  lemma FmodFactor(f: real, b: real, q: real)
    requires b != 0.0
    requires -1.0 < f < 1.0
    requires q >= 0.0 ==> f >= 0.0
    requires q <= 0.0 ==> f <= 0.0
    ensures q * b >= 0.0 ==> f * b >= 0.0
    ensures q * b <= 0.0 ==> f * b <= 0.0
    ensures (if f * b >= 0.0 then f * b else -(f * b)) < (if b >= 0.0 then b else -b)
  {
    if b > 0.0 {
      assert (1.0 - f) * b > 0.0 && (1.0 - f) * b == b - f * b;
      assert (1.0 + f) * b > 0.0 && (1.0 + f) * b == b + f * b;
    } else {
      assert (1.0 - f) * (-b) > 0.0 && (1.0 - f) * (-b) == -b + f * b;
      assert (1.0 + f) * (-b) > 0.0 && (1.0 + f) * (-b) == -b - f * b;
    }
  }

  /** `(int)x & 0xFF` for a double `x`: the low byte of its int32 truncation. */
  function ByteOf(x: real): (r: int)
    ensures 0 <= r < 256
    ensures r == Trunc(x) % 256
  {
    ToInt32(x) % 256
  }

  /** `v & 0xFF` for an `int` `v`. */
  function LowByte(v: int): (r: int)
    ensures 0 <= r < 256
    ensures 0 <= v < 256 ==> r == v
  {
    v % 256
  }
}
