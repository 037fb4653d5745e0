/** Swift's `Int` and the two bitwise operators the colour decoder uses,
    `>>` and `& 0xFF`, stated on unbounded integers.

    The operators are written arithmetically (Dafny's `/` and `%` are
    Euclidean, so with a positive divisor they round toward minus infinity,
    which is what an arithmetic right shift does on a two's-complement
    value). Their bitwise meaning is then proved against `Bit`, an
    independent definition of the i-th two's-complement bit of an integer. */
module Bits {

  const IntMin: int := -0x8000_0000_0000_0000
  const IntMax: int := 0x7FFF_FFFF_FFFF_FFFF

  /** Swift's `Int` on a 64-bit platform. */
  type Int64 = x: int | IntMin <= x <= IntMax

  /** 2 to the power k. */
  function Pow2(k: nat): (p: nat)
    ensures p >= 1
  {
    if k == 0 then 1 else 2 * Pow2(k - 1)
  }

  /** Bit i of the infinite two's-complement expansion of x: for a negative x
      the bits above its width are all ones, as sign extension gives. */
  predicate Bit(x: int, i: nat) {
    (x / Pow2(i)) % 2 == 1
  }

  /** `x >> k` for a Swift `Int`: an arithmetic (sign-propagating) shift,
      i.e. the quotient rounded toward minus infinity. */
  function ShiftRight(x: int, k: nat): (r: int)
    ensures Pow2(k) * r <= x < Pow2(k) * r + Pow2(k)
  {
    x / Pow2(k)
  }

  /** `x & 0xFF`: keeps the low eight bits, and the result is never negative. */
  function Mask8(x: int): (r: int)
    ensures 0 <= r < 256
    ensures (x - r) % 256 == 0
  {
    x % 256
  }

  lemma {:induction false} Pow2Add(a: nat, b: nat)
    ensures Pow2(a + b) == Pow2(a) * Pow2(b)
  {
    if a > 0 {
      Pow2Add(a - 1, b);
      assert Pow2(a + b) == 2 * Pow2(a - 1 + b);
    }
  }

  lemma Pow2Values()
    ensures Pow2(1) == 2 && Pow2(8) == 256 && Pow2(16) == 65536 && Pow2(24) == 0x100_0000
  {
    Pow2Add(8, 8);
    Pow2Add(16, 8);
  }

  /** Euclidean division is determined by its defining equation. */
  lemma DivUnique(x: int, d: int, q: int, r: int)
    requires d > 0 && x == d * q + r && 0 <= r < d
    ensures x / d == q && x % d == r
  {
    var q', r' := x / d, x % d;
    assert x == d * q' + r';
    if q > q' {
      MulMonotone(d, q - q');
      assert false;
    } else if q < q' {
      MulMonotone(d, q' - q);
      assert false;
    }
  }

  /** A positive multiple of d is at least d. */
  lemma MulMonotone(d: int, k: int)
    requires d > 0 && k >= 1
    ensures d * k >= d
  {
  }

  /** Adding a multiple of the divisor shifts the quotient and keeps the remainder. */
  lemma DivAddMultiple(x: int, d: int, t: int)
    requires d > 0
    ensures (d * t + x) / d == t + x / d
    ensures (d * t + x) % d == x % d
  {
    DivUnique(d * t + x, d, t + x / d, x % d);
  }

  lemma DivDiv(x: int, a: int, b: int)
    requires a > 0 && b > 0
    ensures x / a / b == x / (a * b)
  {
    var q, r := x / a, x % a;
    var q2, r2 := q / b, q % b;
    Regroup(x, a, b, q2, r2, r);
    DivUnique(x, a * b, q2, a * r2 + r);
  }

  /** x == a * (b * q2 + r2) + r regrouped as a division by a * b. */
  lemma Regroup(x: int, a: int, b: int, q2: int, r2: int, r: int)
    requires a > 0 && b > 0 && 0 <= r < a && 0 <= r2 < b
    requires x == a * (b * q2 + r2) + r
    ensures x == (a * b) * q2 + (a * r2 + r)
    ensures 0 <= a * r2 + r < a * b
  {
    assert a * (b * q2 + r2) == (a * b) * q2 + a * r2;
    MulMonotone(a, b - r2);
    assert a * b == a * r2 + a * (b - r2);
  }

  /** Bit i of `x >> k` is bit k + i of x. */
  lemma ShiftRightBits(x: int, k: nat, i: nat)
    ensures Bit(ShiftRight(x, k), i) <==> Bit(x, k + i)
  {
    DivDiv(x, Pow2(k), Pow2(i));
    Pow2Add(k, i);
  }

  /** Bit i of `x & 0xFF` is bit i of x below bit 8 and zero from bit 8 up. */
  lemma Mask8Bits(x: int, i: nat)
    ensures Bit(Mask8(x), i) <==> i < 8 && Bit(x, i)
  {
    var m := x % 256;
    Pow2Values();
    if i >= 8 {
      Pow2Add(8, i - 8);
      assert 256 * 1 <= 256 * Pow2(i - 8);
      DivUnique(m, Pow2(i), 0, m);
    } else {
      Pow2Add(i, 8 - i);
      Pow2Add(1, 7 - i);
      var u := Pow2(7 - i) * (x / 256);
      // x == 2^i * (2 * u) + m, so x / 2^i == 2 * u + m / 2^i
      assert x == Pow2(i) * (2 * u) + m;
      DivAddMultiple(m, Pow2(i), 2 * u);
      DivAddMultiple(m / Pow2(i), 2, u);
    }
  }
}
