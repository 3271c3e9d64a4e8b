/** Fixed-width integers and the C bit operators, written over the naturals.

    Shifts and the bitwise OR/AND are given by recursion on the binary digits, so every
    fact about them is proved by following those digits. */
module Bits {

  type u8 = x: int | 0 <= x < 0x100
  type u16 = x: int | 0 <= x < 0x1_0000
  type u32 = x: int | 0 <= x < 0x1_0000_0000
  type i16 = x: int | -0x8000 <= x < 0x8000
  type i32 = x: int | -0x8000_0000 <= x < 0x8000_0000

  /** Conversion to `_u8` and `_u32`: reduction modulo the width. */
  function ToU8(x: int): u8 { x % 0x100 }

  function ToU32(x: int): u32 { x % 0x1_0000_0000 }

  /** Conversion to `_i16`: two's complement truncation. */
  function ToI16(x: int): (r: i16)
    ensures (r - x) % 0x1_0000 == 0
  {
    var m := x % 0x1_0000;
    if m < 0x8000 then m else m - 0x1_0000
  }

  function Pow2(n: nat): (r: nat)
    ensures r >= 1
  {
    if n == 0 then 1 else 2 * Pow2(n - 1)
  }

  /** `x >> n` for an unsigned operand. */
  function Shr(x: nat, n: nat): nat {
    if n == 0 then x else Shr(x / 2, n - 1)
  }

  /** `x << n` before any truncation. */
  function Shl(x: nat, n: nat): nat {
    if n == 0 then x else 2 * Shl(x, n - 1)
  }

  /** Binary digit `k` of `x`, that is `(x >> k) & 1`. */
  function Bit(x: nat, k: nat): (b: nat)
    ensures b <= 1
  {
    Shr(x, k) % 2
  }

  /** Binary digit `k` of `x` by division. */
  function Digit(x: nat, k: nat): (b: nat)
    ensures b <= 1
  {
    x / Pow2(k) % 2
  }

  /** Bitwise OR. */
  function Or(x: nat, y: nat): nat {
    if x == 0 then y
    else if y == 0 then x
    else 2 * Or(x / 2, y / 2) + (if x % 2 == 1 || y % 2 == 1 then 1 else 0)
  }

  /** Bitwise AND. */
  function And(x: nat, y: nat): nat {
    if x == 0 || y == 0 then 0
    else 2 * And(x / 2, y / 2) + (if x % 2 == 1 && y % 2 == 1 then 1 else 0)
  }

  /** The number whose binary digits, least significant first, are `bits`. */
  function Value(bits: seq<nat>): nat
    requires forall i :: 0 <= i < |bits| ==> bits[i] <= 1
  {
    if |bits| == 0 then 0 else bits[0] + 2 * Value(bits[1..])
  }

  lemma ZeroBit(k: nat)
    ensures Bit(0, k) == 0
  {
    if k > 0 { ZeroBit(k - 1); }
  }

  lemma {:induction false} OrBit(x: nat, y: nat, k: nat)
    ensures Bit(Or(x, y), k) == if Bit(x, k) == 1 || Bit(y, k) == 1 then 1 else 0
    decreases k
  {
    if x == 0 || y == 0 {
      ZeroBit(k);
    } else if k > 0 {
      OrBit(x / 2, y / 2, k - 1);
    }
  }

  lemma {:induction false} ShlBit(v: nat, n: nat, k: nat)
    requires v <= 1
    ensures Bit(Shl(v, n), k) == if k == n then v else 0
  {
    if n == 0 {
      if k > 0 { ZeroBit(k - 1); }
    } else if k > 0 {
      ShlBit(v, n - 1, k - 1);
    }
  }

  lemma {:induction false} ShlBound(v: nat, n: nat, m: nat)
    requires v <= 1 && n < m
    ensures Shl(v, n) < Pow2(m)
  {
    if n > 0 { ShlBound(v, n - 1, m - 1); } 
  }

  lemma {:induction false} OrBound(x: nat, y: nat, n: nat)
    requires x < Pow2(n) && y < Pow2(n)
    ensures Or(x, y) < Pow2(n)
  {
    if x != 0 && y != 0 { OrBound(x / 2, y / 2, n - 1); }
  }

  /** A number below 2^n is determined by its n low digits. */
  lemma {:induction false} SameBits(x: nat, y: nat, n: nat)
    requires x < Pow2(n) && y < Pow2(n)
    requires forall k: nat :: k < n ==> Bit(x, k) == Bit(y, k)
    ensures x == y
  {
    if n > 0 {
      forall k: nat | k < n - 1 ensures Bit(x / 2, k) == Bit(y / 2, k) {
        assert Bit(x, k + 1) == Bit(y, k + 1);
      }
      SameBits(x / 2, y / 2, n - 1);
      assert Bit(x, 0) == Bit(y, 0);
    }
  }

  lemma {:induction false} ValueBound(bits: seq<nat>)
    requires forall i :: 0 <= i < |bits| ==> bits[i] <= 1
    ensures Value(bits) < Pow2(|bits|)
  {
    if |bits| > 0 { ValueBound(bits[1..]); }
  }

  lemma BitCons(b: nat, x: nat, k: nat)
    requires b <= 1
    ensures Bit(b + 2 * x, k) == if k == 0 then b else Bit(x, k - 1)
  {
    assert (b + 2 * x) / 2 == x;
  }

  lemma {:induction false} ValueBit(bits: seq<nat>, k: nat)
    requires forall i :: 0 <= i < |bits| ==> bits[i] <= 1
    requires k < |bits|
    ensures Bit(Value(bits), k) == bits[k]
  {
    var rest := Value(bits[1..]);
    assert Value(bits) == bits[0] + 2 * rest;
    hide Value;
    BitCons(bits[0], rest, k);
    if k > 0 { ValueBit(bits[1..], k - 1); }
  }

  lemma ValueBits(bits: seq<nat>)
    requires forall i :: 0 <= i < |bits| ==> bits[i] <= 1
    ensures Value(bits) < Pow2(|bits|)
    ensures forall k :: 0 <= k < |bits| ==> Bit(Value(bits), k) == bits[k]
  {
    ValueBound(bits);
    forall k | 0 <= k < |bits| ensures Bit(Value(bits), k) == bits[k] {
      ValueBit(bits, k);
    }
  }

  /** Reduction modulo 2^n keeps the n low digits. */
  lemma {:induction false} ModBits(x: nat, n: nat, k: nat)
    requires k < n
    ensures Bit(x % Pow2(n), k) == Bit(x, k)
  {
    ModHalf(x, n);
    if k > 0 { ModBits(x / 2, n - 1, k - 1); }
  }

  lemma ModHalf(x: nat, n: nat)
    requires n > 0
    ensures (x % Pow2(n)) / 2 == (x / 2) % Pow2(n - 1)
    ensures (x % Pow2(n)) % 2 == x % 2
  {
    var h := Pow2(n - 1);
    var q, r := (x / 2) / h, (x / 2) % h;
    assert x == 2 * (h * q + r) + x % 2;
    assert 2 * (h * q) == Pow2(n) * q by { assert Pow2(n) == 2 * h; MulAssoc(2, h, q); }
    DivModUnique(x, Pow2(n), q, 2 * r + x % 2);
  }

  lemma MulAssoc(a: int, b: int, c: int)
    ensures a * (b * c) == (a * b) * c
  {}

  lemma DivModUnique(x: nat, m: nat, q: nat, r: nat)
    requires m > 0 && r < m && x == m * q + r
    ensures x / m == q && x % m == r
  {
    var q' := x / m;
    assert x == m * q' + x % m;
    assert m * q - m * q' == m * (q - q');
    assert m * (q - q') == x % m - r;
    SmallMultiple(m, q - q');
  }

  /** The only multiple of m strictly between -m and m is 0. */
  lemma SmallMultiple(m: nat, d: int)
    requires 0 - m < m * d < m
    ensures d == 0
  {
    MulAtLeast(m, if d < 0 then -d else d);
  }

  lemma MulAtLeast(m: nat, d: nat)
    ensures d >= 1 ==> m * d >= m
  {}

  /** Two numbers less than m apart are different modulo m. */
  lemma ModDistinct(a: nat, b: nat, m: nat)
    requires 0 < b - a < m
    ensures a % m != b % m
  {
    if a % m == b % m {
      assert b - a == m * (b / m - a / m);
      SmallMultiple(m, b / m - a / m);
    }
  }

  /** 2^n divides 2^m for n <= m, so reducing modulo 2^m first changes nothing. */
  lemma ModMod(x: nat, n: nat, m: nat)
    requires n <= m
    ensures (x % Pow2(m)) % Pow2(n) == x % Pow2(n)
  {
    forall k: nat | k < n
      ensures Bit((x % Pow2(m)) % Pow2(n), k) == Bit(x % Pow2(n), k)
    {
      ModBits(x % Pow2(m), n, k);
      ModBits(x, m, k);
      ModBits(x, n, k);
    }
    SameBits((x % Pow2(m)) % Pow2(n), x % Pow2(n), n);
  }

  /** Reading back the n low digits of x gives x modulo 2^n. */
  lemma ValueOfBits(x: nat, bits: seq<nat>)
    requires forall i :: 0 <= i < |bits| ==> bits[i] <= 1 && bits[i] == Bit(x, i)
    ensures Value(bits) == x % Pow2(|bits|)
  {
    ValueBits(bits);
    forall k: nat | k < |bits| ensures Bit(Value(bits), k) == Bit(x % Pow2(|bits|), k) {
      ModBits(x, |bits|, k);
    }
    SameBits(Value(bits), x % Pow2(|bits|), |bits|);
  }

  /** OR-ing a number below 2^n under a shifted one adds it. */
  lemma {:induction false} OrUnderShift(a: nat, b: nat, n: nat)
    requires b < Pow2(n)
    ensures Or(Shl(a, n), b) == Shl(a, n) + b
  {
    if n > 0 && Shl(a, n) != 0 && b != 0 {
      OrUnderShift(a, b / 2, n - 1);
    }
  }

  /** The n low digits of x. */
  function Low(x: nat, n: nat): nat {
    if n == 0 then 0 else x % 2 + 2 * Low(x / 2, n - 1)
  }

  lemma {:induction false} LowMod(x: nat, n: nat)
    ensures Low(x, n) == x % Pow2(n)
  {
    if n > 0 {
      LowMod(x / 2, n - 1);
      ModHalf(x, n);
    }
  }

  lemma {:induction false} AndLow(x: nat, n: nat)
    ensures And(x, Pow2(n) - 1) == Low(x, n)
  {
    if n > 0 {
      AndLow(x / 2, n - 1);
      assert (Pow2(n) - 1) / 2 == Pow2(n - 1) - 1;
    }
  }

  /** AND with n ones is reduction modulo 2^n. */
  lemma AndOnes(x: nat, n: nat)
    ensures And(x, Pow2(n) - 1) == x % Pow2(n)
  {
    AndLow(x, n);
    LowMod(x, n);
  }

  /** AND with a single bit tests that bit. */
  lemma {:induction false} AndBit(x: nat, k: nat)
    ensures And(x, Pow2(k)) == Bit(x, k) * Pow2(k)
  {
    if k == 0 {
      if x != 0 { assert And(x / 2, 0) == 0; }
    } else {
      AndBit(x / 2, k - 1);
      if x == 0 { ZeroBit(k); }
    }
  }

  lemma {:induction false} ShlMul(x: nat, n: nat)
    ensures Shl(x, n) == x * Pow2(n)
  {
    if n > 0 {
      ShlMul(x, n - 1);
      MulDouble(x, Pow2(n - 1));
    }
  }

  lemma MulDouble(x: nat, y: nat)
    ensures 2 * (x * y) == x * (2 * y)
  {}

  lemma DivHalf(x: nat, m: nat)
    requires m > 0
    ensures (x / 2) / m == x / (2 * m)
  {
    var q, r := (x / 2) / m, (x / 2) % m;
    assert x / 2 == m * q + r;
    assert 2 * (m * q) == (2 * m) * q;
    DivModUnique(x, 2 * m, q, 2 * r + x % 2);
  }

  lemma {:induction false} ShrDiv(x: nat, n: nat)
    ensures Shr(x, n) == x / Pow2(n)
  {
    if n > 0 {
      ShrDiv(x / 2, n - 1);
      DivHalf(x, Pow2(n - 1));
    }
  }

  lemma BitDiv(x: nat, k: nat)
    ensures Bit(x, k) == Digit(x, k)
  {
    ShrDiv(x, k);
  }

  lemma SmallMod(x: nat, m: nat)
    requires x < m
    ensures x % m == x
  {
    DivModUnique(x, m, 0, x);
  }

  lemma ValueExact(x: nat, bits: seq<nat>)
    requires forall i :: 0 <= i < |bits| ==> bits[i] <= 1 && bits[i] == Bit(x, i)
    requires x < Pow2(|bits|)
    ensures Value(bits) == x
  {
    ValueOfBits(x, bits);
    SmallMod(x, Pow2(|bits|));
  }

  lemma Pow2Consts()
    ensures Pow2(8) == 0x100
    ensures Pow2(32) == 0x1_0000_0000
  {
    assert Pow2(4) == 16;
    assert Pow2(8) == 0x100;
    assert Pow2(12) == 0x1000;
    assert Pow2(16) == 0x1_0000;
    assert Pow2(20) == 0x10_0000;
    assert Pow2(24) == 0x100_0000;
    assert Pow2(28) == 0x1000_0000;
    assert Pow2(32) == 0x1_0000_0000;
  }

  /** A 32-bit value reduced further is the unbounded value reduced. */
  lemma ToU32Mod(x: nat, n: nat)
    requires n <= 32
    ensures ToU32(x) % Pow2(n) == x % Pow2(n)
  {
    assert ToU32(x) == x % Pow2(32) by { Pow2Consts(); }
    hide ToU32, Pow2;
    ModMod(x, n, 32);
  }
}
