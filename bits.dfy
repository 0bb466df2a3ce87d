/**
 * Unsigned 32-bit values as the source's `uint`, and the two bit operations
 * prefix matching uses on them: `<<` and `&`. Values are integers in
 * 0..2^32-1; a bitwise AND is computed bit by bit from the least
 * significant end.
 */
module Bits {

  const Two32: int := 0x1_0000_0000

  /** A `uint`. */
  type UInt32 = x: int | 0 <= x < 0x1_0000_0000

  function Pow2(n: nat): (r: nat)
    ensures r > 0
  {
    if n == 0 then 1 else 2 * Pow2(n - 1)
  }

  lemma {:induction false} Pow2Add(m: nat, n: nat)
    ensures Pow2(m + n) == Pow2(m) * Pow2(n)
  {
    if m != 0 {
      Pow2Add(m - 1, n);
    }
  }

  lemma Pow2ThirtyTwo()
    ensures Pow2(32) == Two32
  {
    assert Pow2(4) == 16;
    Pow2Add(4, 4);
    Pow2Add(8, 8);
    Pow2Add(16, 16);
  }

  lemma {:induction false} Pow2Monotone(m: nat, n: nat)
    requires m <= n
    ensures Pow2(m) <= Pow2(n)
  {
    if m < n {
      Pow2Monotone(m, n - 1);
    }
  }

  /** `x & y`: bit i of the result is set exactly when bit i is set in both. */
  function And(x: nat, y: nat): (r: nat)
    ensures r <= x && r <= y
    decreases x
  {
    if x == 0 || y == 0 then 0
    else 2 * And(x / 2, y / 2) + (if x % 2 == 1 && y % 2 == 1 then 1 else 0)
  }

  /** `x >> k`: x with its k least significant bits dropped. */
  function ShiftRight(x: nat, k: nat): nat {
    if k == 0 then x else ShiftRight(x / 2, k - 1)
  }

  /** `x << k` on a `uint` (k < 32): the bits moved past bit 31 are lost. */
  function ShiftLeft(x: UInt32, k: nat): UInt32
    requires k < 32
  {
    (x * Pow2(k)) % Two32
  }

  /** The source's mask of a prefix length: 0 for /0, otherwise `0xFFFFFFFF << (32 - prefix)`. */
  function PrefixMask(prefix: int): UInt32
    requires 0 <= prefix <= 32
  {
    if prefix == 0 then 0 else ShiftLeft(0xFFFF_FFFF, 32 - prefix)
  }

  /** The top `prefix` bits of two `uint`s agree. */
  predicate SamePrefix(x: UInt32, y: UInt32, prefix: int)
    requires 0 <= prefix <= 32
  {
    ShiftRight(x, 32 - prefix) == ShiftRight(y, 32 - prefix)
  }

  /** The mask of a prefix is 2^32 - 2^(32 - prefix): ones in its top `prefix` bits, zeros below. */
  lemma PrefixMaskValue(prefix: int)
    requires 0 <= prefix <= 32
    ensures PrefixMask(prefix) == Pow2(32) - Pow2(32 - prefix)
  {
    Pow2ThirtyTwo();
    if prefix != 0 {
      var p := Pow2(32 - prefix);
      Pow2Monotone(32 - prefix, 31);
      Pow2Monotone(31, 32);
      ModOfSum(0xFFFF_FFFF * p, p - 1, 0x1_0000_0000 - p);
    }
  }

  lemma ModOfSum(z: int, q: int, r: int)
    requires z == 0x1_0000_0000 * q + r && 0 <= r < 0x1_0000_0000
    ensures z % 0x1_0000_0000 == r
  {
  }

  /** A value below 2^n is unchanged by a mask of its n low bits. */
  lemma {:induction false} AndLowOnes(x: nat, n: nat)
    requires x < Pow2(n)
    ensures And(x, Pow2(n) - 1) == x
  {
    if x != 0 {
      AndLowOnes(x / 2, n - 1);
    }
  }

  /** One step of AND against an even mask: the low bit of the result is 0. */
  lemma AndEvenMask(x: nat, m: nat)
    requires x != 0 && m != 0 && m % 2 == 0
    ensures And(x, m) == 2 * And(x / 2, m / 2)
  {
  }

  /** Masking with ones in bits k..n-1 clears the k low bits of a value below 2^n. */
  lemma {:induction false} AndHighOnes(x: nat, n: nat, k: nat)
    requires k <= n && x < Pow2(n)
    ensures Pow2(k) <= Pow2(n)
    ensures And(x, Pow2(n) - Pow2(k)) == ShiftRight(x, k) * Pow2(k)
  {
    Pow2Monotone(k, n);
    if k == 0 {
      AndLowOnes(x, n);
    } else if k == n {
      ShiftRightSmall(x, n);
    } else if x != 0 {
      AndHighOnes(x / 2, n - 1, k - 1);
      Pow2Monotone(k, n - 1);
      AndHighOnesStep(x, n, k, ShiftRight(x / 2, k - 1));
    } else {
      ShiftRightZero(k);
    }
  }

  /** The inductive step of AndHighOnes: one bit of x and of the mask dropped. */
  lemma AndHighOnesStep(x: nat, n: nat, k: nat, s: nat)
    requires 0 < k < n && x != 0 && Pow2(k - 1) < Pow2(n - 1)
    requires s == ShiftRight(x / 2, k - 1)
    requires And(x / 2, Pow2(n - 1) - Pow2(k - 1)) == s * Pow2(k - 1)
    ensures And(x, Pow2(n) - Pow2(k)) == ShiftRight(x, k) * Pow2(k)
  {
    var p, q := Pow2(k - 1), Pow2(n - 1);
    assert Pow2(n) == 2 * q && Pow2(k) == 2 * p;
    var m := 2 * (q - p);
    assert m % 2 == 0 && m / 2 == q - p;
    AndEvenMask(x, m);
    assert And(x, m) == 2 * (s * p);
    assert ShiftRight(x, k) == s;
    Double(s, p);
  }

  lemma Double(s: int, p: int)
    ensures 2 * (s * p) == s * (2 * p)
  {
  }

  lemma {:induction false} ShiftRightZero(k: nat)
    ensures ShiftRight(0, k) == 0
  {
    if k != 0 {
      ShiftRightZero(k - 1);
    }
  }

  /** A value below 2^n shifted right by n is 0. */
  lemma {:induction false} ShiftRightSmall(x: nat, n: nat)
    requires x < Pow2(n)
    ensures ShiftRight(x, n) == 0
  {
    if n != 0 {
      ShiftRightSmall(x / 2, n - 1);
    }
  }

  lemma MulCancel(a: nat, b: nat, p: nat)
    requires p > 0 && a * p == b * p
    ensures a == b
  {
  }

  /** Two `uint`s agree under the mask of a prefix exactly when their top `prefix` bits agree. */
  lemma MaskedEqual(x: UInt32, y: UInt32, prefix: int)
    requires 0 <= prefix <= 32
    ensures And(x, PrefixMask(prefix)) == And(y, PrefixMask(prefix)) <==> SamePrefix(x, y, prefix)
  {
    var k := 32 - prefix;
    Pow2ThirtyTwo();
    PrefixMaskValue(prefix);
    AndHighOnes(x, 32, k);
    AndHighOnes(y, 32, k);
    if And(x, PrefixMask(prefix)) == And(y, PrefixMask(prefix)) {
      MulCancel(ShiftRight(x, k), ShiftRight(y, k), Pow2(k));
    }
  }

  /** Masking twice with the same mask is masking once. */
  lemma {:induction false} AndIdempotent(x: nat, y: nat)
    ensures And(And(x, y), y) == And(x, y)
    decreases x
  {
    if x != 0 && y != 0 {
      AndIdempotent(x / 2, y / 2);
    }
  }
}
