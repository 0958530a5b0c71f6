/**
 * Unsigned 64-bit masks as natural numbers below 2^64, with the two
 * operations the button packing uses: `1 << s` and bitwise OR.
 */
module Bits {

  const Two64: nat := 0x1_0000_0000_0000_0000

  /** A uint64_t value. */
  type u64 = x: nat | x < Two64

  /** 2^n, which is `UINT64_C(1) << n` for n < 64. */
  function Pow2(n: nat): (p: nat)
    ensures p >= 1
  {
    if n == 0 then 1 else 2 * Pow2(n - 1)
  }

  /** Bit i of m. */
  predicate BitSet(m: nat, i: nat)
  {
    if i == 0 then m % 2 == 1 else BitSet(m / 2, i - 1)
  }

  /** Bitwise OR, bit by bit from the least significant one. */
  function Or(a: nat, b: nat): nat
    decreases a + b
  {
    if a == 0 && b == 0 then 0
    else 2 * Or(a / 2, b / 2) + (if a % 2 == 1 || b % 2 == 1 then 1 else 0)
  }

  /** 0 has no bit set. */
  lemma {:induction false} ZeroBit(i: nat)
    ensures !BitSet(0, i)
  {
    if i > 0 {
      ZeroBit(i - 1);
    }
  }

  /** A bit of a | b is set exactly when it is set in a or in b. */
  lemma {:induction false} OrBit(a: nat, b: nat, i: nat)
    ensures BitSet(Or(a, b), i) <==> BitSet(a, i) || BitSet(b, i)
    decreases i
  {
    if a == 0 && b == 0 {
      ZeroBit(i);
    } else {
      var r := Or(a / 2, b / 2);
      var low := if a % 2 == 1 || b % 2 == 1 then 1 else 0;
      assert Or(a, b) == 2 * r + low;
      assert (2 * r + low) % 2 == low && (2 * r + low) / 2 == r;
      if i > 0 {
        OrBit(a / 2, b / 2, i - 1);
      }
    }
  }

  /** 1 << s has bit s set and no other. */
  lemma {:induction false} Pow2Bit(s: nat, i: nat)
    ensures BitSet(Pow2(s), i) <==> s == i
    decreases s
  {
    if s == 0 {
      if i > 0 {
        assert 1 / 2 == 0;
        ZeroBit(i - 1);
      }
    } else {
      assert Pow2(s) % 2 == 0 && Pow2(s) / 2 == Pow2(s - 1);
      if i > 0 {
        Pow2Bit(s - 1, i - 1);
      }
    }
  }

  /** 2^s grows with s. */
  lemma {:induction false} Pow2Monotone(s: nat, n: nat)
    requires s <= n
    ensures Pow2(s) <= Pow2(n)
    decreases n
  {
    if s < n {
      Pow2Monotone(s, n - 1);
    }
  }

  /** 2^(a+b) = 2^a * 2^b. */
  lemma {:induction false} Pow2Add(a: nat, b: nat)
    ensures Pow2(a + b) == Pow2(a) * Pow2(b)
    decreases b
  {
    if b > 0 {
      Pow2Add(a, b - 1);
      assert Pow2(a + b) == 2 * Pow2(a + b - 1);
    }
  }

  /** 2^64 is the modulus of uint64_t. */
  lemma Pow2Is64()
    ensures Pow2(64) == Two64
  {
    assert Pow2(1) == 2;
    assert Pow2(2) == 4;
    assert Pow2(3) == 8;
    assert Pow2(4) == 16;
    assert Pow2(5) == 32;
    assert Pow2(6) == 64;
    assert Pow2(7) == 128;
    assert Pow2(8) == 0x100;
    Pow2Add(8, 8);
    assert Pow2(16) == 0x1_0000;
    Pow2Add(16, 16);
    assert Pow2(32) == 0x1_0000_0000;
    Pow2Add(32, 32);
  }

  /** The OR of two values below 2^n is below 2^n: no bit beyond the widest one appears. */
  lemma {:induction false} OrBound(a: nat, b: nat, n: nat)
    requires a < Pow2(n) && b < Pow2(n)
    ensures Or(a, b) < Pow2(n)
    decreases n
  {
    if !(a == 0 && b == 0) {
      if n == 0 {
      } else {
        OrBound(a / 2, b / 2, n - 1);
      }
    }
  }
}
