// Unsigned bit operations of the source, on mathematical naturals.
// Shifts and masks by a power of two are division and remainder by Pow2;
// `|` and `^` are defined bit by bit.
module Bits {

  type uint8 = x: int | 0 <= x < 0x100
  type uint16 = x: int | 0 <= x < 0x1_0000
  type uint32 = x: int | 0 <= x < 0x1_0000_0000
  type uint64 = x: int | 0 <= x < 0x1_0000_0000_0000_0000

  const TWO_TO_64: int := 0x1_0000_0000_0000_0000

  function Pow2(k: nat): (r: nat)
    ensures r >= 1
  {
    if k == 0 then 1 else 2 * Pow2(k - 1)
  }

  lemma Pow2Strict(a: nat, b: nat)
    ensures Pow2(a) < Pow2(b) <==> a < b
  {
    if a < b {
      Pow2Monotonic(a + 1, b);
    } else {
      Pow2Monotonic(b, a);
    }
  }

  function Xor(a: nat, b: nat): nat {
    if a == 0 && b == 0 then 0 else 2 * Xor(a / 2, b / 2) + (if a % 2 == b % 2 then 0 else 1)
  }

  function Or(a: nat, b: nat): nat {
    if a == 0 && b == 0 then 0
    else 2 * Or(a / 2, b / 2) + (if a % 2 == 1 || b % 2 == 1 then 1 else 0)
  }

  lemma Pow2Monotonic(a: nat, b: nat)
    requires a <= b
    ensures Pow2(a) <= Pow2(b)
  {
    if a < b {
      Pow2Monotonic(a, b - 1);
    }
  }

  lemma XorHalves(a: nat, b: nat)
    ensures Xor(a, b) / 2 == Xor(a / 2, b / 2)
    ensures Xor(a, b) % 2 == if a % 2 == b % 2 then 0 else 1
  {
  }

  lemma {:induction false} XorCancel(a: nat, b: nat)
    ensures Xor(a, Xor(b, a)) == b
  {
    if a != 0 || b != 0 {
      XorCancel(a / 2, b / 2);
      XorHalves(b, a);
      var x := Xor(b, a);
      XorHalves(a, x);
      assert Xor(a, x) / 2 == b / 2 && Xor(a, x) % 2 == b % 2;
    }
  }

  lemma {:induction false} XorSymmetric(a: nat, b: nat)
    ensures Xor(a, b) == Xor(b, a)
  {
    if a != 0 || b != 0 {
      XorSymmetric(a / 2, b / 2);
    }
  }

  lemma {:induction false} XorBound(a: nat, b: nat, k: nat)
    requires a < Pow2(k) && b < Pow2(k)
    ensures Xor(a, b) < Pow2(k)
  {
    if k > 0 {
      XorBound(a / 2, b / 2, k - 1);
    }
  }

  lemma Xor16(a: uint16, b: uint16)
    ensures Xor(a, b) < 0x1_0000
  {
    Pow2Known();
    XorBound(a, b, 16);
  }

  lemma Pow2Known()
    ensures Pow2(4) == 16 && Pow2(8) == 0x100 && Pow2(12) == 0x1000 && Pow2(16) == 0x1_0000
  {
    assert Pow2(2) == 4 && Pow2(6) == 64 && Pow2(10) == 0x400 && Pow2(14) == 0x4000;
  }

  lemma Pow2Of32()
    ensures Pow2(32) == 0x1_0000_0000
  {
    Pow2Known();
    assert Pow2(20) == 0x10_0000 && Pow2(24) == 0x100_0000 && Pow2(28) == 0x1000_0000;
  }

  lemma {:induction false} XorZero(a: nat)
    ensures Xor(0, a) == a
  {
    if a != 0 {
      XorZero(a / 2);
    }
  }

  // q << k.
  function Shl(q: nat, k: nat): nat {
    if k == 0 then q else 2 * Shl(q, k - 1)
  }

  lemma {:induction false} ShlIsProduct(q: nat, k: nat)
    ensures Shl(q, k) == q * Pow2(k)
  {
    if k > 0 {
      ShlIsProduct(q, k - 1);
      MulDouble(q, Pow2(k - 1));
    }
  }

  lemma MulDouble(a: int, b: int)
    ensures a * (2 * b) == 2 * (a * b)
  {
  }

  lemma {:induction false} ShlAdd(q: nat, a: nat, b: nat)
    ensures Shl(Shl(q, a), b) == Shl(q, a + b)
  {
    if b > 0 {
      ShlAdd(q, a, b - 1);
    }
  }

  lemma {:induction false} ShlOne(k: nat)
    ensures Shl(1, k) == Pow2(k)
  {
    if k > 0 {
      ShlOne(k - 1);
    }
  }

  // A range of 1 << a, cut into 1 << b pieces.
  lemma RangeIs(a: nat, b: nat)
    requires b <= a
    ensures Shl(Pow2(b), a - b) == Pow2(a)
  {
    ShlOne(b);
    ShlAdd(1, b, a - b);
    ShlOne(a);
  }

  lemma {:induction false} ShlLess(a: nat, b: nat, k: nat)
    requires a < b
    ensures Shl(a, k) + Pow2(k) <= Shl(b, k)
  {
    if k > 0 {
      ShlLess(a, b, k - 1);
    }
  }

  // Bit fields that do not overlap: `|` is then the same as `+`.
  lemma {:induction false} OrDisjoint(a: nat, b: nat, k: nat)
    requires a < Pow2(k)
    ensures Or(a, Shl(b, k)) == a + Shl(b, k)
  {
    if k == 0 {
      OrZero(b);
    } else {
      OrDisjoint(a / 2, b, k - 1);
    }
  }

  lemma {:induction false} OrZero(b: nat)
    ensures Or(0, b) == b
  {
    if b != 0 {
      OrZero(b / 2);
    }
  }

  // x >> k and x & ((1 << k) - 1).
  function Shr(x: nat, k: nat): nat {
    if k == 0 then x else Shr(x / 2, k - 1)
  }

  function LowBits(x: nat, k: nat): nat {
    if k == 0 then 0 else 2 * LowBits(x / 2, k - 1) + x % 2
  }

  lemma {:induction false} ShiftMask(x: nat, k: nat)
    ensures LowBits(x, k) < Pow2(k)
    ensures x == Shl(Shr(x, k), k) + LowBits(x, k)
  {
    if k > 0 {
      ShiftMask(x / 2, k - 1);
    }
  }

  lemma {:induction false} ShiftMaskUnique(q: nat, r: nat, k: nat)
    requires r < Pow2(k)
    ensures Shr(Shl(q, k) + r, k) == q && LowBits(Shl(q, k) + r, k) == r
  {
    if k > 0 {
      ShiftMaskUnique(q, r / 2, k - 1);
      assert (Shl(q, k) + r) / 2 == Shl(q, k - 1) + r / 2;
    }
  }

  // Quotient and remainder, recognized.
  lemma DivIs(p: nat, q: nat, d: nat, r: nat)
    requires p == q * d + r && r < d
    ensures p / d == q && p % d == r
  {
    var q', r' := p / d, p % d;
    assert (q - q') * d == r' - r;
    if q - q' >= 1 {
      MulAtLeast(q - q', d);
    } else if q - q' <= -1 {
      MulAtLeast(q' - q, d);
    }
  }

  lemma MulAtLeast(a: int, d: nat)
    requires a >= 1
    ensures a * d >= d
  {
  }

  // x & (1 << i) != 0.
  predicate Bit(x: nat, i: nat) {
    Shr(x, i) % 2 == 1
  }

  lemma {:induction false} BitOr(a: nat, b: nat, i: nat)
    ensures Bit(Or(a, b), i) == (Bit(a, i) || Bit(b, i))
  {
    if i > 0 {
      OrHalves(a, b);
      BitOr(a / 2, b / 2, i - 1);
    }
  }

  lemma OrHalves(a: nat, b: nat)
    ensures Or(a, b) / 2 == Or(a / 2, b / 2)
    ensures Or(a, b) % 2 == if a % 2 == 1 || b % 2 == 1 then 1 else 0
  {
  }

  lemma {:induction false} BitPow2(b: nat, i: nat)
    ensures Bit(Pow2(b), i) == (i == b)
  {
    if b > 0 && i > 0 {
      BitPow2(b - 1, i - 1);
    } else if i > 0 {
      BitZero(i - 1);
    }
  }

  lemma {:induction false} BitZero(i: nat)
    ensures !Bit(0, i)
  {
    if i > 0 {
      BitZero(i - 1);
    }
  }

  // x | (1 << b) sets bit b and nothing else.
  lemma BitSet(x: nat, b: nat, i: nat)
    ensures Bit(Or(x, Pow2(b)), i) == (Bit(x, i) || i == b)
  {
    BitOr(x, Pow2(b), i);
    BitPow2(b, i);
  }

  // A product, as a term of its own.
  function Times(a: nat, b: nat): nat {
    a * b
  }

  lemma TimesNext(a: nat, b: nat)
    ensures Times(a + 1, b) == Times(a, b) + b
  {
  }
}
