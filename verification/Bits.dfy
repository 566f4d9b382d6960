/** Powers of two, and the bits of 64-bit words as numbers. */
module Bits {

  /** One past the largest `size_t` on a 64-bit platform. */
  const SIZE_LIMIT: nat := 0x1_0000_0000_0000_0000

  function Pow2(n: nat): (r: nat)
    ensures r > n
  {
    if n == 0 then 1 else 2 * Pow2(n - 1)
  }

  lemma Pow2Double(n: nat)
    ensures Pow2(n + 1) == 2 * Pow2(n)
  {
  }

  lemma {:induction false} Pow2Monotone(a: nat, b: nat)
    requires a <= b
    ensures Pow2(a) <= Pow2(b)
    decreases b
  {
    if a < b { Pow2Monotone(a, b - 1); }
  }

  lemma Pow2Zero(n: nat)
    requires n == 0
    ensures Pow2(n) == 1
  {
  }

  lemma Pow2Plus4(n: nat)
    ensures Pow2(n + 4) == 16 * Pow2(n)
  {
    assert Pow2(n + 2) == 2 * Pow2(n + 1) && Pow2(n + 3) == 2 * Pow2(n + 2) && Pow2(n + 4) == 2 * Pow2(n + 3);
  }

  lemma Pow2Plus16(n: nat)
    ensures Pow2(n + 16) == 0x1_0000 * Pow2(n)
  {
    hide Pow2;
    Pow2Plus4(n);
    Pow2Plus4(n + 4);
    Pow2Plus4(n + 8);
    Pow2Plus4(n + 12);
  }

  lemma Pow2Of64(n: nat)
    requires n == 64
    ensures Pow2(n) == SIZE_LIMIT
  {
    hide Pow2;
    Pow2Zero(n - 64);
    Pow2Plus16(n - 64);
    Pow2Plus16(n - 48);
    Pow2Plus16(n - 32);
    Pow2Plus16(n - 16);
  }

  /** `a & b`, bit by bit. */
  function And(a: nat, b: nat): (r: nat)
    ensures r <= a && r <= b
  {
    if a == 0 || b == 0 then 0 else 2 * And(a / 2, b / 2) + (if a % 2 == 1 && b % 2 == 1 then 1 else 0)
  }

  /** `~a` in w bits. */
  function Not(a: nat, w: nat): nat
    requires a < Pow2(w)
  {
    Pow2(w) - 1 - a
  }

  /** The lowest bit that is set. */
  function LowBit(a: nat): (b: nat)
    requires a > 0
    ensures 0 < b <= a
  {
    if a % 2 == 1 then 1 else 2 * LowBit(a / 2)
  }

  lemma {:induction false} PlusLowBit(a: nat, w: nat)
    requires 0 < a < Pow2(w)
    ensures LowBit(a) + a <= Pow2(w)
  {
    if a % 2 == 0 { PlusLowBit(a / 2, w - 1); }
  }

  predicate IsPow2(a: nat) { a > 0 && LowBit(a) == a }

  lemma {:induction false} PowerIsItsLowBit(k: nat)
    ensures IsPow2(Pow2(k))
  {
    if k > 0 { PowerIsItsLowBit(k - 1); }
  }

  lemma {:induction false} LowBitIsPower(a: nat) returns (k: nat)
    requires a > 0
    ensures LowBit(a) == Pow2(k)
  {
    if a % 2 == 1 {
      k := 0;
    } else {
      k := LowBitIsPower(a / 2);
      Pow2Double(k);
      k := k + 1;
    }
  }

  /** The bits of a number outside a mask are what is left of it without those inside. */
  lemma {:induction false} AndNot(a: nat, m: nat, w: nat)
    requires a < Pow2(w) && m < Pow2(w)
    ensures And(a, Not(m, w)) == a - And(a, m)
    decreases w
  {
    hide And, Not;
    if w > 0 {
      AndNot(a / 2, m / 2, w - 1);
      HalfOfNot(m, w);
      AndHalves(a, Not(m, w));
      AndHalves(a, m);
    }
  }

  lemma HalfOfNot(m: nat, w: nat)
    requires w > 0 && m < Pow2(w)
    ensures m / 2 < Pow2(w - 1) && Not(m, w) / 2 == Not(m / 2, w - 1) && Not(m, w) % 2 == 1 - m % 2
  {
  }

  lemma AndHalves(a: nat, b: nat)
    ensures And(a, b) == 2 * And(a / 2, b / 2) + (if a % 2 == 1 && b % 2 == 1 then 1 else 0)
  {
  }

  /** Below a power of two all bits are set: the mask keeps the remainder. */
  lemma {:induction false} AndBelowPower(a: nat, k: nat)
    ensures And(a, Pow2(k) - 1) == a % Pow2(k)
  {
    if k > 0 {
      AndBelowPower(a / 2, k - 1);
      AndHalves(a, Pow2(k) - 1);
      HalfOfRemainder(a, Pow2(k - 1));
    }
  }

  lemma HalfOfRemainder(a: nat, d: nat)
    requires d > 0
    ensures a % (2 * d) == 2 * (a / 2 % d) + a % 2
  {
    var q, r := a / 2 / d, a / 2 % d;
    assert a / 2 == q * d + r;
    assert a == 2 * (q * d + r) + a % 2;
    assert 2 * (q * d) == q * (2 * d);
    DivUnique(a, 2 * d, q, 2 * r + a % 2);
  }

  lemma DivUnique(x: nat, d: nat, q: nat, r: nat)
    requires d > 0 && r < d && x == q * d + r
    ensures x / d == q && x % d == r
  {
    var q', r' := x / d, x % d;
    assert x == q' * d + r';
    MulDiff(q', q, d);
    if q' != q { MulAtLeast(q' - q, d); }
  }

  lemma MulDiff(a: int, b: int, d: int)
    ensures (a - b) * d == a * d - b * d
  {
  }

  lemma MulAtLeast(k: int, d: int)
    requires k != 0 && d > 0
    ensures k >= 1 ==> k * d >= d
    ensures k <= -1 ==> k * d <= -d
  {
    MulDiff(k, 1, d);
    MulDiff(k, -1, d);
    if k >= 1 {
      assert (k - 1) * d >= 0;
    } else {
      assert (-1 - k) * d >= 0;
      MulDiff(-1, k, d);
    }
  }

  /** a - 1 shares all its bits with a - 1 plus the lowest bit of a. */
  lemma {:induction false} AndBelowLowBit(a: nat)
    requires a > 0
    ensures And(a + LowBit(a) - 1, a - 1) == a - 1
  {
    hide And, LowBit;
    AndHalves(a + LowBit(a) - 1, a - 1);
    LowBitHalves(a);
    if a % 2 == 1 {
      AndSelf(a / 2);
    } else {
      AndBelowLowBit(a / 2);
    }
  }

  lemma LowBitHalves(a: nat)
    requires a > 0
    ensures LowBit(a) == if a % 2 == 1 then 1 else 2 * LowBit(a / 2)
  {
  }

  lemma {:induction false} AndSelf(a: nat)
    ensures And(a, a) == a
  {
    if a > 0 { AndSelf(a / 2); }
  }

  /** A mask whose lowest bits are set takes away those bits. */
  lemma {:induction false} AndLowBits(a: nat, b: nat, k: nat)
    requires b % Pow2(k) == Pow2(k) - 1
    ensures And(a, b) % Pow2(k) == a % Pow2(k)
  {
    if k > 0 {
      var d := Pow2(k - 1);
      AndHalves(a, b);
      HalfOfRemainder(a, d);
      HalfOfRemainder(b, d);
      HalfOfRemainder(And(a, b), d);
      hide And, Pow2;
      assert b / 2 % d == d - 1 && b % 2 == 1;
      AndLowBits(a / 2, b / 2, k - 1);
      AndParity(a, b);
    }
  }

  lemma AndParity(a: nat, b: nat)
    requires b % 2 == 1
    ensures And(a, b) % 2 == a % 2 && And(a, b) / 2 == And(a / 2, b / 2)
  {
    AndHalves(a, b);
    hide And;
  }
}
