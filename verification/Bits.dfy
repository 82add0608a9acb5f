// Bitwise operations on natural numbers, the way the C++ unsigned types have them.
//
// A machine word is a natural number below a power of two. Shifts and the operators `&`, `|`, `^`
// are defined bit by bit, so that every law below is an induction over the bit positions.

module Bits {

  const TWO_TO_128: nat := 0x1_0000_0000_0000_0000_0000_0000_0000_0000

  function Pow2(k: nat): (p: nat)
    ensures p >= 1
  {
    if k == 0 then 1 else 2 * Pow2(k - 1)
  }

  function Shl(v: nat, k: nat): nat {
    if k == 0 then v else 2 * Shl(v, k - 1)
  }

  function Shr(v: nat, k: nat): nat {
    if k == 0 then v else Shr(v / 2, k - 1)
  }

  // The low k bits of v.
  function Low(v: nat, k: nat): nat {
    if k == 0 then 0 else v % 2 + 2 * Low(v / 2, k - 1)
  }

  // Bit number i of v: `(v >> i) & 1`.
  predicate Bit(v: nat, i: nat) {
    if i == 0 then v % 2 == 1 else Bit(v / 2, i - 1)
  }

  function BoolBit(b: bool): nat { if b then 1 else 0 }

  function And(a: nat, b: nat): nat {
    if a == 0 || b == 0 then 0
    else BoolBit(a % 2 == 1 && b % 2 == 1) + 2 * And(a / 2, b / 2)
  }

  function Or(a: nat, b: nat): nat
    decreases a + b
  {
    if a == 0 then b else if b == 0 then a
    else BoolBit(a % 2 == 1 || b % 2 == 1) + 2 * Or(a / 2, b / 2)
  }

  function Xor(a: nat, b: nat): nat
    decreases a + b
  {
    if a == 0 then b else if b == 0 then a
    else BoolBit((a % 2 == 1) != (b % 2 == 1)) + 2 * Xor(a / 2, b / 2)
  }

  // ---------------------------------------------------------------- powers of two and shifts

  lemma {:induction false} Pow2Add(j: nat, k: nat)
    ensures Pow2(j + k) == Pow2(j) * Pow2(k)
  {
    if j == 0 {
    } else {
      assert Pow2(j + k) == 2 * Pow2(j + k - 1) && Pow2(j) == 2 * Pow2(j - 1);
      hide Pow2;
      Pow2Add(j - 1, k);
      assert j - 1 + k == j + k - 1;
      Doubled(Pow2(j - 1), Pow2(k));
    }
  }

  lemma Doubled(a: int, b: int)
    ensures (2 * a) * b == 2 * (a * b)
  {
  }

  lemma {:induction false} Pow2Monotone(j: nat, k: nat)
    requires j <= k
    ensures Pow2(j) <= Pow2(k)
    decreases k
  {
    if j < k { Pow2Monotone(j, k - 1); }
  }

  lemma Pow2Byte(k: nat)
    ensures Pow2(k + 4) == 0x10 * Pow2(k) && Pow2(k + 8) == 0x100 * Pow2(k)
  {
    assert Pow2(k + 4) == 2 * Pow2(k + 3) && Pow2(k + 2) == 2 * Pow2(k + 1);
    assert Pow2(k + 8) == 2 * Pow2(k + 7) && Pow2(k + 6) == 2 * Pow2(k + 5);
  }

  // The powers the source writes as literals.
  lemma Pow2Literals()
    ensures Pow2(7) == 0x80
    ensures Pow2(5) == 0x20 && Pow2(6) == 0x40 && Pow2(8) == 0x100 && Pow2(10) == 0x400 && Pow2(12) == 0x1000
    ensures Pow2(16) == 0x1_0000 && Pow2(18) == 0x4_0000 && Pow2(19) == 0x8_0000
    ensures Pow2(21) == 0x20_0000 && Pow2(22) == 0x40_0000 && Pow2(24) == 0x100_0000 && Pow2(26) == 0x400_0000
    ensures Pow2(32) == 0x1_0000_0000 && Pow2(64) == 0x1_0000_0000_0000_0000
  {
    assert Pow2(0) == 1 && Pow2(1) == 2 && Pow2(2) == 4 && Pow2(3) == 8;
    hide Pow2;
    Pow2Byte(0); Pow2Byte(8); Pow2Byte(16); Pow2Byte(24); Pow2Byte(32); Pow2Byte(40); Pow2Byte(48); Pow2Byte(56);
    Pow2Byte(1); Pow2Byte(5); Pow2Byte(13);
    Pow2Byte(2); Pow2Byte(6); Pow2Byte(10); Pow2Byte(14); Pow2Byte(18);
    Pow2Byte(3); Pow2Byte(11);
  }

  lemma {:induction false} ShlIsMul(v: nat, k: nat)
    ensures Shl(v, k) == v * Pow2(k)
  {
    if k > 0 {
      ShlIsMul(v, k - 1);
      assert v * Pow2(k) == 2 * (v * Pow2(k - 1));
    }
  }

  lemma {:induction false} SplitAt(v: nat, k: nat)
    ensures v == Shl(Shr(v, k), k) + Low(v, k)
    ensures Low(v, k) < Pow2(k)
  {
    if k > 0 { SplitAt(v / 2, k - 1); }
  }

  lemma {:induction false} JoinAt(hi: nat, k: nat, lo: nat)
    requires lo < Pow2(k)
    ensures Shr(Shl(hi, k) + lo, k) == hi && Low(Shl(hi, k) + lo, k) == lo
  {
    if k > 0 {
      JoinAt(hi, k - 1, lo / 2);
      assert (Shl(hi, k) + lo) / 2 == Shl(hi, k - 1) + lo / 2;
    }
  }

  lemma ShrLowAreDivMod(v: nat, k: nat)
    ensures Shr(v, k) == v / Pow2(k) && Low(v, k) == v % Pow2(k)
  {
    SplitAt(v, k);
    ShlIsMul(Shr(v, k), k);
    DivModUnique(v, Pow2(k), Shr(v, k), Low(v, k));
  }

  lemma DivModUnique(a: int, p: nat, d: int, r: int)
    requires a == d * p + r && 0 <= r < p
    ensures a / p == d && a % p == r
  {
    var d' := a / p;
    assert a == d' * p + a % p;
    assert d' < d ==> (d' + 1) * p <= d * p;
    assert d < d' ==> (d + 1) * p <= d' * p;
  }

  lemma {:induction false} ShrShr(v: nat, a: nat, b: nat)
    ensures Shr(Shr(v, a), b) == Shr(v, a + b)
    decreases a
  {
    if a > 0 { ShrShr(v / 2, a - 1, b); }
  }

  // UInt128 arithmetic.
  function Wrap128(v: int): nat { v % TWO_TO_128 }

  lemma Wrap128Small(v: nat)
    requires v < TWO_TO_128
    ensures Wrap128(v) == v
  {
    DivModUnique(v, TWO_TO_128, 0, v);
  }

  // ---------------------------------------------------------------- splitting `&` and `|` at a bit

  // One step of the three operators, also where an operand is zero.
  lemma OpStep(a: nat, b: nat)
    ensures And(a, b) == BoolBit(a % 2 == 1 && b % 2 == 1) + 2 * And(a / 2, b / 2)
    ensures Or(a, b) == BoolBit(a % 2 == 1 || b % 2 == 1) + 2 * Or(a / 2, b / 2)
    ensures Xor(a, b) == BoolBit((a % 2 == 1) != (b % 2 == 1)) + 2 * Xor(a / 2, b / 2)
  {
  }

  // hi | lo is hi + lo when lo fits below the set bits of hi.
  lemma {:induction false} OrDisjoint(hi: nat, k: nat, lo: nat)
    requires lo < Pow2(k)
    ensures Or(Shl(hi, k), lo) == Shl(hi, k) + lo
  {
    if k > 0 {
      OrDisjoint(hi, k - 1, lo / 2);
      OpStep(Shl(hi, k), lo);
    }
  }

  lemma Halves(d: nat, b: nat, h: nat)
    requires d == b + 2 * h && b < 2
    ensures d % 2 == b && d / 2 == h
  {
  }

  lemma PartsUnfold(v: nat, k: nat)
    requires k > 0
    ensures Low(v, k) == v % 2 + 2 * Low(v / 2, k - 1) && Shr(v, k) == Shr(v / 2, k - 1) && Shl(v, k) == 2 * Shl(v, k - 1)
  {
  }

  // The parts of v at bit k are those of v / 2 at the bit below.
  lemma PartsStep(v: nat, k: nat)
    requires k > 0
    ensures Low(v, k) % 2 == v % 2 && Low(v, k) / 2 == Low(v / 2, k - 1) && Shr(v, k) == Shr(v / 2, k - 1)
    ensures Shl(v, k) == 2 * Shl(v, k - 1)
  {
    hide Low, Shr, Shl;
    PartsUnfold(v, k);
    Halves(Low(v, k), v % 2, Low(v / 2, k - 1));
  }

  lemma PartsAtZero(v: nat)
    ensures Low(v, 0) == 0 && Shr(v, 0) == v && Shl(v, 0) == v
  {
  }

  // a & b splits at bit k into the upper and the lower parts of a and b.
  lemma {:induction false} AndSplit(a: nat, b: nat, k: nat)
    ensures And(a, b) == Shl(And(Shr(a, k), Shr(b, k)), k) + And(Low(a, k), Low(b, k))
  {
    hide And, Low, Shr, Shl;
    if k == 0 {
      PartsAtZero(a);
      PartsAtZero(b);
      PartsAtZero(And(a, b));
      OpZero(0);
    } else {
      AndSplit(a / 2, b / 2, k - 1);
      PartsStep(a, k);
      PartsStep(b, k);
      PartsStep(And(Shr(a, k), Shr(b, k)), k);
      OpStep(a, b);
      OpStep(Low(a, k), Low(b, k));
    }
  }

  lemma {:induction false} OrSplit(a: nat, b: nat, k: nat)
    ensures Or(a, b) == Shl(Or(Shr(a, k), Shr(b, k)), k) + Or(Low(a, k), Low(b, k))
  {
    hide Or, Low, Shr, Shl;
    if k == 0 {
      PartsAtZero(a);
      PartsAtZero(b);
      PartsAtZero(Or(a, b));
      OpZero(0);
    } else {
      OrSplit(a / 2, b / 2, k - 1);
      PartsStep(a, k);
      PartsStep(b, k);
      PartsStep(Or(Shr(a, k), Shr(b, k)), k);
      OpStep(a, b);
      OpStep(Low(a, k), Low(b, k));
    }
  }

  lemma {:induction false} OrCommutes(a: nat, b: nat)
    ensures Or(a, b) == Or(b, a)
    decreases a + b
  {
    if a > 0 && b > 0 { OrCommutes(a / 2, b / 2); }
  }

  lemma OpZero(a: nat)
    ensures Or(a, 0) == a && Or(0, a) == a && And(a, 0) == 0 && And(0, a) == 0
  {
  }

  // a & (2^k - 1) keeps the low k bits.
  lemma {:induction false} AndLowMask(a: nat, k: nat)
    ensures And(a, Pow2(k) - 1) == Low(a, k)
  {
    if k > 0 {
      AndLowMask(a / 2, k - 1);
      OpStep(a, Pow2(k) - 1);
      assert (Pow2(k) - 1) / 2 == Pow2(k - 1) - 1;
    }
  }
}
