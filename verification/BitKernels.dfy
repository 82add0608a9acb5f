// Gray code, bit extraction and bit deposit (src/vm/interpreter.cpp): loops over the bits of a word of any
// width.

module BitKernels {
  import opened Bits

  // ---------------------------------------------------------------- exclusive or

  lemma {:induction false} XorSymmetric(a: nat, b: nat)
    ensures Xor(a, b) == Xor(b, a)
    decreases a + b
  {
    if a > 0 && b > 0 { XorSymmetric(a / 2, b / 2); }
  }

  lemma {:induction false} XorAssociative(a: nat, b: nat, c: nat)
    ensures Xor(Xor(a, b), c) == Xor(a, Xor(b, c))
    decreases a + b + c
  {
    if a + b + c > 0 {
      XorAssociative(a / 2, b / 2, c / 2);
      XorHalf(a, b);
      XorHalf(b, c);
      XorHalf(Xor(a, b), c);
      XorHalf(a, Xor(b, c));
    }
  }

  // What an exclusive or is, at the lowest bit and above it.
  lemma XorHalf(a: nat, b: nat)
    ensures Xor(a, b) / 2 == Xor(a / 2, b / 2)
    ensures Xor(a, b) % 2 == BoolBit((a % 2 == 1) != (b % 2 == 1))
  {
    OpStep(a, b);
  }

  lemma {:induction false} XorSelf(a: nat)
    ensures Xor(a, a) == 0
  {
    if a > 0 {
      XorSelf(a / 2);
      XorHalf(a, a);
    }
  }

  lemma XorZero(a: nat)
    ensures Xor(a, 0) == a && Xor(0, a) == a
  {
  }

  // a ^ b ^ b is a.
  lemma XorTwice(a: nat, b: nat)
    ensures Xor(Xor(a, b), b) == a
  {
    hide Xor;
    XorAssociative(a, b, b);
    XorSelf(b);
    XorZero(a);
  }

  lemma {:induction false} XorShr(a: nat, b: nat, k: nat)
    ensures Shr(Xor(a, b), k) == Xor(Shr(a, k), Shr(b, k))
    decreases k
  {
    if k > 0 {
      XorHalf(a, b);
      XorShr(a / 2, b / 2, k - 1);
    }
  }

  lemma {:induction false} ShrOut(v: nat, k: nat)
    ensures v < Pow2(k) <==> Shr(v, k) == 0
    decreases k
  {
    if k > 0 { ShrOut(v / 2, k - 1); }
  }

  // ---------------------------------------------------------------- Gray code

  function Gray(v: nat): nat { Xor(v, Shr(v, 1)) }

  // Every bit is the exclusive or of the code's bits from there up.
  function PrefixXor(g: nat): nat {
    if g == 0 then 0 else Xor(g, PrefixXor(g / 2))
  }

  lemma {:induction false} PrefixXorHalf(g: nat)
    ensures PrefixXor(g) / 2 == PrefixXor(g / 2)
  {
    if g > 0 {
      PrefixXorHalf(g / 2);
      XorHalf(g, PrefixXor(g / 2));
    }
  }

  lemma {:induction false} PrefixXorFits(g: nat, k: nat)
    requires g < Pow2(k)
    ensures PrefixXor(g) < Pow2(k)
    decreases k
  {
    if k > 0 && g > 0 {
      PrefixXorFits(g / 2, k - 1);
      PrefixXorHalf(g);
    }
  }

  // Gray undoes the prefix exclusive or...
  lemma GrayOfPrefixXor(g: nat)
    ensures Gray(PrefixXor(g)) == g
  {
    PrefixXorHalf(g);
    assert Shr(PrefixXor(g), 1) == PrefixXor(g / 2) by { assert Shr(PrefixXor(g) / 2, 0) == PrefixXor(g) / 2; }
    assert g > 0 ==> PrefixXor(g) == Xor(g, PrefixXor(g / 2));
    hide Xor, Shr;
    if g > 0 { XorTwice(g, PrefixXor(g / 2)); } else { XorZero(0); }
  }

  // ...and the other way round.
  lemma {:induction false} PrefixXorOfGray(v: nat)
    ensures PrefixXor(Gray(v)) == v
    decreases v
  {
    if v > 0 {
      PrefixXorOfGray(v / 2);
      assert Shr(v, 1) == v / 2 && Shr(v / 2, 1) == v / 2 / 2;
      XorHalf(v, v / 2);
      assert Gray(v) / 2 == Gray(v / 2);
      assert Gray(v) > 0 by { if Gray(v) == 0 { XorTwice(v, v / 2); XorZero(v / 2); } }
      XorTwice(v, v / 2);
      hide Xor, Shr;
    } else {
      assert Gray(0) == 0;
    }
  }

  // Folding v ^ (v >> s) onto itself, s positions further down, doubles s.
  lemma FoldDoubles(v: nat, s: nat)
    ensures var r := Xor(v, Shr(v, s)); Xor(r, Shr(r, s)) == Xor(v, Shr(v, 2 * s))
  {
    hide Xor, Shr;
    var t, u := Shr(v, s), Shr(v, 2 * s);
    XorShr(v, t, s);
    ShrShr(v, s, s);
    XorAssociative(Xor(v, t), t, u);
    XorTwice(v, t);
  }

  // The log-step loop computes the prefix exclusive or, so that it undoes Gray and Gray undoes it.
  method Ungray(g: nat, bits: nat) returns (r: nat)
    requires g < Pow2(bits)
    ensures r == PrefixXor(g) && Gray(r) == g && r < Pow2(bits)
    ensures forall v: nat :: Gray(v) == g ==> r == v
  {
    ghost var v := PrefixXor(g);
    GrayOfPrefixXor(g);
    PrefixXorFits(g, bits);
    hide Xor, Shr, PrefixXor, Pow2;
    r := g;
    var s := 1;
    while s < bits
      invariant s >= 1 && r == Xor(v, Shr(v, s))
      decreases bits - s
    {
      FoldDoubles(v, s);
      r := Xor(r, Shr(r, s));
      s := 2 * s;
    }
    Pow2Monotone(bits, s);
    ShrOut(v, s);
    XorZero(v);
    forall w: nat | Gray(w) == g ensures r == w { PrefixXorOfGray(w); }
  }

  // ---------------------------------------------------------------- extract and deposit

  function Popcount(m: nat): nat {
    if m == 0 then 0 else m % 2 + Popcount(m / 2)
  }

  // The bits of v under the set bits of m, moved together at the low end.
  function Extract(v: nat, m: nat): nat
    decreases m
  {
    if m == 0 then 0
    else if m % 2 == 1 then v % 2 + 2 * Extract(v / 2, m / 2)
    else Extract(v / 2, m / 2)
  }

  // The low bits of v, spread out over the set bits of m.
  function Deposit(v: nat, m: nat): nat
    decreases m
  {
    if m == 0 then 0
    else if m % 2 == 1 then v % 2 + 2 * Deposit(v / 2, m / 2)
    else 2 * Deposit(v, m / 2)
  }

  lemma {:induction false} DepositOfExtract(v: nat, m: nat)
    ensures Deposit(Extract(v, m), m) == And(v, m)
    decreases m
  {
    if m == 0 {
      OpZero(v);
    } else {
      hide And, Extract, Deposit;
      DepositOfExtract(v / 2, m / 2);
      OpStep(v, m);
      ExtractStep(v, m);
      ExtractStep(Extract(v, m), m);
    }
  }

  lemma {:induction false} ExtractOfDeposit(v: nat, m: nat)
    ensures Extract(Deposit(v, m), m) == Low(v, Popcount(m))
    decreases m
  {
    if m == 0 {
    } else {
      hide Extract, Deposit, Low, Popcount;
      ExtractStep(v, m);
      ExtractStep(Deposit(v, m), m);
      if m % 2 == 1 { Halves(Deposit(v, m), v % 2, Deposit(v / 2, m / 2)); } else { Halves(Deposit(v, m), 0, Deposit(v, m / 2)); }
      PopcountStep(m);
      PartsUnfold(v, Popcount(m / 2) + 1);
      ExtractOfDeposit(if m % 2 == 1 then v / 2 else v, m / 2);
    }
  }

  lemma PopcountStep(m: nat)
    requires m > 0
    ensures Popcount(m) == m % 2 + Popcount(m / 2)
  {
  }

  // ---------------------------------------------------------------- the loops

  lemma {:induction false} PopcountNext(m: nat, i: nat)
    ensures Popcount(Low(m, i + 1)) == Popcount(Low(m, i)) + BoolBit(Bit(m, i))
    decreases i
  {
    hide Popcount, Low, Bit;
    if i == 0 {
      PopcountFirst(m);
    } else {
      BitHalf(m, i);
      PopcountNext(m / 2, i - 1);
      LowHalf(m, i);
      LowHalf(m, i + 1);
    }
  }

  lemma PopcountFirst(m: nat)
    ensures Popcount(Low(m, 1)) == Popcount(Low(m, 0)) + BoolBit(Bit(m, 0))
  {
    assert Low(m, 1) == m % 2 && Low(m, 0) == 0;
  }

  lemma BitHalf(m: nat, i: nat)
    requires i > 0
    ensures Bit(m, i) == Bit(m / 2, i - 1)
  {
  }

  lemma LowHalf(m: nat, i: nat)
    requires i > 0
    ensures Low(m, i) / 2 == Low(m / 2, i - 1) && Low(m, i) % 2 == m % 2
    ensures Popcount(Low(m, i)) == m % 2 + Popcount(Low(m / 2, i - 1))
  {
  }

  // One more bit of the mask adds one bit at the top of what was extracted.
  lemma {:induction false} ExtractNext(v: nat, m: nat, i: nat)
    ensures Extract(v, Low(m, i)) < Pow2(Popcount(Low(m, i)))
    ensures Extract(v, Low(m, i + 1)) ==
      Extract(v, Low(m, i)) + Shl(BoolBit(Bit(m, i) && Bit(v, i)), Popcount(Low(m, i)))
    decreases i
  {
    if i == 0 {
      assert Low(m, 1) == m % 2 && Low(m, 0) == 0;
      assert Extract(v / 2, 0) == 0;
    } else {
      ExtractNext(v / 2, m / 2, i - 1);
      ExtractUp(v, m, i);
    }
  }

  lemma ExtractUp(v: nat, m: nat, i: nat)
    requires i > 0
    requires Extract(v / 2, Low(m / 2, i - 1)) < Pow2(Popcount(Low(m / 2, i - 1)))
    requires Extract(v / 2, Low(m / 2, i)) ==
      Extract(v / 2, Low(m / 2, i - 1)) + Shl(BoolBit(Bit(m / 2, i - 1) && Bit(v / 2, i - 1)), Popcount(Low(m / 2, i - 1)))
    ensures Extract(v, Low(m, i)) < Pow2(Popcount(Low(m, i)))
    ensures Extract(v, Low(m, i + 1)) ==
      Extract(v, Low(m, i)) + Shl(BoolBit(Bit(m, i) && Bit(v, i)), Popcount(Low(m, i)))
  {
    hide Low, Popcount, Extract;
    LowHalf(m, i);
    LowHalf(m, i + 1);
    ExtractStep(v, Low(m, i));
    ExtractStep(v, Low(m, i + 1));
  }

  lemma ExtractStep(v: nat, m: nat)
    ensures Extract(v, m) == if m % 2 == 1 then v % 2 + 2 * Extract(v / 2, m / 2) else Extract(v / 2, m / 2)
    ensures Deposit(v, m) == if m % 2 == 1 then v % 2 + 2 * Deposit(v / 2, m / 2) else 2 * Deposit(v, m / 2)
  {
  }

  lemma {:induction false} DepositNext(v: nat, m: nat, i: nat)
    ensures Deposit(v, Low(m, i)) < Pow2(i)
    ensures Deposit(v, Low(m, i + 1)) ==
      Deposit(v, Low(m, i)) + Shl(BoolBit(Bit(m, i) && Bit(v, Popcount(Low(m, i)))), i)
    decreases i
  {
    if i == 0 {
      assert Low(m, 1) == m % 2 && Low(m, 0) == 0;
      assert Deposit(v / 2, 0) == 0 && Deposit(v, 0) == 0;
    } else {
      var w := if m % 2 == 1 then v / 2 else v;
      DepositNext(w, m / 2, i - 1);
      DepositUp(v, m, i, w);
    }
  }

  lemma DepositUp(v: nat, m: nat, i: nat, w: nat)
    requires i > 0 && w == if m % 2 == 1 then v / 2 else v
    requires Deposit(w, Low(m / 2, i - 1)) < Pow2(i - 1)
    requires Deposit(w, Low(m / 2, i)) ==
      Deposit(w, Low(m / 2, i - 1)) + Shl(BoolBit(Bit(m / 2, i - 1) && Bit(w, Popcount(Low(m / 2, i - 1)))), i - 1)
    ensures Deposit(v, Low(m, i)) < Pow2(i)
    ensures Deposit(v, Low(m, i + 1)) ==
      Deposit(v, Low(m, i)) + Shl(BoolBit(Bit(m, i) && Bit(v, Popcount(Low(m, i)))), i)
  {
    hide Low, Popcount, Deposit;
    LowHalf(m, i);
    LowHalf(m, i + 1);
    ExtractStep(v, Low(m, i));
    ExtractStep(v, Low(m, i + 1));
  }

  lemma LowAll(m: nat, bits: nat)
    requires m < Pow2(bits)
    ensures Low(m, bits) == m
  {
    SplitAt(m, bits);
    ShrOut(m, bits);
    ShlIsMul(0, bits);
  }

  // `r |= 1 << k`, where r has no bits from k up.
  lemma SetTopBit(r: nat, k: nat)
    requires r < Pow2(k)
    ensures Or(r, Shl(1, k)) == r + Shl(1, k)
  {
    OrDisjoint(1, k, r);
    OrCommutes(r, Shl(1, k));
  }

  lemma {:induction false} ShlZero(k: nat)
    ensures Shl(0, k) == 0
  {
    if k > 0 { ShlZero(k - 1); }
  }

  method Bext(v: nat, mask: nat, bits: nat) returns (r: nat)
    requires mask < Pow2(bits)
    ensures r == Extract(v, mask)
  {
    r := 0;
    var k := 0;
    hide Extract, Or, Shl, Popcount;
    ExtractNothing(v);
    for i := 0 to bits
      invariant k == Popcount(Low(mask, i)) && r == Extract(v, Low(mask, i))
    {
      ExtractNext(v, mask, i);
      PopcountNext(mask, i);
      ShlZero(k);
      if Bit(mask, i) {
        if Bit(v, i) {
          SetTopBit(r, k);
          r := Or(r, Shl(1, k));
        }
        k := k + 1;
      }
    }
    LowAll(mask, bits);
  }

  lemma ExtractNothing(v: nat)
    ensures Low(v, 0) == 0 && Extract(v, 0) == 0 && Deposit(v, 0) == 0 && Popcount(0) == 0
  {
  }

  method Bdep(v: nat, mask: nat, bits: nat) returns (r: nat)
    requires mask < Pow2(bits)
    ensures r == Deposit(v, mask)
  {
    r := 0;
    var k := 0;
    hide Deposit, Or, Shl, Popcount;
    ExtractNothing(v);
    for i := 0 to bits
      invariant k == Popcount(Low(mask, i)) && r == Deposit(v, Low(mask, i))
    {
      DepositNext(v, mask, i);
      PopcountNext(mask, i);
      ShlZero(i);
      if Bit(mask, i) {
        if Bit(v, k) {
          SetTopBit(r, i);
          r := Or(r, Shl(1, i));
        }
        k := k + 1;
      }
    }
    LowAll(mask, bits);
  }
}
