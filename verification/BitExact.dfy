// The bitwise operators, Gray code, bit extraction and bit deposit, bit by bit; compress and expand, lane by lane.

module BitExact {
  import opened Bits
  import opened BitKernels
  import opened VectorLanes

  // ---------------------------------------------------------------- bits

  lemma {:induction false} BitIsDigit(v: nat, i: nat)
    ensures Bit(v, i) <==> v / Pow2(i) % 2 == 1
  {
    ShrLowAreDivMod(v, i);
    ShrBit(v, i);
  }

  lemma {:induction false} ShrBit(v: nat, i: nat)
    ensures Bit(v, i) <==> Shr(v, i) % 2 == 1
    decreases i
  {
    if i > 0 { ShrBit(v / 2, i - 1); }
  }

  lemma {:induction false} BitwiseOperators(a: nat, b: nat, i: nat)
    ensures Bit(And(a, b), i) <==> Bit(a, i) && Bit(b, i)
    ensures Bit(Or(a, b), i) <==> Bit(a, i) || Bit(b, i)
    ensures Bit(Xor(a, b), i) <==> Bit(a, i) != Bit(b, i)
    decreases i
  {
    OpStep(a, b);
    hide And, Or, Xor;
    if i > 0 {
      Halves(And(a, b), BoolBit(a % 2 == 1 && b % 2 == 1), And(a / 2, b / 2));
      Halves(Or(a, b), BoolBit(a % 2 == 1 || b % 2 == 1), Or(a / 2, b / 2));
      Halves(Xor(a, b), BoolBit((a % 2 == 1) != (b % 2 == 1)), Xor(a / 2, b / 2));
      BitwiseOperators(a / 2, b / 2, i - 1);
    }
  }

  lemma {:induction false} ShiftedBit(v: nat, i: nat)
    ensures Bit(Shr(v, 1), i) <==> Bit(v, i + 1)
  {
    assert Shr(v, 1) == v / 2 by { assert Shr(v / 2, 0) == v / 2; }
  }

  // A bit of the Gray code says whether a bit differs from the one above it.
  lemma GrayBitwise(v: nat, i: nat)
    ensures Bit(Gray(v), i) <==> Bit(v, i) != Bit(v, i + 1)
  {
    hide Bit, Xor, Shr;
    BitwiseOperators(v, Shr(v, 1), i);
    ShiftedBit(v, i);
  }

  // ---------------------------------------------------------------- counting

  // The positions below i that are set.
  function Ones(m: nat, i: nat): set<nat> { set j: nat | 0 <= j < i && Bit(m, j) }

  lemma OnesStep(m: nat, i: nat)
    ensures |Ones(m, i + 1)| == |Ones(m, i)| + BoolBit(Bit(m, i))
  {
    hide Bit;
    if Bit(m, i) { assert Ones(m, i + 1) == Ones(m, i) + {i}; } else { assert Ones(m, i + 1) == Ones(m, i); }
  }

  lemma {:induction false} PopcountCounts(m: nat, i: nat)
    ensures Popcount(Low(m, i)) == |Ones(m, i)|
  {
    hide Bit, Popcount, Low, Ones;
    if i > 0 {
      PopcountCounts(m, i - 1);
      OnesStep(m, i - 1);
      PopcountNext(m, i - 1);
    } else {
      NoOnes(m);
    }
  }

  lemma NoOnes(m: nat)
    ensures |Ones(m, 0)| == 0 && Popcount(Low(m, 0)) == 0
  {
    assert Ones(m, 0) == {};
  }

  lemma {:induction false} RankCounts(m: nat, i: nat)
    ensures Rank(m, i) == |Ones(m, i)|
  {
    hide Bit, Ones;
    if i > 0 {
      RankCounts(m, i - 1);
      OnesStep(m, i - 1);
    } else {
      NoOnes(m);
    }
  }

  // ---------------------------------------------------------------- extract and deposit

  lemma LowStep(m: nat, i: nat)
    requires i > 0
    ensures Popcount(Low(m, i)) == m % 2 + Popcount(Low(m / 2, i - 1))
  {
    LowHalf(m, i);
  }

  lemma {:induction false} ExtractAt(v: nat, m: nat, i: nat)
    requires Bit(m, i)
    ensures Bit(Extract(v, m), Popcount(Low(m, i))) <==> Bit(v, i)
    decreases i
  {
    ExtractStep(v, m);
    hide Extract, Low, Popcount;
    if i > 0 {
      ExtractAt(v / 2, m / 2, i - 1);
      LowStep(m, i);
      if m % 2 == 1 { Halves(Extract(v, m), v % 2, Extract(v / 2, m / 2)); }
    } else {
      NoOnes(m);
      if m % 2 == 1 { Halves(Extract(v, m), v % 2, Extract(v / 2, m / 2)); }
    }
  }

  lemma {:induction false} ExtractFits(v: nat, m: nat)
    ensures Extract(v, m) < Pow2(Popcount(m))
    decreases m
  {
    if m > 0 { ExtractFits(v / 2, m / 2); }
  }

  lemma {:induction false} DepositAt(v: nat, m: nat, i: nat)
    ensures Bit(Deposit(v, m), i) <==> Bit(m, i) && Bit(v, Popcount(Low(m, i)))
    decreases i
  {
    ExtractStep(v, m);
    hide Deposit, Low, Popcount;
    if m % 2 == 1 { Halves(Deposit(v, m), v % 2, Deposit(v / 2, m / 2)); } else { Halves(Deposit(v, m), 0, Deposit(v, m / 2)); }
    if i > 0 {
      DepositAt(if m % 2 == 1 then v / 2 else v, m / 2, i - 1);
      LowStep(m, i);
    } else {
      NoOnes(m);
    }
  }

  // bext puts bit i of v, where the mask selects it, behind the bits that the mask selects below it, and there is
  // nothing above.
  lemma ExtractBitwise(v: nat, m: nat, i: nat)
    ensures Bit(m, i) ==> (Bit(Extract(v, m), |Ones(m, i)|) <==> Bit(v, i))
    ensures Extract(v, m) < Pow2(Popcount(m))
  {
    hide Bit, Extract, Ones, Popcount, Low, Pow2;
    PopcountCounts(m, i);
    ExtractFits(v, m);
    if Bit(m, i) { ExtractAt(v, m, i); }
  }

  // bdep gives bit i of the mask, where it is set, the next bit of v, and clears the others.
  lemma DepositBitwise(v: nat, m: nat, i: nat)
    ensures Bit(Deposit(v, m), i) <==> Bit(m, i) && Bit(v, |Ones(m, i)|)
  {
    hide Bit, Deposit, Ones, Popcount, Low;
    PopcountCounts(m, i);
    DepositAt(v, m, i);
  }

  // ---------------------------------------------------------------- lanes

  // Compress moves a selected lane behind the selected ones before it; zeros fill the rest.
  lemma CompressedLanewise<T>(lanes: seq<T>, mask: nat, zero: T, i: nat)
    requires i < |lanes|
    ensures Bit(mask, i) ==> |Ones(mask, i)| < |lanes| && Compressed(lanes, mask, zero)[|Ones(mask, i)|] == lanes[i]
    ensures |Ones(mask, |lanes|)| <= i ==> Compressed(lanes, mask, zero)[i] == zero
  {
    hide Bit, Ones, Packed;
    RankCounts(mask, i);
    RankCounts(mask, |lanes|);
    if Bit(mask, i) { PackedAt(lanes, mask, |lanes|, i); }
  }

  // Expand takes the next lane for each selected one; the others are zero.
  lemma ExpandedLanewise<T>(lanes: seq<T>, mask: nat, zero: T, i: nat)
    requires i < |lanes|
    ensures |Ones(mask, i)| <= i
    ensures Expanded(lanes, mask, zero)[i] == if Bit(mask, i) then lanes[|Ones(mask, i)|] else zero
  {
    hide Bit, Ones;
    RankCounts(mask, i);
  }
}
