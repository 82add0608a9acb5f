// Multi-limb addition and subtraction with the addc and subb instructions (src/vm/interpreter.cpp), for
// integer types of up to 64 bits. A register holds a signed or an unsigned number of the type's width.

module LimbChains {
  import opened Bits

  // An integer type: its width and whether it is signed.
  datatype IntType = IntType(bits: nat, signed: bool)

  predicate Narrow(t: IntType) { 1 <= t.bits <= 64 }

  // Value::fromInt128: the low bits, read as a number of the type.
  function FromInt128(t: IntType, v: int): int {
    var u := v % Pow2(t.bits);
    if t.signed && 2 * u >= Pow2(t.bits) then u - Pow2(t.bits) else u
  }

  // unsignedOf: the register's bits as an unsigned number.
  function UnsignedOf(t: IntType, x: int): (u: nat)
    ensures u < Pow2(t.bits)
  {
    x % Pow2(t.bits)
  }

  datatype Stepped = Stepped(value: int, carry: bool)

  function Addc(t: IntType, x: int, y: int, carry: bool): Stepped {
    var ux, uy, c := UnsignedOf(t, x), UnsignedOf(t, y), BoolBit(carry);
    var r := Wrap128(ux + uy + c);
    Stepped(FromInt128(t, r), r > Pow2(t.bits) - 1 || r < ux)
  }

  function Subb(t: IntType, x: int, y: int, carry: bool): Stepped {
    var ux, uy, c := UnsignedOf(t, x), UnsignedOf(t, y), BoolBit(carry);
    var r := Wrap128(ux - uy - c);
    Stepped(FromInt128(t, r), ux < Wrap128(uy + c))
  }

  // The number whose limbs these registers are, the lowest first.
  function Number(t: IntType, limbs: seq<int>): nat {
    if limbs == [] then 0 else UnsignedOf(t, limbs[0]) + Pow2(t.bits) * Number(t, limbs[1..])
  }

  datatype Chained = Chained(limbs: seq<int>, carry: bool)

  // One instruction for each pair of limbs, the carry flag going from each to the next.
  function Chain(step: (int, int, bool) -> Stepped, a: seq<int>, b: seq<int>, carry: bool): Chained
    requires |a| == |b|
    decreases |a|
  {
    if a == [] then Chained([], carry)
    else
      var s := step(a[0], b[0], carry);
      var rest := Chain(step, a[1..], b[1..], s.carry);
      Chained([s.value] + rest.limbs, rest.carry)
  }

  function Adder(t: IntType): (int, int, bool) -> Stepped { (x, y, c) => Addc(t, x, y, c) }

  function Subtractor(t: IntType): (int, int, bool) -> Stepped { (x, y, c) => Subb(t, x, y, c) }

  // ---------------------------------------------------------------- one step

  lemma PowersFit(t: IntType)
    requires Narrow(t)
    ensures 2 <= Pow2(t.bits) <= 0x1_0000_0000_0000_0000
  {
    Pow2Monotone(1, t.bits);
    Pow2Monotone(t.bits, 64);
    Pow2Literals();
  }

  lemma ModOf(v: int, p: nat, k: int)
    requires p > 0
    ensures (v + k * p) % p == v % p
  {
    DivModUnique(v + k * p, p, v / p + k, v % p) by {
      assert v == (v / p) * p + v % p;
      assert (v / p + k) * p == (v / p) * p + k * p;
    }
  }

  // A register reads back as the low bits of what was stored.
  lemma StoredReads(t: IntType, v: int)
    ensures UnsignedOf(t, FromInt128(t, v)) == v % Pow2(t.bits)
  {
    var p := Pow2(t.bits);
    var u := v % p;
    ModOf(u, p, -1);
    ModOf(u, p, 0);
    DivModUnique(u, p, 0, u);
  }

  // What is stored in a register of type t: the one number in the range of t that agrees with v in the low bits.
  lemma StoredExactly(t: IntType, v: int, r: int)
    requires t.bits >= 1
    ensures r == FromInt128(t, v) <==>
      && UnsignedOf(t, r) == UnsignedOf(t, v)
      && if t.signed then 0 <= 2 * r + Pow2(t.bits) && 2 * r < Pow2(t.bits) else 0 <= r < Pow2(t.bits)
  {
    StoredReads(t, v);
    var p := Pow2(t.bits);
    if UnsignedOf(t, r) == UnsignedOf(t, v) {
      if 0 <= r < p { DivModUnique(r, p, 0, r); }
      if -p <= r < 0 { DivModUnique(r, p, -1, r + p); }
    }
  }

  lemma AddStep(t: IntType, x: int, y: int, carry: bool)
    requires Narrow(t)
    ensures var s := Addc(t, x, y, carry);
      UnsignedOf(t, s.value) + BoolBit(s.carry) * Pow2(t.bits) == UnsignedOf(t, x) + UnsignedOf(t, y) + BoolBit(carry)
  {
    hide Pow2, FromInt128, UnsignedOf, Wrap128;
    PowersFit(t);
    var p, total := Pow2(t.bits), UnsignedOf(t, x) + UnsignedOf(t, y) + BoolBit(carry);
    StoredReads(t, total);
    Wrap128Small(total);
    if total >= p { DivModUnique(total, p, 1, total - p); } else { DivModUnique(total, p, 0, total); }
  }

  lemma SubStep(t: IntType, x: int, y: int, carry: bool)
    requires Narrow(t)
    ensures var s := Subb(t, x, y, carry);
      UnsignedOf(t, x) + BoolBit(s.carry) * Pow2(t.bits) == UnsignedOf(t, s.value) + UnsignedOf(t, y) + BoolBit(carry)
  {
    hide Pow2, FromInt128, UnsignedOf;
    PowersFit(t);
    var p, less := Pow2(t.bits), UnsignedOf(t, x) - UnsignedOf(t, y) - BoolBit(carry);
    StoredReads(t, Wrap128(less));
    var borrow := BoolBit(less < 0);
    assert Wrap128(UnsignedOf(t, y) + BoolBit(carry)) == UnsignedOf(t, y) + BoolBit(carry);
    assert Wrap128(less) == less + borrow * TWO_TO_128;
    WrapKeepsLow(t, less, borrow);
    DivModUnique(less, p, -borrow, less + borrow * p);
  }

  // 2^128 is a multiple of every narrower power.
  lemma WrapKeepsLow(t: IntType, v: int, k: nat)
    requires Narrow(t)
    ensures (v + k * TWO_TO_128) % Pow2(t.bits) == v % Pow2(t.bits)
  {
    hide Pow2;
    var p, q := Pow2(t.bits), Pow2(128 - t.bits);
    Pow2Add(128 - t.bits, t.bits);
    Pow2Add(64, 64);
    Pow2Literals();
    assert k * TWO_TO_128 == (k * q) * p by { assert TWO_TO_128 == q * p; assert k * (q * p) == (k * q) * p; }
    ModOf(v, p, k * q);
  }

  // ---------------------------------------------------------------- the chains

  lemma {:induction false} NumberFits(t: IntType, limbs: seq<int>)
    ensures Number(t, limbs) < Pow2(t.bits * |limbs|)
    decreases |limbs|
  {
    hide Pow2, UnsignedOf;
    if limbs == [] {
      assert t.bits * 0 == 0;
    } else {
      NumberFits(t, limbs[1..]);
      WiderPower(t, |limbs|);
      FitsUp(Pow2(t.bits), Pow2(t.bits * (|limbs| - 1)), UnsignedOf(t, limbs[0]), Number(t, limbs[1..]));
    }
  }

  lemma FitsUp(p: nat, q: nat, u: nat, x: nat)
    requires u < p && x < q
    ensures u + p * x < p * q
  {
    assert p * (x + 1) <= p * q;
    assert p * (x + 1) == p * x + p;
  }

  lemma WiderPower(t: IntType, n: nat)
    requires n > 0
    ensures Pow2(t.bits * n) == Pow2(t.bits) * Pow2(t.bits * (n - 1))
  {
    hide Pow2;
    assert t.bits * n == t.bits + t.bits * (n - 1);
    Pow2Add(t.bits, t.bits * (n - 1));
  }

  // Carries of the lowest limb and of the other limbs together.
  lemma CarriesMeet(p: int, q: int, u: int, x: int, out: int, y: int, z: int, carry: int, middle: int)
    requires u + middle * p == y + carry && x + out * q == z + middle
    ensures u + p * x + out * (p * q) == y + p * z + carry
  {
    assert p * (x + out * q) == p * x + out * (p * q) by {
      assert p * (x + out * q) == p * x + p * (out * q);
      assert p * (out * q) == out * (p * q);
    }
    assert p * (z + middle) == p * z + middle * p;
  }

  lemma Distribute(p: int, x: int, y: int)
    ensures p * (x + y) == p * x + p * y
  {
  }

  lemma Negated(c: int, p: int)
    ensures (-1 * c) * p == -(c * p)
  {
  }

  lemma {:induction false} AddChain(t: IntType, a: seq<int>, b: seq<int>, carry: bool)
    requires Narrow(t) && |a| == |b|
    ensures var r := Chain(Adder(t), a, b, carry);
      && |r.limbs| == |a|
      && Number(t, r.limbs) + BoolBit(r.carry) * Pow2(t.bits * |a|) == Number(t, a) + Number(t, b) + BoolBit(carry)
    decreases |a|
  {
    hide Pow2, Addc, UnsignedOf;
    if a == [] {
      assert t.bits * 0 == 0;
      assert Pow2(0) == 1 by { ZeroPower(); }
    } else {
      var s := Addc(t, a[0], b[0], carry);
      var rest := Chain(Adder(t), a[1..], b[1..], s.carry);
      AddStep(t, a[0], b[0], carry);
      AddChain(t, a[1..], b[1..], s.carry);
      WiderPower(t, |a|);
      var xa, xb := Number(t, a[1..]), Number(t, b[1..]);
      CarriesMeet(Pow2(t.bits), Pow2(t.bits * (|a| - 1)), UnsignedOf(t, s.value), Number(t, rest.limbs), BoolBit(rest.carry),
                  UnsignedOf(t, a[0]) + UnsignedOf(t, b[0]), xa + xb, BoolBit(carry), BoolBit(s.carry));
      Distribute(Pow2(t.bits), xa, xb);
    }
  }

  lemma ZeroPower()
    ensures Pow2(0) == 1
  {
  }

  lemma {:induction false} SubChain(t: IntType, a: seq<int>, b: seq<int>, carry: bool)
    requires Narrow(t) && |a| == |b|
    ensures var r := Chain(Subtractor(t), a, b, carry);
      && |r.limbs| == |a|
      && Number(t, a) + BoolBit(r.carry) * Pow2(t.bits * |a|) == Number(t, r.limbs) + Number(t, b) + BoolBit(carry)
    decreases |a|
  {
    hide Pow2, Subb, UnsignedOf;
    if a == [] {
      assert t.bits * 0 == 0;
      assert Pow2(0) == 1 by { ZeroPower(); }
    } else {
      var s := Subb(t, a[0], b[0], carry);
      var rest := Chain(Subtractor(t), a[1..], b[1..], s.carry);
      SubStep(t, a[0], b[0], carry);
      SubChain(t, a[1..], b[1..], s.carry);
      WiderPower(t, |a|);
      var xr, xb := Number(t, rest.limbs), Number(t, b[1..]);
      CarriesMeet(Pow2(t.bits), Pow2(t.bits * (|a| - 1)), UnsignedOf(t, a[0]), Number(t, a[1..]), BoolBit(rest.carry),
                  UnsignedOf(t, s.value) + UnsignedOf(t, b[0]), xr + xb, BoolBit(carry), BoolBit(s.carry));
      Distribute(Pow2(t.bits), xr, xb);
    }
  }

  // From a clear carry, n addc instructions add n-limb numbers: the limbs hold the sum modulo 2^(bits * n), and
  // the carry says whether it went over.
  lemma AdditionIsExact(t: IntType, a: seq<int>, b: seq<int>)
    requires Narrow(t) && |a| == |b|
    ensures var r := Chain(Adder(t), a, b, false);
      && Number(t, r.limbs) == (Number(t, a) + Number(t, b)) % Pow2(t.bits * |a|)
      && (r.carry <==> Number(t, a) + Number(t, b) >= Pow2(t.bits * |a|))
  {
    hide Pow2, Number, Chain;
    AddChain(t, a, b, false);
    var r := Chain(Adder(t), a, b, false);
    NumberFits(t, r.limbs);
    DivModUnique(Number(t, a) + Number(t, b), Pow2(t.bits * |a|), BoolBit(r.carry), Number(t, r.limbs));
  }

  // Likewise subb subtracts, and the carry is the borrow.
  lemma SubtractionIsExact(t: IntType, a: seq<int>, b: seq<int>)
    requires Narrow(t) && |a| == |b|
    ensures var r := Chain(Subtractor(t), a, b, false);
      && Number(t, r.limbs) == (Number(t, a) - Number(t, b)) % Pow2(t.bits * |a|)
      && (r.carry <==> Number(t, a) < Number(t, b))
  {
    hide Pow2, Number, Chain;
    SubChain(t, a, b, false);
    var r := Chain(Subtractor(t), a, b, false);
    NumberFits(t, r.limbs);
    var borrow: int := -1 * BoolBit(r.carry);
    Negated(BoolBit(r.carry), Pow2(t.bits * |a|));
    DivModUnique(Number(t, a) - Number(t, b), Pow2(t.bits * |a|), borrow, Number(t, r.limbs));
  }
}
