// 64-bit arithmetic and comparison agree between the interpreter and the machine.

module NativeArith {
  import opened Ast
  import opened Bits
  import opened Arm64Machine
  import opened Arm64Encoder
  import opened NativeEffects
  import I = Interpreter

  lemma ModShift(a: int, k: int, p: nat)
    requires p > 0
    ensures (a + k * p) % p == a % p
  {
    var d := a / p;
    assert a + k * p == (d + k) * p + a % p;
    DivModUnique(a + k * p, p, d + k, a % p);
  }

  lemma UnsignedShift(v: int, k: int)
    ensures Unsigned(v + k * TWO64) == Unsigned(v)
  {
    ModShift(v, k, TWO64);
  }

  lemma UnsignedIs(v: int)
    ensures v == Unsigned(v) + (v / TWO64) * TWO64
  {
  }

  lemma UnsignedWrap(v: int)
    ensures Unsigned(I.WrapI64(v)) == Unsigned(v)
    ensures Signed(Unsigned(v)) == I.WrapI64(v)
  {
    UnsignedShift(Unsigned(v), -1);
    DivModUnique(Unsigned(v), TWO64, 0, Unsigned(v));
  }

  lemma SignedUnsigned(x: Int64)
    ensures Signed(Unsigned(x)) == x
  {
    if x >= 0 { DivModUnique(x, TWO64, 0, x); } else { DivModUnique(x, TWO64, -1, x + TWO64); }
  }

  lemma SumAgrees(x: int, y: int)
    ensures Unsigned(Unsigned(x) + Unsigned(y)) == Unsigned(x + y)
    ensures Unsigned(Unsigned(x) - Unsigned(y)) == Unsigned(x - y)
  {
    hide Unsigned;
    UnsignedIs(x);
    UnsignedIs(y);
    var kx, ky := x / TWO64, y / TWO64;
    UnsignedShift(Unsigned(x) + Unsigned(y), kx + ky);
    UnsignedShift(Unsigned(x) - Unsigned(y), kx - ky);
  }

  lemma ExpandProduct(a: int, b: int, j: int, k: int, m: int)
    ensures (a + j * m) * (b + k * m) == a * b + (a * k + j * b + j * k * m) * m
  {
    var u, v := j * m, k * m;
    assert (a + u) * (b + v) == a * b + a * v + u * b + u * v;
    assert a * v == (a * k) * m;
    assert u * b == (j * b) * m;
    assert u * v == (j * k * m) * m;
  }

  lemma ProductAgrees(x: int, y: int)
    ensures WrapMul(Unsigned(x), Unsigned(y)) == Unsigned(x * y)
  {
    hide Unsigned;
    UnsignedIs(x);
    UnsignedIs(y);
    var kx, ky := x / TWO64, y / TWO64;
    var a: int, b: int := Unsigned(x), Unsigned(y);
    ExpandProduct(a, b, kx, ky, TWO64);
    UnsignedShift(a * b, a * ky + kx * b + kx * ky * TWO64);
  }

  // Where the interpreter computes a value, the machine computes the same 64 bits.
  lemma ArithAgrees(op: UInt16, x: Int64, y: Int64)
    requires IsArith(op) && I.Arith(op, x, y).Some?
    ensures I.Arith(op, x, y).value.ty == I64
    ensures MachineArith(op, Unsigned(x), Unsigned(y)) == Unsigned(I.Arith(op, x, y).value.n)
  {
    hide Unsigned, TruncDiv, I.WrapI64, WrapMul, Signed;
    if op == ADD || op == SUB {
      SumAgrees(x, y);
      UnsignedWrap(x + y);
      UnsignedWrap(x - y);
    } else if op == MUL {
      ProductAgrees(x, y);
      UnsignedWrap(x * y);
    } else {
      SignedUnsigned(x);
      SignedUnsigned(y);
      UnsignedWrap(TruncDiv(x, y));
    }
  }

  // ---------------------------------------------------------------- flags

  ghost predicate FlagsMatch(f: Flags, cmpFlag: int) {
    f.z == (cmpFlag == 0) && (f.n != f.v) == (cmpFlag < 0)
  }

  lemma CompareAgrees(x: Int64, y: Int64)
    ensures FlagsMatch(SubFlags(Unsigned(x), Unsigned(y)), I.Compare(x, y))
  {
    var r := Unsigned(Unsigned(x) - Unsigned(y));
    SumAgrees(x, y);
    UnsignedWrap(x - y);
    SignedUnsigned(x);
    SignedUnsigned(y);
    WrapOfDifference(x, y);
    assert r == Unsigned(x - y);
  }

  // The wrapped difference of two i64 values, by where the true difference lies.
  lemma WrapOfDifference(x: Int64, y: Int64)
    ensures I.WrapI64(x - y) ==
      if x - y >= TWO63 then x - y - TWO64 else if x - y < -TWO63 then x - y + TWO64 else x - y
    ensures Unsigned(x - y) == 0 <==> x == y
    ensures Unsigned(x - y) >= TWO63 <==> I.WrapI64(x - y) < 0
  {
    var d := x - y;
    if d >= 0 { DivModUnique(d, TWO64, 0, d); } else { DivModUnique(d, TWO64, -1, d + TWO64); }
  }

  lemma BranchAgrees(op: UInt16, f: Flags, cmpFlag: int)
    requires IsConditional(op) && FlagsMatch(f, cmpFlag)
    ensures Holds(CondCode(op), f) == I.ShouldBranch(op, cmpFlag)
  {
  }
}
