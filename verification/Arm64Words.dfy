// The instruction words of src/codegen/arm64/encoder.cpp and what they decode to.

module Arm64Words {
  import opened Ast
  import opened Bits
  import opened Arm64Machine

  // ---------------------------------------------------------------- words, as the emit* helpers build them

  function MovWideWord(base: nat, rd: nat, chunk: nat): nat { Or(Or(base, Shl(chunk, 5)), rd) }

  function ImmChunk(imm: UInt64, hw: nat): nat { And(Shr(imm, 16 * hw), 0xFFFF) }

  function LoadImmWords(rd: nat, imm: UInt64): (ws: seq<nat>)
    ensures |ws| == 4
  {
    [MovWideWord(0xD280_0000, rd, ImmChunk(imm, 0)), MovWideWord(0xF2A0_0000, rd, ImmChunk(imm, 1)),
     MovWideWord(0xF2C0_0000, rd, ImmChunk(imm, 2)), MovWideWord(0xF2E0_0000, rd, ImmChunk(imm, 3))]
  }

  function SlotWord(base: nat, rt: nat, slot: UInt32): nat {
    Or(Or(Or(base, Shl((slot * 8 % 0x1_0000_0000) / 8, 10)), Shl(31, 5)), rt)
  }

  function StrSlotWord(rt: nat, slot: UInt32): nat { SlotWord(0xF900_0000, rt, slot) }

  function LdrSlotWord(rt: nat, slot: UInt32): nat { SlotWord(0xF940_0000, rt, slot) }

  function RegWord(base: nat, rd: nat, rn: nat, rm: nat): nat { Or(Or(Or(base, Shl(rm, 16)), Shl(rn, 5)), rd) }

  function AddWord(rd: nat, rn: nat, rm: nat): nat { RegWord(0x8B00_0000, rd, rn, rm) }

  function SubWord(rd: nat, rn: nat, rm: nat): nat { RegWord(0xCB00_0000, rd, rn, rm) }

  function MulWord(rd: nat, rn: nat, rm: nat): nat {
    Or(Or(Or(Or(0x9B00_0000, Shl(rm, 16)), Shl(31, 10)), Shl(rn, 5)), rd)
  }

  function SdivWord(rd: nat, rn: nat, rm: nat): nat { RegWord(0x9AC0_0C00, rd, rn, rm) }

  function CmpWord(rn: nat, rm: nat): nat { Or(Or(0xEB00_001F, Shl(rm, 16)), Shl(rn, 5)) }

  function BCondWord(cond: nat): nat { Or(0x5400_0000, cond) }

  const B_WORD: nat := 0x1400_0000
  const BL_WORD: nat := 0x9400_0000
  const RET_WORD: nat := 0xD65F_03C0
  const STP_WORD: nat := 0xA9BF_7BFD
  const LDP_WORD: nat := 0xA8C1_7BFD
  const SVC_WORD: nat := 0xD400_1001

  function SpAdjustWord(base: nat, frameSize: nat): nat { Or(base, Shl(frameSize, 10)) }

  // patchBranch26 and the call patching of the native linker: C++ division truncates, and the
  // conversion to uint32_t is modulo 2^32.
  function Patch26(word: nat, deltaBytes: int): nat {
    Or(And(word, 0xFC00_0000), And(TruncDiv(deltaBytes, 4) % 0x1_0000_0000, 0x3FF_FFFF))
  }

  function Patch19(word: nat, deltaBytes: int): nat {
    Or(And(word, 0xFF00_001F), Shl(And(TruncDiv(deltaBytes, 4) % 0x1_0000_0000, 0x7_FFFF), 5))
  }

  predicate FitsImm26(d: int) { -0x200_0000 <= d < 0x200_0000 }

  predicate FitsImm19(d: int) { -0x4_0000 <= d < 0x4_0000 }

  // ---------------------------------------------------------------- `|` of fields as a sum

  lemma OrFields(hi: nat, k: nat, p: nat, lo: nat)
    requires p == Pow2(k) && lo < p
    ensures Or(hi * p, lo) == hi * p + lo
  {
    ShlIsMul(hi, k);
    OrDisjoint(hi, k, lo);
  }

  lemma Scales(v: nat)
    ensures Shl(v, 5) == v * 0x20 && Shl(v, 10) == v * 0x400 && Shl(v, 16) == v * 0x1_0000
  {
    Pow2Literals();
    ShlIsMul(v, 5);
    ShlIsMul(v, 10);
    ShlIsMul(v, 16);
  }

  // base | rm << 16 where base may also have bits below 16.
  lemma OrMiddle(hi: nat, rm: nat, lo: nat)
    requires rm < 32 && lo < 0x1_0000
    ensures Or(hi * 0x20_0000 + lo, rm * 0x1_0000) == hi * 0x20_0000 + rm * 0x1_0000 + lo
  {
    hide Or, And, Shl, Shr, Low, Pow2;
    Pow2Literals();
    var top := hi * 32;
    ShlIsMul(top, 16);
    ShlIsMul(rm, 16);
    JoinAt(top, 16, lo);
    JoinAt(rm, 16, 0);
    OrSplit(Shl(top, 16) + lo, Shl(rm, 16), 16);
    OrFields(hi, 5, 32, rm);
    ShlIsMul(top + rm, 16);
    OpZero(lo);
  }

  lemma RegWordSum(op: nat, rd: nat, rn: nat, rm: nat, imm6: nat)
    requires rd < 32 && rn < 32 && rm < 32 && imm6 < 64
    ensures RegWord(op * 0x20_0000 + imm6 * 0x400, rd, rn, rm)
         == op * 0x20_0000 + rm * 0x1_0000 + imm6 * 0x400 + rn * 0x20 + rd
  {
    hide Or, And, Shl, Shr, Low, Pow2;
    Pow2Literals();
    Scales(rm);
    Scales(rn);
    OrMiddle(op, rm, imm6 * 0x400);
    OrFields(op * 0x800 + rm * 64 + imm6, 10, 0x400, rn * 0x20);
    OrFields(op * 0x1_0000 + rm * 0x800 + imm6 * 32 + rn, 5, 0x20, rd);
  }

  lemma SlotWordSum(op: nat, rt: nat, imm12: nat)
    requires rt < 32 && imm12 < 4096
    ensures Or(Or(Or(op * 0x40_0000, Shl(imm12, 10)), Shl(31, 5)), rt) == op * 0x40_0000 + imm12 * 0x400 + 31 * 0x20 + rt
    ensures Or(op * 0x40_0000 + 0x3FF, Shl(imm12, 10)) == op * 0x40_0000 + imm12 * 0x400 + 0x3FF
  {
    hide Or, And, Shl, Shr, Low, Pow2;
    Pow2Literals();
    Scales(imm12);
    Scales(31);
    OrFields(op, 22, 0x40_0000, imm12 * 0x400);
    OrFields(op * 0x1000 + imm12, 10, 0x400, 31 * 0x20);
    OrFields(op * 0x2_0000 + imm12 * 32 + 31, 5, 0x20, rt);
    var top := op * 0x1000;
    ShlIsMul(top, 10);
    ShlIsMul(imm12, 10);
    JoinAt(top, 10, 0x3FF);
    JoinAt(imm12, 10, 0);
    OrSplit(Shl(top, 10) + 0x3FF, Shl(imm12, 10), 10);
    OrFields(op, 12, 0x1000, imm12);
    ShlIsMul(top + imm12, 10);
    OpZero(0x3FF);
  }

  lemma MovWideSum(op: nat, rd: nat, chunk: nat)
    requires rd < 32 && chunk < 0x1_0000
    ensures MovWideWord(op * 0x20_0000, rd, chunk) == op * 0x20_0000 + chunk * 0x20 + rd
  {
    hide Or, And, Shl, Shr, Low, Pow2;
    Pow2Literals();
    Scales(chunk);
    OrFields(op, 21, 0x20_0000, chunk * 0x20);
    OrFields(op * 0x1_0000 + chunk, 5, 0x20, rd);
  }

  // ---------------------------------------------------------------- fields of a sum

  lemma RegFields(op: nat, rm: nat, imm6: nat, rn: nat, rd: nat)
    requires rd < 32 && rn < 32 && rm < 32 && imm6 < 64
    ensures var w := op * 0x20_0000 + rm * 0x1_0000 + imm6 * 0x400 + rn * 0x20 + rd;
      && w % 32 == rd && w / 0x20 % 32 == rn && w / 0x400 % 64 == imm6 && w / 0x400 % 32 == imm6 % 32
      && w / 0x1_0000 % 32 == rm
      && w / 0x20_0000 == op && w / 0x40_0000 == op / 2 && w / 0x80_0000 == op / 4
      && w / 0x100_0000 == op / 8 && w / 0x400_0000 == op / 32
  {
    var w := op * 0x20_0000 + rm * 0x1_0000 + imm6 * 0x400 + rn * 0x20 + rd;
    RegFieldsLow(op * 32 + rm, imm6, rn, rd);
    DivModUnique(op * 32 + rm, 32, op, rm);
    TopFields(w, op, rm * 0x1_0000 + imm6 * 0x400 + rn * 0x20 + rd);
  }

  lemma TopFields(w: nat, op: nat, rest: nat)
    requires w == op * 0x20_0000 + rest && rest < 0x20_0000
    ensures w / 0x20_0000 == op && w / 0x40_0000 == op / 2 && w / 0x80_0000 == op / 4
    ensures w / 0x100_0000 == op / 8 && w / 0x400_0000 == op / 32
  {
    DivModUnique(w, 0x20_0000, op, rest);
    DivModUnique(w, 0x40_0000, op / 2, op % 2 * 0x20_0000 + rest);
    DivModUnique(w, 0x80_0000, op / 4, op % 4 * 0x20_0000 + rest);
    DivModUnique(w, 0x100_0000, op / 8, op % 8 * 0x20_0000 + rest);
    DivModUnique(w, 0x400_0000, op / 32, op % 32 * 0x20_0000 + rest);
  }

  lemma RegFieldsLow(top: nat, imm6: nat, rn: nat, rd: nat)
    requires rd < 32 && rn < 32 && imm6 < 64
    ensures var w := top * 0x1_0000 + imm6 * 0x400 + rn * 0x20 + rd;
      && w % 32 == rd && w / 0x20 % 32 == rn && w / 0x400 % 64 == imm6 && w / 0x400 % 32 == imm6 % 32
      && w / 0x1_0000 == top
  {
    var w := top * 0x1_0000 + imm6 * 0x400 + rn * 0x20 + rd;
    var mid := top * 64 + imm6;
    DivModUnique(w, 0x20, mid * 32 + rn, rd);
    DivModUnique(mid * 32 + rn, 32, mid, rn);
    DivModUnique(w, 0x400, mid, rn * 0x20 + rd);
    DivModUnique(mid, 64, top, imm6);
    DivModUnique(mid, 32, top * 2 + imm6 / 32, imm6 % 32);
    DivModUnique(w, 0x1_0000, top, imm6 * 0x400 + rn * 0x20 + rd);
  }

  lemma SlotFields(op: nat, imm12: nat, rn: nat, rt: nat)
    requires rt < 32 && rn < 32 && imm12 < 4096
    ensures var w := op * 0x40_0000 + imm12 * 0x400 + rn * 0x20 + rt;
      && w % 32 == rt && w / 0x20 % 32 == rn && w / 0x400 % 4096 == imm12
      && w / 0x40_0000 == op && w / 0x80_0000 == op / 2 && w / 0x100_0000 == op / 4 && w / 0x400_0000 == op / 16
  {
    var w := op * 0x40_0000 + imm12 * 0x400 + rn * 0x20 + rt;
    var mid := op * 4096 + imm12;
    DivModUnique(w, 0x20, mid * 32 + rn, rt);
    DivModUnique(mid * 32 + rn, 32, mid, rn);
    DivModUnique(w, 0x400, mid, rn * 0x20 + rt);
    DivModUnique(mid, 4096, op, imm12);
    var rest := imm12 % 2048 * 0x400 + rn * 0x20 + rt;
    TopFields(w, op * 2 + imm12 / 2048, rest);
  }

  lemma MovWideFields(op: nat, hw: nat, chunk: nat, rd: nat)
    requires rd < 32 && chunk < 0x1_0000 && hw < 4
    ensures var w := (op * 4 + hw) * 0x20_0000 + chunk * 0x20 + rd;
      && w % 32 == rd && w / 0x20 % 0x1_0000 == chunk && w / 0x20_0000 % 4 == hw
      && w / 0x80_0000 == op && w / 0x100_0000 == op / 2 && w / 0x400_0000 == op / 8
  {
    var w := (op * 4 + hw) * 0x20_0000 + chunk * 0x20 + rd;
    var mid := (op * 4 + hw) * 0x1_0000 + chunk;
    DivModUnique(w, 0x20, mid, rd);
    DivModUnique(mid, 0x1_0000, op * 4 + hw, chunk);
    TopFields(w, op * 4 + hw, chunk * 0x20 + rd);
  }

  // ---------------------------------------------------------------- decoding an encoded word

  lemma DecodeAdd(rd: nat, rn: nat, rm: nat)
    requires rd < 32 && rn < 32 && rm < 32
    ensures AddWord(rd, rn, rm) < 0x1_0000_0000 && Decode(AddWord(rd, rn, rm)) == Some(AddReg(rd, rn, rm))
  {
    hide Or, And, Shl, Shr, Low, Pow2;
    RegWordSum(0x458, rd, rn, rm, 0);
    RegFields(0x458, rm, 0, rn, rd);
  }

  lemma DecodeSub(rd: nat, rn: nat, rm: nat)
    requires rd < 32 && rn < 32 && rm < 32
    ensures SubWord(rd, rn, rm) < 0x1_0000_0000 && Decode(SubWord(rd, rn, rm)) == Some(SubReg(rd, rn, rm))
  {
    hide Or, And, Shl, Shr, Low, Pow2;
    RegWordSum(0x658, rd, rn, rm, 0);
    RegFields(0x658, rm, 0, rn, rd);
  }

  lemma DecodeSdiv(rd: nat, rn: nat, rm: nat)
    requires rd < 32 && rn < 32 && rm < 32
    ensures SdivWord(rd, rn, rm) < 0x1_0000_0000 && Decode(SdivWord(rd, rn, rm)) == Some(SDiv(rd, rn, rm))
  {
    hide Or, And, Shl, Shr, Low, Pow2;
    RegWordSum(0x4D6, rd, rn, rm, 3);
    RegFields(0x4D6, rm, 3, rn, rd);
  }

  lemma DecodeMul(rd: nat, rn: nat, rm: nat)
    requires rd < 32 && rn < 32 && rm < 32
    ensures MulWord(rd, rn, rm) < 0x1_0000_0000 && Decode(MulWord(rd, rn, rm)) == Some(MAdd(rd, rn, rm, 31))
  {
    hide Or, And, Shl, Shr, Low, Pow2;
    Pow2Literals();
    Scales(rm);
    Scales(31);
    Scales(rn);
    OrMiddle(0x4D8, rm, 0);
    OrFields(0x4D8 * 32 + rm, 16, 0x1_0000, 31 * 0x400);
    OrFields((0x4D8 * 32 + rm) * 64 + 31, 10, 0x400, rn * 0x20);
    OrFields(((0x4D8 * 32 + rm) * 64 + 31) * 32 + rn, 5, 0x20, rd);
    RegFields(0x4D8, rm, 31, rn, rd);
  }

  lemma DecodeCmp(rn: nat, rm: nat)
    requires rn < 32 && rm < 32
    ensures CmpWord(rn, rm) < 0x1_0000_0000 && Decode(CmpWord(rn, rm)) == Some(SubsReg(31, rn, rm))
  {
    hide Or, And, Shl, Shr, Low, Pow2;
    Pow2Literals();
    Scales(rm);
    Scales(rn);
    OrMiddle(0x758, rm, 31);
    var top := 0x758 * 0x1_0000 + rm * 0x800;
    ShlIsMul(top, 5);
    ShlIsMul(rn, 5);
    JoinAt(top, 5, 31);
    JoinAt(rn, 5, 0);
    OrSplit(Shl(top, 5) + 31, Shl(rn, 5), 5);
    OrFields(0x758 * 64 + rm * 2, 10, 0x400, rn);
    ShlIsMul(top + rn, 5);
    OpZero(31);
    RegFields(0x758, rm, 0, rn, 31);
  }

  lemma DecodeSlot(rt: nat, slot: UInt32)
    requires rt < 32 && slot < 4096
    ensures StrSlotWord(rt, slot) < 0x1_0000_0000 && Decode(StrSlotWord(rt, slot)) == Some(StrImm(rt, 31, slot))
    ensures LdrSlotWord(rt, slot) < 0x1_0000_0000 && Decode(LdrSlotWord(rt, slot)) == Some(LdrImm(rt, 31, slot))
  {
    hide Or, And, Shl, Shr, Low, Pow2;
    SlotWordSum(0x3E4, rt, slot);
    SlotFields(0x3E4, slot, 31, rt);
    SlotWordSum(0x3E5, rt, slot);
    SlotFields(0x3E5, slot, 31, rt);
  }

  lemma DecodeSpAdjust(frameSize: nat)
    requires frameSize < 4096
    ensures SpAdjustWord(0xD100_03FF, frameSize) < 0x1_0000_0000
    ensures Decode(SpAdjustWord(0xD100_03FF, frameSize)) == Some(SubImm(31, 31, frameSize))
    ensures SpAdjustWord(0x9100_03FF, frameSize) < 0x1_0000_0000
    ensures Decode(SpAdjustWord(0x9100_03FF, frameSize)) == Some(AddImm(31, 31, frameSize))
  {
    hide Or, And, Shl, Shr, Low, Pow2;
    SlotWordSum(0x344, 0, frameSize);
    SlotFields(0x344, frameSize, 31, 31);
    SlotWordSum(0x244, 0, frameSize);
    SlotFields(0x244, frameSize, 31, 31);
  }

  lemma ChunkValue(imm: UInt64, hw: nat)
    requires hw < 4
    ensures ImmChunk(imm, hw) < 0x1_0000
    ensures hw == 0 ==> ImmChunk(imm, hw) == imm % 0x1_0000
    ensures hw == 1 ==> ImmChunk(imm, hw) == imm / 0x1_0000 % 0x1_0000
    ensures hw == 2 ==> ImmChunk(imm, hw) == imm / 0x1_0000_0000 % 0x1_0000
    ensures hw == 3 ==> ImmChunk(imm, hw) == imm / 0x1_0000_0000_0000
  {
    hide Or, And, Low;
    Pow2Literals();
    Pow2Add(32, 16);
    var s := Shr(imm, 16 * hw);
    AndLowMask(s, 16);
    ShrLowAreDivMod(s, 16);
    ShrLowAreDivMod(imm, 16 * hw);
    assert hw == 0 ==> s == imm;
  }

  lemma DecodeLoadImm(rd: nat, imm: UInt64, i: nat)
    requires rd < 32 && i < 4
    ensures LoadImmWords(rd, imm)[i] < 0x1_0000_0000
    ensures Decode(LoadImmWords(rd, imm)[i])
         == Some(if i == 0 then MovZ(rd, ImmChunk(imm, 0), 0) else MovK(rd, ImmChunk(imm, i), i))
  {
    hide Or, And, Shl, Shr, Low, Pow2;
    var chunk := ImmChunk(imm, i);
    ChunkValue(imm, i);
    var op := if i == 0 then 0x1A5 else 0x1E5;
    MovWideSum(op * 4 + i, rd, chunk);
    MovWideFields(op, i, chunk, rd);
  }

  lemma DecodeFixed()
    ensures Decode(RET_WORD) == Some(Ret(30))
    ensures Decode(STP_WORD) == Some(StpPre(29, 30, 31, -2))
    ensures Decode(LDP_WORD) == Some(LdpPost(29, 30, 31, 2))
    ensures Decode(SVC_WORD) == None
  {
  }

  // ---------------------------------------------------------------- patched branches

  lemma TruncMod(d: int, n: nat)
    requires n == 0x400_0000 || n == 0x8_0000
    ensures TruncDiv(4 * d, 4) == d
    ensures (d % 0x1_0000_0000) % n == d % n
  {
    assert Abs(4 * d) == 4 * Abs(d);
    var u := d % 0x1_0000_0000;
    var q := d / 0x1_0000_0000;
    if n == 0x400_0000 {
      DivModUnique(d, 0x400_0000, q * 64 + u / 0x400_0000, u % 0x400_0000);
    } else {
      DivModUnique(d, 0x8_0000, q * 0x2000 + u / 0x8_0000, u % 0x8_0000);
    }
  }

  // A word whose displacement field is patched keeps its opcode bits.
  lemma Patch26Sum(op: nat, field: nat, d: int)
    requires field < 0x400_0000 && op < 64
    ensures Patch26(op * 0x400_0000 + field, 4 * d) == op * 0x400_0000 + d % 0x400_0000
  {
    hide Or, And, Shl, Shr, Low, Pow2;
    Pow2Literals();
    var word := op * 0x400_0000 + field;
    TruncMod(d, 0x400_0000);
    var u := d % 0x1_0000_0000;
    AndLowMask(u, 26);
    ShrLowAreDivMod(u, 26);
    ShlIsMul(op, 26);
    JoinAt(op, 26, field);
    ShlIsMul(63, 26);
    JoinAt(63, 26, 0);
    AndSplit(word, Shl(63, 26), 26);
    AndLowMask(op, 6);
    ShrLowAreDivMod(op, 6);
    OpZero(field);
    OrFields(op, 26, 0x400_0000, d % 0x400_0000);
  }

  lemma Patch19Sum(field: nat, cond: nat, d: int)
    requires field < 0x8_0000 && cond < 32
    ensures Patch19(0x54 * 0x100_0000 + field * 0x20 + cond, 4 * d) == 0x54 * 0x100_0000 + (d % 0x8_0000) * 0x20 + cond
  {
    hide Or, And, Shl, Shr, Low, Pow2;
    Pow2Literals();
    TruncMod(d, 0x8_0000);
    var u := d % 0x1_0000_0000;
    AndLowMask(u, 19);
    ShrLowAreDivMod(u, 19);
    KeepCondition(field, cond);
    var v := d % 0x8_0000;
    Scales(v);
    // Or(0x54000000 + cond, v << 5)
    var top := 0x54 * 0x8_0000;
    ShlIsMul(top, 5);
    ShlIsMul(v, 5);
    JoinAt(top, 5, cond);
    JoinAt(v, 5, 0);
    OrSplit(Shl(top, 5) + cond, Shl(v, 5), 5);
    OrFields(0x54, 19, 0x8_0000, v);
    ShlIsMul(top + v, 5);
    OpZero(cond);
  }

  lemma KeepCondition(field: nat, cond: nat)
    requires field < 0x8_0000 && cond < 32
    ensures And(0x54 * 0x100_0000 + field * 0x20 + cond, 0xFF00_001F) == 0x54 * 0x100_0000 + cond
  {
    hide Or, And, Shl, Shr, Low, Pow2;
    Pow2Literals();
    var a := 0x54 * 0x100_0000 + field * 0x20 + cond;
    var low := field * 0x20 + cond;
    ShlIsMul(0x54, 24);
    ShlIsMul(0xFF, 24);
    JoinAt(0x54, 24, low);
    JoinAt(0xFF, 24, 0x1F);
    AndSplit(a, 0xFF00_001F, 24);
    AndLowMask(0x54, 8);
    ShrLowAreDivMod(0x54, 8);
    ShlIsMul(0x54, 24);
    AndLowMask(low, 5);
    ShrLowAreDivMod(low, 5);
  }

  lemma SignExtendMod(d: int, n: nat)
    requires n == 0x400_0000 || n == 0x8_0000
    ensures SignExtend(d % n, n) == d <==> 0 <= 2 * d + n < 2 * n
  {
  }

  // A patched branch decodes to its displacement exactly when the displacement fits the field.
  lemma DecodePatch26(call: bool, field: nat, d: int)
    requires field < 0x400_0000
    ensures var w := Patch26((if call then BL_WORD else B_WORD) + field, 4 * d);
      && w < 0x1_0000_0000
      && (Decode(w) == Some(if call then BL(d) else B(d)) <==> FitsImm26(d))
  {
    hide Or, And, Shl, Shr, Low, Pow2;
    var op := if call then 0x25 else 0x05;
    Patch26Sum(op, field, d);
    SignExtendMod(d, 0x400_0000);
    var w := op * 0x400_0000 + d % 0x400_0000;
    assert w / 0x400_0000 == op && w % 0x400_0000 == d % 0x400_0000;
  }

  lemma DecodePatch19(cond: nat, d: int)
    requires cond < 16
    ensures BCondWord(cond) < 0x1_0000_0000
    ensures var w := Patch19(BCondWord(cond), 4 * d);
      && w < 0x1_0000_0000
      && (Decode(w) == Some(BCond(cond, d)) <==> FitsImm19(d))
  {
    hide Or, And, Shl, Shr, Low, Pow2;
    Pow2Literals();
    OrFields(0x54 * 0x8_0000, 5, 0x20, cond);
    Patch19Sum(0, cond, d);
    SignExtendMod(d, 0x8_0000);
    BCondFields(d % 0x8_0000, cond);
  }

  lemma BCondFields(v: nat, cond: nat)
    requires v < 0x8_0000 && cond < 16
    ensures var w := 0x54 * 0x100_0000 + v * 0x20 + cond;
      w / 0x100_0000 == 0x54 && w / 0x400_0000 == 0x15 && w / 16 % 2 == 0 && w % 16 == cond && w / 0x20 % 0x8_0000 == v
  {
  }

  // ---------------------------------------------------------------- bytes

  // emit32: byte number i of a word, low byte first.
  function ByteOf(word: nat, i: nat): Byte {
    var b := And(Shr(word, 8 * i), 0xFF);
    assert b < 0x100 by {
      AndLowMask(Shr(word, 8 * i), 8);
      SplitAt(Shr(word, 8 * i), 8);
      Pow2Literals();
    }
    b
  }

  function Le32(word: nat): (b: seq<Byte>)
    ensures |b| == 4
  {
    [ByteOf(word, 0), ByteOf(word, 1), ByteOf(word, 2), ByteOf(word, 3)]
  }

  lemma ByteValue(word: nat, i: nat)
    ensures ByteOf(word, i) == word / Pow2(8 * i) % 0x100
  {
    hide Or, And, Shl, Shr, Low, Pow2;
    Pow2Literals();
    AndLowMask(Shr(word, 8 * i), 8);
    ShrLowAreDivMod(Shr(word, 8 * i), 8);
    ShrLowAreDivMod(word, 8 * i);
  }

  lemma ByteLiterals(word: nat)
    ensures ByteOf(word, 0) == word % 0x100 && ByteOf(word, 1) == word / 0x100 % 0x100
    ensures ByteOf(word, 2) == word / 0x1_0000 % 0x100 && ByteOf(word, 3) == word / 0x100_0000 % 0x100
  {
    hide And, Shr, ByteOf;
    Pow2Literals();
    ByteValue(word, 0);
    ByteValue(word, 1);
    ByteValue(word, 2);
    ByteValue(word, 3);
    assert Pow2(0) == 1;
  }

  // The bytes of a word keep its low 32 bits.
  lemma FetchLe32(word: nat)
    ensures FetchWord(Le32(word), 0) == word % 0x1_0000_0000
  {
    hide ByteOf;
    ByteLiterals(word);
    FourBytes(word);
  }

  lemma FourBytes(word: nat)
    ensures word % 0x1_0000_0000 == word % 0x100 + 0x100 * (word / 0x100 % 0x100) + 0x1_0000 * (word / 0x1_0000 % 0x100)
                                  + 0x100_0000 * (word / 0x100_0000 % 0x100)
  {
    var q1 := word / 0x100;
    var q2 := q1 / 0x100;
    var q3 := q2 / 0x100;
    DivModUnique(word, 0x1_0000, q2, q1 % 0x100 * 0x100 + word % 0x100);
    DivModUnique(word, 0x100_0000, q3, q2 % 0x100 * 0x1_0000 + q1 % 0x100 * 0x100 + word % 0x100);
    DivModUnique(word, 0x1_0000_0000, q3 / 0x100,
                 q3 % 0x100 * 0x100_0000 + q2 % 0x100 * 0x1_0000 + q1 % 0x100 * 0x100 + word % 0x100);
  }

  function Bytes(ws: seq<nat>): (b: seq<Byte>)
    ensures |b| == 4 * |ws|
  {
    seq(4 * |ws|, i requires 0 <= i < 4 * |ws| => Le32(ws[i / 4])[i % 4])
  }

  lemma BytesAppend(a: seq<nat>, b: seq<nat>)
    ensures Bytes(a + b) == Bytes(a) + Bytes(b)
  {
    var both := Bytes(a) + Bytes(b);
    hide Bytes;
    forall i | 0 <= i < |both| ensures Bytes(a + b)[i] == both[i] { JoinedByte(a, b, i); }
  }

  lemma JoinedByte(a: seq<nat>, b: seq<nat>, i: nat)
    requires i < 4 * |a| + 4 * |b|
    ensures Bytes(a + b)[i] == (Bytes(a) + Bytes(b))[i]
  {
    hide Bytes, Le32;
    ByteIs(a + b, i);
    if i < 4 * |a| {
      ByteIs(a, i);
    } else {
      ByteIs(b, i - 4 * |a|);
      WordsSkipped(i, |a|);
    }
  }

  lemma ByteIs(ws: seq<nat>, i: nat)
    requires i < 4 * |ws|
    ensures Bytes(ws)[i] == Le32(ws[i / 4])[i % 4]
  {
    hide Le32;
  }

  lemma WordsSkipped(i: nat, n: nat)
    requires i >= 4 * n
    ensures (i - 4 * n) / 4 == i / 4 - n && (i - 4 * n) % 4 == i % 4
  {
  }

  lemma BytesAt(ws: seq<nat>, k: nat)
    requires k < |ws|
    ensures Bytes(ws)[4 * k..4 * k + 4] == Le32(ws[k])
  {
    var s := Bytes(ws);
    forall j | 0 <= j < 4 ensures s[4 * k + j] == Le32(ws[k])[j] {
      assert (4 * k + j) / 4 == k && (4 * k + j) % 4 == j;
    }
  }

  lemma FetchBytes(ws: seq<nat>, k: nat)
    requires k < |ws|
    ensures FetchWord(Bytes(ws), 4 * k) == ws[k] % 0x1_0000_0000
  {
    BytesAt(ws, k);
    FetchLe32(ws[k]);
    var s := Bytes(ws);
    var four := s[4 * k..4 * k + 4];
    assert four[0] == s[4 * k] && four[1] == s[4 * k + 1] && four[2] == s[4 * k + 2] && four[3] == s[4 * k + 3];
  }

  // Overwriting four bytes at a word boundary replaces one word.
  function Overwrite(code: seq<Byte>, at: nat, word: nat): (r: seq<Byte>)
    requires at + 4 <= |code|
    ensures |r| == |code|
  {
    code[..at] + Le32(word) + code[at + 4..]
  }

  lemma OverwriteBytes(ws: seq<nat>, k: nat, word: nat)
    requires k < |ws|
    ensures Overwrite(Bytes(ws), 4 * k, word) == Bytes(ws[k := word])
  {
    var l := Overwrite(Bytes(ws), 4 * k, word);
    var r := Bytes(ws[k := word]);
    forall i | 0 <= i < |l| ensures l[i] == r[i] {
      if i / 4 == k {
        assert i == 4 * k + i % 4;
      }
    }
  }
}
