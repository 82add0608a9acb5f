// The part of the A64 machine that the generated code uses: an instruction decoder and a step
// function, after the Arm Architecture Reference Manual (DDI 0487), sections C6.2 and C1.2.4.
//
// Registers are unsigned 64-bit words. The stack is word memory addressed by multiples of 8, and
// an access through SP needs SP to be a multiple of 16. Words outside this subset do not decode,
// and a machine that fetches one is stuck.

module Arm64Machine {
  import opened Ast

  datatype MInstr =
    | MovZ(rd: nat, imm16: nat, hw: nat)
    | MovK(rd: nat, imm16: nat, hw: nat)
    | StrImm(rt: nat, rn: nat, imm12: nat)
    | LdrImm(rt: nat, rn: nat, imm12: nat)
    | AddReg(rd: nat, rn: nat, rm: nat)
    | SubReg(rd: nat, rn: nat, rm: nat)
    | SubsReg(rd: nat, rn: nat, rm: nat)
    | MAdd(rd: nat, rn: nat, rm: nat, ra: nat)
    | SDiv(rd: nat, rn: nat, rm: nat)
    | AddImm(rd: nat, rn: nat, imm12: nat)
    | SubImm(rd: nat, rn: nat, imm12: nat)
    | StpPre(rt: nat, rt2: nat, rn: nat, imm7: int)
    | LdpPost(rt: nat, rt2: nat, rn: nat, imm7: int)
    | B(disp: int)
    | BL(disp: int)
    | BCond(cond: nat, disp: int)
    | Ret(rn: nat)

  // The value of an n-bit two's complement field, given 2^n.
  function SignExtend(v: nat, range: nat): int {
    if 2 * v >= range then v - range else v
  }

  function Decode(w: nat): Option<MInstr> {
    var rd, rn, ra, rm := w % 32, w / 0x20 % 32, w / 0x400 % 32, w / 0x1_0000 % 32;
    var imm6, imm12, imm16 := w / 0x400 % 64, w / 0x400 % 4096, w / 0x20 % 0x1_0000;
    var top11, top10, top9, top8, top6 := w / 0x20_0000, w / 0x40_0000, w / 0x80_0000, w / 0x100_0000, w / 0x400_0000;
    if top6 == 0x05 then Some(B(SignExtend(w % 0x400_0000, 0x400_0000)))
    else if top6 == 0x25 then Some(BL(SignExtend(w % 0x400_0000, 0x400_0000)))
    else if top8 == 0x54 && w / 16 % 2 == 0 then Some(BCond(w % 16, SignExtend(w / 0x20 % 0x8_0000, 0x8_0000)))
    else if top9 == 0x1A5 then Some(MovZ(rd, imm16, w / 0x20_0000 % 4))
    else if top9 == 0x1E5 then Some(MovK(rd, imm16, w / 0x20_0000 % 4))
    else if top10 == 0x3E4 then Some(StrImm(rd, rn, imm12))
    else if top10 == 0x3E5 then Some(LdrImm(rd, rn, imm12))
    else if top10 == 0x244 then Some(AddImm(rd, rn, imm12))
    else if top10 == 0x344 then Some(SubImm(rd, rn, imm12))
    else if top10 == 0x2A6 then Some(StpPre(rd, ra, rn, SignExtend(w / 0x8000 % 128, 128)))
    else if top10 == 0x2A3 then Some(LdpPost(rd, ra, rn, SignExtend(w / 0x8000 % 128, 128)))
    else if top11 == 0x458 && imm6 == 0 then Some(AddReg(rd, rn, rm))
    else if top11 == 0x658 && imm6 == 0 then Some(SubReg(rd, rn, rm))
    else if top11 == 0x758 && imm6 == 0 then Some(SubsReg(rd, rn, rm))
    else if top11 == 0x4D8 && imm6 < 32 then Some(MAdd(rd, rn, rm, ra))
    else if top11 == 0x4D6 && imm6 == 3 then Some(SDiv(rd, rn, rm))
    else if w / 0x400 == 0x3597C0 && rd == 0 then Some(Ret(rn))
    else None
  }

  // ---------------------------------------------------------------- machine state

  datatype Flags = Flags(n: bool, z: bool, c: bool, v: bool)

  // x holds X0..X30; memory words that were never stored hold some fixed value, here 0.
  datatype State = State(x: seq<UInt64>, sp: int, mem: map<int, UInt64>, flags: Flags, pc: int)

  predicate WellFormed(s: State) { |s.x| == 31 }

  function Load(mem: map<int, UInt64>, a: int): UInt64 { if a in mem then mem[a] else 0 }

  // Register 31 is the zero register here.
  function X(s: State, r: nat): UInt64
    requires WellFormed(s) && r < 32
  {
    if r == 31 then 0 else s.x[r]
  }

  function SetX(s: State, r: nat, v: UInt64): (t: State)
    requires WellFormed(s) && r < 32
    ensures WellFormed(t)
  {
    if r == 31 then s else s.(x := s.x[r := v])
  }

  function Unsigned(v: int): UInt64 { v % TWO64 }

  function WrapMul(a: UInt64, b: UInt64): UInt64 { Unsigned(a * b) }

  // Division truncating toward zero, as C++ and SDIV have it.
  function TruncDiv(x: int, y: int): int
    requires y != 0
  {
    var q := Abs(x) / Abs(y);
    if (x < 0) == (y < 0) then q else -q
  }

  function Abs(x: int): (r: nat)
    ensures r == 0 <==> x == 0
  {
    if x < 0 then -x else x
  }

  // SDIV: division by zero gives zero.
  function SignedQuotient(a: UInt64, b: UInt64): UInt64 {
    if Signed(b) == 0 then 0 else Unsigned(TruncDiv(Signed(a), Signed(b)))
  }

  function SubFlags(a: UInt64, b: UInt64): Flags {
    var r := Unsigned(a - b);
    Flags(r >= TWO63, r == 0, a >= b, Signed(r) != Signed(a) - Signed(b))
  }

  // ConditionHolds of section C1.2.4
  predicate Holds(cond: nat, f: Flags)
    requires cond < 16
  {
    var base :=
      match cond / 2
      case 0 => f.z
      case 1 => f.c
      case 2 => f.n
      case 3 => f.v
      case 4 => f.c && !f.z
      case 5 => f.n == f.v
      case 6 => f.n == f.v && !f.z
      case _ => true;
    if cond % 2 == 1 && cond != 15 then !base else base
  }

  function ReplaceChunk(v: UInt64, imm16: nat, hw: nat): UInt64
    requires imm16 < 0x1_0000 && hw < 4
  {
    match hw
    case 0 => Unsigned(v - v % 0x1_0000 + imm16)
    case 1 => Unsigned(v - v % 0x1_0000_0000 + imm16 * 0x1_0000 + v % 0x1_0000)
    case 2 => Unsigned(v - v % 0x1_0000_0000_0000 + imm16 * 0x1_0000_0000 + v % 0x1_0000_0000)
    case _ => Unsigned(imm16 * 0x1_0000_0000_0000 + v % 0x1_0000_0000_0000)
  }

  predicate SpAccess(s: State, rn: nat) { rn == 31 && s.sp % 16 == 0 }

  predicate InRange(i: MInstr) {
    match i
    case MovZ(rd, imm, hw) => rd < 32 && imm < 0x1_0000 && hw < 4
    case MovK(rd, imm, hw) => rd < 32 && imm < 0x1_0000 && hw < 4
    case StrImm(rt, _, _) => rt < 32
    case LdrImm(rt, _, _) => rt < 32
    case AddReg(rd, rn, rm) => rd < 32 && rn < 32 && rm < 32
    case SubReg(rd, rn, rm) => rd < 32 && rn < 32 && rm < 32
    case SubsReg(rd, rn, rm) => rd < 32 && rn < 32 && rm < 32
    case MAdd(rd, rn, rm, ra) => rd < 32 && rn < 32 && rm < 32 && ra < 32
    case SDiv(rd, rn, rm) => rd < 32 && rn < 32 && rm < 32
    case StpPre(rt, rt2, _, _) => rt < 32 && rt2 < 32
    case LdpPost(rt, rt2, _, _) => rt < 32 && rt2 < 32
    case BCond(cond, _) => cond < 16
    case Ret(rn) => rn < 32
    case _ => true
  }

  // Every decoded instruction has its fields in range.
  lemma DecodeInRange(w: nat)
    ensures Decode(w).Some? ==> InRange(Decode(w).value)
  {
    hide SignExtend;
    FieldsInRange(w);
  }

  lemma FieldsInRange(w: nat)
    ensures w % 32 < 32 && w / 0x20 % 32 < 32 && w / 0x400 % 32 < 32 && w / 0x1_0000 % 32 < 32
    ensures w % 16 < 16 && w / 0x20 % 0x1_0000 < 0x1_0000 && w / 0x20_0000 % 4 < 4
  {
  }

  function Next(s: State): State { s.(pc := s.pc + 4) }

  // The effect of one instruction; None when the access is outside the modelled subset.
  function Execute(i: MInstr, s: State): (r: Option<State>)
    requires WellFormed(s) && InRange(i)
    ensures r.Some? ==> WellFormed(r.value)
  {
    match i
    case MovZ(rd, imm, hw) => Some(Next(SetX(s, rd, ReplaceChunk(0, imm, hw))))
    case MovK(rd, imm, hw) => Some(Next(SetX(s, rd, ReplaceChunk(X(s, rd), imm, hw))))
    case StrImm(rt, rn, imm) =>
      if SpAccess(s, rn) then Some(Next(s.(mem := s.mem[s.sp + 8 * imm := X(s, rt)]))) else None
    case LdrImm(rt, rn, imm) =>
      if SpAccess(s, rn) then Some(Next(SetX(s, rt, Load(s.mem, s.sp + 8 * imm)))) else None
    case AddReg(rd, rn, rm) => Some(Next(SetX(s, rd, Unsigned(X(s, rn) + X(s, rm)))))
    case SubReg(rd, rn, rm) => Some(Next(SetX(s, rd, Unsigned(X(s, rn) - X(s, rm)))))
    case SubsReg(rd, rn, rm) =>
      Some(Next(SetX(s, rd, Unsigned(X(s, rn) - X(s, rm))).(flags := SubFlags(X(s, rn), X(s, rm)))))
    case MAdd(rd, rn, rm, ra) => Some(Next(SetX(s, rd, Unsigned(X(s, ra) + WrapMul(X(s, rn), X(s, rm))))))
    case SDiv(rd, rn, rm) =>
      Some(Next(SetX(s, rd, SignedQuotient(X(s, rn), X(s, rm)))))
    case AddImm(rd, rn, imm) =>
      if rd == 31 && rn == 31 then Some(Next(s.(sp := s.sp + imm))) else None
    case SubImm(rd, rn, imm) =>
      if rd == 31 && rn == 31 then Some(Next(s.(sp := s.sp - imm))) else None
    case StpPre(rt, rt2, rn, imm7) =>
      if SpAccess(s, rn) then
        var a := s.sp + 8 * imm7;
        Some(Next(s.(sp := a, mem := s.mem[a := X(s, rt)][a + 8 := X(s, rt2)])))
      else None
    case LdpPost(rt, rt2, rn, imm7) =>
      if SpAccess(s, rn) && rt != rt2 then
        Some(Next(SetX(SetX(s, rt, Load(s.mem, s.sp)), rt2, Load(s.mem, s.sp + 8)).(sp := s.sp + 8 * imm7)))
      else None
    case B(disp) => Some(s.(pc := s.pc + 4 * disp))
    case BL(disp) =>
      if 0 <= s.pc + 4 < TWO64 then Some(SetX(s, 30, s.pc + 4).(pc := s.pc + 4 * disp)) else None
    case BCond(cond, disp) => Some(if Holds(cond, s.flags) then s.(pc := s.pc + 4 * disp) else Next(s))
    case Ret(rn) => Some(s.(pc := X(s, rn)))
  }

  // The little-endian word at a byte offset of the code.
  function FetchWord(code: seq<Byte>, at: int): nat
    requires 0 <= at && at + 4 <= |code|
  {
    var b0: int, b1: int, b2: int, b3: int := code[at], code[at + 1], code[at + 2], code[at + 3];
    b0 + 0x100 * b1 + 0x1_0000 * b2 + 0x100_0000 * b3
  }

  function Fetch(code: seq<Byte>, at: int): Option<MInstr> {
    if 0 <= at && at + 4 <= |code| then Decode(FetchWord(code, at)) else None
  }

  function Step(code: seq<Byte>, s: State): (r: Option<State>)
    requires WellFormed(s)
    ensures r.Some? ==> WellFormed(r.value)
  {
    var i := Fetch(code, s.pc);
    if i.None? then None
    else
      assert InRange(i.value) by { DecodeInRange(FetchWord(code, s.pc)); }
      Execute(i.value, s)
  }

  function Run(code: seq<Byte>, s: State, n: nat): (r: Option<State>)
    requires WellFormed(s)
    ensures r.Some? ==> WellFormed(r.value)
    decreases n
  {
    if n == 0 then Some(s)
    else
      var t := Step(code, s);
      if t.None? then None else Run(code, t.value, n - 1)
  }

  lemma {:induction false} RunCompose(code: seq<Byte>, s: State, m: nat, n: nat)
    requires WellFormed(s) && Run(code, s, m).Some?
    ensures Run(code, s, m + n) == Run(code, Run(code, s, m).value, n)
    decreases m
  {
    hide Step;
    if m > 0 { RunCompose(code, Step(code, s).value, m - 1, n); }
  }
}
