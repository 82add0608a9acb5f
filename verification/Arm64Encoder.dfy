// arm64CompileFunction of src/codegen/arm64/encoder.cpp.
//
// A listing is the symbolic form of the code: one entry for each emitted word, with the branches
// and calls still naming their targets. The emitter appends words to a byte buffer and records
// branches and calls to patch; its ghost listing says what the bytes stand for.

module Arm64Encoder {
  import opened Ast
  import opened Bits
  import opened Arm64Words
  import Arm64Machine

  datatype CodegenError =
    | Unsupported(fnName: string)
    | FloatImmediate
    | UnknownBlock(target: string, fnName: string)
    | UnresolvedCall(callee: string)
    | EntryMissing

  datatype CallFixup = CallFixup(byteOffset: nat, callee: string)

  datatype PendingBranch = PendingBranch(at: nat, target: string, isConditional: bool)

  datatype CompiledFunction = CompiledFunction(name: string, code: seq<Byte>, callFixups: seq<CallFixup>)

  type Cond = c: nat | c < 16

  datatype Asm =
    | Raw(word: nat)
    | Branch(target: string)
    | CondBranch(cond: Cond, target: string)
    | CallTo(callee: string)

  // ---------------------------------------------------------------- which instructions are accepted

  predicate IsFloatType(ty: Byte) { ty == F32 || ty == F64 }

  const SYS_CPU_ARCH: int := 59

  // nativeSyscallNumber
  function NativeSyscall(id: int): Option<UInt32> {
    if id == 0 then Some(1)
    else if id == 2 then Some(3)
    else if id == 1 then Some(4)
    else if id == 3 then Some(5)
    else if id == 4 then Some(6)
    else if id == 7 then Some(10)
    else if id == 12 then Some(12)
    else if id == 19 then Some(20)
    else if id == 9 then Some(136)
    else if id == 10 then Some(137)
    else if id == 58 then Some(74)
    else None
  }

  predicate OpcodeSupported(op: UInt16) {
    op == MOV || IsArith(op) || op == CMP || IsConditional(op) || op == JMP || op == CALL || op == RET || op == RETVOID
    || op == SYSCALL
  }

  predicate InstrSupported(instr: Instruction) {
    && OpcodeSupported(instr.opcode)
    && !IsFloatType(instr.ty)
    && (instr.opcode == SYSCALL ==>
          && |instr.operands| > 0 && instr.operands[0].ImmediateInt?
          && (instr.operands[0].immInt == SYS_CPU_ARCH || NativeSyscall(instr.operands[0].immInt).Some?))
  }

  predicate IsSupported(fn: Function) {
    forall b, i :: 0 <= b < |fn.blocks| && 0 <= i < |fn.blocks[b].instructions| ==>
      InstrSupported(fn.blocks[b].instructions[i])
  }

  // The operands the backend indexes without a check.
  function OperandsUsed(op: UInt16): nat {
    if IsArith(op) || op == CMP then 2
    else if op == MOV || IsConditional(op) || op == JMP || op == CALL || op == RET then 1
    else 0
  }

  predicate WellShaped(instr: Instruction) {
    && |instr.operands| >= OperandsUsed(instr.opcode)
  }

  predicate FunctionShaped(fn: Function) {
    forall b, i :: 0 <= b < |fn.blocks| && 0 <= i < |fn.blocks[b].instructions| ==>
      WellShaped(fn.blocks[b].instructions[i])
  }

  predicate AllWellShaped(fs: seq<Function>) { forall f :: 0 <= f < |fs| ==> FunctionShaped(fs[f]) }

  predicate OperandOk(op: Operand) { op.Register? || op.ImmediateInt? }

  function OperandName(op: Operand): string {
    if op.Label? || op.Symbol? then op.name else ""
  }

  function ArgCount(ops: seq<Operand>, limit: nat): (n: nat)
    ensures n == 0 || n < |ops|
  {
    if |ops| == 0 then 0 else if |ops| - 1 < limit then |ops| - 1 else limit
  }

  predicate ArgsOk(ops: seq<Operand>, n: nat)
    requires n == 0 || n < |ops|
  {
    forall a :: 1 <= a <= n ==> OperandOk(ops[a])
  }

  // emitLoadOperand throws for no operand of the instruction.
  predicate Encodable(instr: Instruction)
    requires WellShaped(instr) && InstrSupported(instr)
  {
    var op := instr.opcode;
    if op == MOV || op == RET then OperandOk(instr.operands[0])
    else if IsArith(op) || op == CMP then OperandOk(instr.operands[0]) && OperandOk(instr.operands[1])
    else if op == CALL then ArgsOk(instr.operands, ArgCount(instr.operands, 8))
    else if op == SYSCALL then
      instr.operands[0].immInt == SYS_CPU_ARCH || ArgsOk(instr.operands, ArgCount(instr.operands, 3))
    else true
  }

  predicate AllEncodable(fn: Function)
    requires FunctionShaped(fn) && IsSupported(fn)
  {
    forall b, i :: 0 <= b < |fn.blocks| && 0 <= i < |fn.blocks[b].instructions| ==>
      Encodable(fn.blocks[b].instructions[i])
  }

  // ---------------------------------------------------------------- the listing of a function

  function RawAll(ws: seq<nat>): (l: seq<Asm>)
    ensures |l| == |ws|
  {
    seq(|ws|, i requires 0 <= i < |ws| => Raw(ws[i]))
  }

  function OperandAsm(rd: nat, op: Operand): seq<Asm>
    requires OperandOk(op)
  {
    if op.Register? then [Raw(LdrSlotWord(rd, op.reg))] else RawAll(LoadImmWords(rd, op.immInt % 0x1_0000_0000_0000_0000))
  }

  function ArgsAsm(ops: seq<Operand>, n: nat): seq<Asm>
    requires n == 0 || n < |ops|
    requires ArgsOk(ops, n)
  {
    if n == 0 then [] else ArgsAsm(ops, n - 1) + OperandAsm(n - 1, ops[n])
  }

  function ArithWord(op: UInt16): nat {
    if op == ADD then AddWord(11, 9, 10)
    else if op == SUB then SubWord(11, 9, 10)
    else if op == MUL then MulWord(11, 9, 10)
    else SdivWord(11, 9, 10)
  }

  function CondCode(op: UInt16): Cond
    requires IsConditional(op)
  {
    if op == BEQ then 0 else if op == BNE then 1 else if op == BGE then 0xA
    else if op == BLT then 0xB else if op == BGT then 0xC else 0xD
  }

  function PrologueAsm(fs: nat): seq<Asm> {
    if fs > 0 then [Raw(STP_WORD), Raw(SpAdjustWord(0xD100_03FF, fs))] else [Raw(STP_WORD)]
  }

  // The epilogue and the return.
  function LeaveAsm(fs: nat): seq<Asm> {
    if fs > 0 then [Raw(SpAdjustWord(0x9100_03FF, fs)), Raw(LDP_WORD), Raw(RET_WORD)] else [Raw(LDP_WORD), Raw(RET_WORD)]
  }

  function TwoOperandsAsm(ops: seq<Operand>): seq<Asm>
    requires |ops| >= 2 && OperandOk(ops[0]) && OperandOk(ops[1])
  {
    OperandAsm(9, ops[0]) + OperandAsm(10, ops[1])
  }

  function StoreDest(instr: Instruction): seq<Asm> {
    if instr.hasDest then [Raw(StrSlotWord(0, instr.dest))] else []
  }

  function SyscallAsm(instr: Instruction): seq<Asm>
    requires instr.opcode == SYSCALL && InstrSupported(instr) && WellShaped(instr) && Encodable(instr)
  {
    var id := instr.operands[0].immInt;
    if id == SYS_CPU_ARCH then RawAll(LoadImmWords(9, 3)) + [Raw(StrSlotWord(9, instr.dest))]
    else
      ArgsAsm(instr.operands, ArgCount(instr.operands, 3))
      + (RawAll(LoadImmWords(16, NativeSyscall(id).value)) + [Raw(SVC_WORD), Raw(StrSlotWord(0, instr.dest))])
  }

  predicate Emittable(instr: Instruction) { InstrSupported(instr) && WellShaped(instr) && Encodable(instr) }

  function InstrAsm(instr: Instruction, fs: nat): seq<Asm>
    requires Emittable(instr)
  {
    var op := instr.opcode;
    var ops := instr.operands;
    if op == MOV then OperandAsm(9, ops[0]) + [Raw(StrSlotWord(9, instr.dest))]
    else if IsArith(op) then TwoOperandsAsm(ops) + [Raw(ArithWord(op)), Raw(StrSlotWord(11, instr.dest))]
    else if op == CMP then TwoOperandsAsm(ops) + [Raw(CmpWord(9, 10))]
    else if op == JMP then [Branch(OperandName(ops[0]))]
    else if IsConditional(op) then [CondBranch(CondCode(op), OperandName(ops[0]))]
    else if op == CALL then
      ArgsAsm(ops, ArgCount(ops, 8)) + ([CallTo(OperandName(ops[0]))] + StoreDest(instr))
    else if op == RET then OperandAsm(0, ops[0]) + LeaveAsm(fs)
    else if op == RETVOID then LeaveAsm(fs)
    else SyscallAsm(instr)
  }

  predicate AllEmittable(instrs: seq<Instruction>) {
    forall i :: 0 <= i < |instrs| ==> Emittable(instrs[i])
  }

  predicate BlocksEmittable(bs: seq<Block>) {
    forall b :: 0 <= b < |bs| ==> AllEmittable(bs[b].instructions)
  }

  function InstrsAsm(instrs: seq<Instruction>, fs: nat): seq<Asm>
    requires AllEmittable(instrs)
  {
    if instrs == [] then []
    else
      var n := |instrs| - 1;
      InstrsAsm(instrs[..n], fs) + InstrAsm(instrs[n], fs)
  }

  function BlocksAsm(bs: seq<Block>, fs: nat): seq<Asm>
    requires BlocksEmittable(bs)
  {
    if bs == [] then []
    else
      var n := |bs| - 1;
      BlocksAsm(bs[..n], fs) + InstrsAsm(bs[n].instructions, fs)
  }

  function ParamCount(fn: Function): (n: nat)
    ensures n <= 8
  {
    if |fn.params| < 8 then |fn.params| else 8
  }

  function ParamsAsm(n: nat): seq<Asm>
    requires n <= 8
  {
    if n == 0 then [] else ParamsAsm(n - 1) + [Raw(StrSlotWord(n - 1, n - 1))]
  }

  // maxReg: `reg + 1` is computed in 32 bits, so register 0xFFFFFFFF does not count.
  function RaiseTo(m: nat, reg: UInt32): nat {
    var next := (reg + 1) % 0x1_0000_0000;
    if next > m then next else m
  }

  function OperandsMax(m: nat, ops: seq<Operand>): nat {
    if ops == [] then m
    else
      var n := |ops| - 1;
      var r := OperandsMax(m, ops[..n]);
      if ops[n].Register? then RaiseTo(r, ops[n].reg) else r
  }

  function InstrsMax(m: nat, instrs: seq<Instruction>): nat {
    if instrs == [] then m
    else
      var n := |instrs| - 1;
      var r := InstrsMax(m, instrs[..n]);
      OperandsMax(if instrs[n].hasDest then RaiseTo(r, instrs[n].dest) else r, instrs[n].operands)
  }

  function BlocksMax(m: nat, bs: seq<Block>): nat {
    if bs == [] then m
    else
      var n := |bs| - 1;
      InstrsMax(BlocksMax(m, bs[..n]), bs[n].instructions)
  }

  function MaxReg(fn: Function): nat { BlocksMax(|fn.params|, fn.blocks) }

  // ((maxReg * 8) + 15) & ~15u
  function FrameSize(maxReg: nat): nat { And((maxReg * 8 + 15) % 0x1_0000_0000, 0xFFFF_FFF0) }

  predicate FnEmittable(fn: Function) { BlocksEmittable(fn.blocks) }

  function FnFrame(fn: Function): nat { FrameSize(MaxReg(fn)) }

  function FnPrefix(fn: Function, b: nat): seq<Asm>
    requires FnEmittable(fn) && b <= |fn.blocks|
  {
    PrologueAsm(FnFrame(fn)) + ParamsAsm(ParamCount(fn)) + BlocksAsm(fn.blocks[..b], FnFrame(fn))
  }

  function FnAsm(fn: Function): seq<Asm>
    requires FnEmittable(fn)
  {
    FnPrefix(fn, |fn.blocks|)
  }

  // blockOffsets after the first b blocks
  function Offsets(fn: Function, b: nat): map<string, nat>
    requires FnEmittable(fn) && b <= |fn.blocks|
  {
    if b == 0 then map[] else Offsets(fn, b - 1)[fn.blocks[b - 1].labelName := 4 * |FnPrefix(fn, b - 1)|]
  }

  // ---------------------------------------------------------------- words, pending branches, fixups

  function Placeholder(a: Asm): nat {
    match a
    case Raw(w) => w
    case Branch(_) => B_WORD
    case CondBranch(c, _) => BCondWord(c)
    case CallTo(_) => BL_WORD
  }

  function Placeholders(l: seq<Asm>): (ws: seq<nat>)
    ensures |ws| == |l|
  {
    seq(|l|, k requires 0 <= k < |l| => Placeholder(l[k]))
  }

  predicate IsBranch(a: Asm) { a.Branch? || a.CondBranch? }

  function PendingOf(l: seq<Asm>): seq<PendingBranch> {
    if l == [] then []
    else
      var n := |l| - 1;
      PendingOf(l[..n]) + if IsBranch(l[n]) then [PendingBranch(4 * n, l[n].target, l[n].CondBranch?)] else []
  }

  function FixupsOf(l: seq<Asm>): seq<CallFixup> {
    if l == [] then []
    else
      var n := |l| - 1;
      FixupsOf(l[..n]) + if l[n].CallTo? then [CallFixup(4 * n, l[n].callee)] else []
  }

  function FinalWord(a: Asm, k: nat, offsets: map<string, nat>): nat {
    match a
    case Branch(t) => if t in offsets then Patch26(B_WORD, offsets[t] - 4 * k) else B_WORD
    case CondBranch(c, t) => if t in offsets then Patch19(BCondWord(c), offsets[t] - 4 * k) else BCondWord(c)
    case _ => Placeholder(a)
  }

  function FinalWords(l: seq<Asm>, offsets: map<string, nat>): (ws: seq<nat>)
    ensures |ws| == |l|
  {
    seq(|l|, k requires 0 <= k < |l| => FinalWord(l[k], k, offsets))
  }

  function FirstUnresolved(p: seq<PendingBranch>, offsets: map<string, nat>): Option<string> {
    if p == [] then None
    else if p[0].target !in offsets then Some(p[0].target)
    else FirstUnresolved(p[1..], offsets)
  }

  // What arm64CompileFunction returns or throws.
  function CompileSpec(fn: Function): Result<CompiledFunction, CodegenError>
    requires FunctionShaped(fn)
  {
    if !IsSupported(fn) then Err(Unsupported(fn.name))
    else if !AllEncodable(fn) then Err(FloatImmediate)
    else
      assert FnEmittable(fn);
      var l := FnAsm(fn);
      var offsets := Offsets(fn, |fn.blocks|);
      match FirstUnresolved(PendingOf(l), offsets)
      case Some(t) => Err(UnknownBlock(t, fn.name))
      case None => Ok(CompiledFunction(fn.name, Bytes(FinalWords(l, offsets)), FixupsOf(l)))
  }

  // ---------------------------------------------------------------- facts about the recorded branches

  predicate Records(p: PendingBranch, l: seq<Asm>) {
    var k := p.at / 4;
    && p.at == 4 * k && k < |l| && IsBranch(l[k])
    && p.target == l[k].target && p.isConditional == l[k].CondBranch?
  }

  predicate RecordedAt(p: seq<PendingBranch>, at: nat) { exists j :: 0 <= j < |p| && p[j].at == at }

  // The pending list holds every branch of the listing once, in order of address.
  lemma PendingFacts(l: seq<Asm>)
    ensures forall j :: 0 <= j < |PendingOf(l)| ==> Records(PendingOf(l)[j], l)
    ensures forall i, j :: 0 <= i < j < |PendingOf(l)| ==> PendingOf(l)[i].at < PendingOf(l)[j].at
    ensures forall k :: 0 <= k < |l| && IsBranch(l[k]) ==> RecordedAt(PendingOf(l), 4 * k)
  {
    PendingSound(l);
    PendingComplete(l);
  }

  lemma {:induction false} PendingSound(l: seq<Asm>)
    ensures forall j :: 0 <= j < |PendingOf(l)| ==> Records(PendingOf(l)[j], l)
    ensures forall j :: 0 <= j < |PendingOf(l)| ==> PendingOf(l)[j].at < 4 * |l|
    ensures forall i, j :: 0 <= i < j < |PendingOf(l)| ==> PendingOf(l)[i].at < PendingOf(l)[j].at
  {
    if l != [] {
      var n := |l| - 1;
      PendingSound(l[..n]);
      var q, p := PendingOf(l[..n]), PendingOf(l);
      forall j | 0 <= j < |p| ensures Records(p[j], l) {
        if j < |q| {
          assert p[j] == q[j];
          RecordsPrefix(q[j], l);
        } else {
          assert p[j] == PendingBranch(4 * n, l[n].target, l[n].CondBranch?);
        }
      }
    }
  }

  lemma RecordsPrefix(p: PendingBranch, l: seq<Asm>)
    requires l != [] && Records(p, l[..|l| - 1])
    ensures Records(p, l)
  {
  }

  lemma {:induction false} PendingComplete(l: seq<Asm>)
    ensures forall k :: 0 <= k < |l| && IsBranch(l[k]) ==> RecordedAt(PendingOf(l), 4 * k)
  {
    if l != [] {
      var n := |l| - 1;
      PendingComplete(l[..n]);
      var q, p := PendingOf(l[..n]), PendingOf(l);
      forall k | 0 <= k < |l| && IsBranch(l[k]) ensures RecordedAt(p, 4 * k) {
        if k < n {
          assert IsBranch(l[..n][k]);
          var j :| 0 <= j < |q| && q[j].at == 4 * k;
          assert p[j] == q[j];
        } else {
          assert p[|q|].at == 4 * k;
        }
      }
    }
  }

  lemma {:induction false} FirstUnresolvedNone(p: seq<PendingBranch>, offsets: map<string, nat>)
    ensures FirstUnresolved(p, offsets) == None <==> forall j :: 0 <= j < |p| ==> p[j].target in offsets
  {
    if p != [] {
      FirstUnresolvedNone(p[1..], offsets);
      assert forall j :: 1 <= j < |p| ==> p[j] == p[1..][j - 1];
    }
  }

  // ---------------------------------------------------------------- the emitter

  class Emitter {
    var code: seq<Byte>
    var pendingBranches: seq<PendingBranch>
    var blockOffsets: map<string, nat>
    var callFixups: seq<CallFixup>
    ghost var listing: seq<Asm>

    ghost predicate Valid()
      reads this
    {
      && code == Bytes(Placeholders(listing))
      && pendingBranches == PendingOf(listing)
      && callFixups == FixupsOf(listing)
    }

    constructor ()
      ensures Valid() && listing == [] && blockOffsets == map[]
    {
      code, pendingBranches, blockOffsets, callFixups, listing := [], [], map[], [], [];
    }

    // Appends the bytes of one listing entry; the callers record what is to be patched.
    method Append(ghost a: Asm, word: nat)
      requires code == Bytes(Placeholders(listing)) && word == Placeholder(a)
      modifies this`code, this`listing
      ensures code == Bytes(Placeholders(listing)) && listing == old(listing) + [a]
    {
      code := code + Le32(word);
      BytesAppend(Placeholders(listing), [word]);
      assert Bytes([word]) == Le32(word) by { BytesAt([word], 0); }
      assert Placeholders(listing + [a]) == Placeholders(listing) + [word];
      listing := listing + [a];
    }

    method Emit32(word: nat)
      requires Valid()
      modifies this
      ensures Valid() && listing == old(listing) + [Raw(word)] && blockOffsets == old(blockOffsets)
    {
      Append(Raw(word), word);
      assert listing[..|listing| - 1] == old(listing);
    }

    method EmitBranch(target: string)
      requires Valid()
      modifies this
      ensures Valid() && listing == old(listing) + [Branch(target)] && blockOffsets == old(blockOffsets)
    {
      var at := |code|;
      Append(Branch(target), B_WORD);
      pendingBranches := pendingBranches + [PendingBranch(at, target, false)];
      assert listing[..|listing| - 1] == old(listing);
    }

    method EmitCondBranch(cond: Cond, target: string)
      requires Valid()
      modifies this
      ensures Valid() && listing == old(listing) + [CondBranch(cond, target)] && blockOffsets == old(blockOffsets)
    {
      var at := |code|;
      Append(CondBranch(cond, target), BCondWord(cond));
      pendingBranches := pendingBranches + [PendingBranch(at, target, true)];
      assert listing[..|listing| - 1] == old(listing);
    }

    method EmitCall(callee: string)
      requires Valid()
      modifies this
      ensures Valid() && listing == old(listing) + [CallTo(callee)] && blockOffsets == old(blockOffsets)
    {
      var at := |code|;
      Append(CallTo(callee), BL_WORD);
      callFixups := callFixups + [CallFixup(at, callee)];
      assert listing[..|listing| - 1] == old(listing);
    }

    method EmitLoadImm64(rd: nat, imm: UInt64)
      requires Valid()
      modifies this
      ensures Valid() && listing == old(listing) + RawAll(LoadImmWords(rd, imm)) && blockOffsets == old(blockOffsets)
    {
      hide *;
      Emit32(MovWideWord(0xD280_0000, rd, ImmChunk(imm, 0)));
      Emit32(MovWideWord(0xF2A0_0000, rd, ImmChunk(imm, 1)));
      Emit32(MovWideWord(0xF2C0_0000, rd, ImmChunk(imm, 2)));
      Emit32(MovWideWord(0xF2E0_0000, rd, ImmChunk(imm, 3)));
      LoadImmListing(rd, imm);
    }

    // False where the source throws.
    method EmitLoadOperand(rd: nat, op: Operand) returns (ok: bool)
      requires Valid()
      modifies this
      ensures Valid() && ok == OperandOk(op) && blockOffsets == old(blockOffsets)
      ensures ok ==> listing == old(listing) + OperandAsm(rd, op)
    {
      if op.Register? {
        Emit32(LdrSlotWord(rd, op.reg));
        ok := true;
      } else if op.ImmediateInt? {
        EmitLoadImm64(rd, op.immInt % 0x1_0000_0000_0000_0000);
        ok := true;
      } else {
        ok := false;
      }
    }

    method EmitArguments(ops: seq<Operand>, limit: nat) returns (ok: bool)
      requires Valid()
      modifies this
      ensures Valid() && blockOffsets == old(blockOffsets)
      ensures ok == ArgsOk(ops, ArgCount(ops, limit))
      ensures ok ==> listing == old(listing) + ArgsAsm(ops, ArgCount(ops, limit))
    {
      hide Emitter.Valid, OperandAsm;
      var a := 1;
      while a < |ops| && a <= limit
        invariant 1 <= a <= ArgCount(ops, limit) + 1
        invariant Valid() && blockOffsets == old(blockOffsets)
        invariant ArgsOk(ops, a - 1) && listing == old(listing) + ArgsAsm(ops, a - 1)
      {
        ghost var before := listing;
        var loaded := EmitLoadOperand(a - 1, ops[a]);
        if !loaded {
          assert !OperandOk(ops[a]);
          return false;
        }
        assert ArgsOk(ops, a);
        assert ArgsAsm(ops, a) == ArgsAsm(ops, a - 1) + OperandAsm(a - 1, ops[a]);
        Assoc(old(listing), ArgsAsm(ops, a - 1), OperandAsm(a - 1, ops[a]));
        a := a + 1;
      }
      ok := true;
    }

    method EmitTwo(w0: nat, w1: nat)
      requires Valid()
      modifies this
      ensures Valid() && listing == old(listing) + [Raw(w0), Raw(w1)] && blockOffsets == old(blockOffsets)
    {
      hide Emitter.Valid;
      Emit32(w0);
      Emit32(w1);
      assert [Raw(w0)] + [Raw(w1)] == [Raw(w0), Raw(w1)];
    }

    // emitEpilogue and emitRet
    method EmitLeave(fs: nat)
      requires Valid()
      modifies this
      ensures Valid() && listing == old(listing) + LeaveAsm(fs) && blockOffsets == old(blockOffsets)
    {
      hide Emitter.Valid, SpAdjustWord;
      if fs > 0 { Emit32(SpAdjustWord(0x9100_03FF, fs)); }
      EmitTwo(LDP_WORD, RET_WORD);
      assert LeaveAsm(fs) == (if fs > 0 then [Raw(SpAdjustWord(0x9100_03FF, fs))] else []) + [Raw(LDP_WORD), Raw(RET_WORD)];
    }

    method EmitSyscall(instr: Instruction) returns (ok: bool)
      requires Valid() && instr.opcode == SYSCALL && InstrSupported(instr) && WellShaped(instr)
      modifies this
      ensures Valid() && ok == Encodable(instr) && blockOffsets == old(blockOffsets)
      ensures ok ==> listing == old(listing) + SyscallAsm(instr)
    {
      hide Emitter.Valid, ArgsAsm, LoadImmWords, RawAll, StrSlotWord, NativeSyscall;
      var id := instr.operands[0].immInt;
      if id == SYS_CPU_ARCH {
        EmitLoadImm64(9, 3);
        Emit32(StrSlotWord(9, instr.dest));
        ok := true;
        Assoc(old(listing), RawAll(LoadImmWords(9, 3)), [Raw(StrSlotWord(9, instr.dest))]);
      } else {
        ok := EmitArguments(instr.operands, 3);
        if ok {
          ghost var args := ArgsAsm(instr.operands, ArgCount(instr.operands, 3));
          var darwin := NativeSyscall(id).value;
          ghost var number := RawAll(LoadImmWords(16, darwin));
          EmitLoadImm64(16, darwin);
          EmitTwo(SVC_WORD, StrSlotWord(0, instr.dest));
          Assoc(old(listing) + args, number, [Raw(SVC_WORD), Raw(StrSlotWord(0, instr.dest))]);
          Assoc(old(listing), args, number + [Raw(SVC_WORD), Raw(StrSlotWord(0, instr.dest))]);
        }
      }
    }

    method EmitTwoOperands(ops: seq<Operand>) returns (ok: bool)
      requires Valid() && |ops| >= 2
      modifies this
      ensures Valid() && ok == (OperandOk(ops[0]) && OperandOk(ops[1])) && blockOffsets == old(blockOffsets)
      ensures ok ==> listing == old(listing) + TwoOperandsAsm(ops)
    {
      hide Emitter.Valid, OperandAsm;
      ok := EmitLoadOperand(9, ops[0]);
      if ok {
        ok := EmitLoadOperand(10, ops[1]);
        if ok { Assoc(old(listing), OperandAsm(9, ops[0]), OperandAsm(10, ops[1])); }
      }
    }

    method EmitCallInstruction(instr: Instruction) returns (ok: bool)
      requires Valid() && |instr.operands| >= 1
      modifies this
      ensures Valid() && ok == ArgsOk(instr.operands, ArgCount(instr.operands, 8)) && blockOffsets == old(blockOffsets)
      ensures ok ==> listing == old(listing) + (ArgsAsm(instr.operands, ArgCount(instr.operands, 8))
                                                + ([CallTo(OperandName(instr.operands[0]))] + StoreDest(instr)))
    {
      hide Emitter.Valid, ArgsAsm, StrSlotWord, OperandName;
      ok := EmitArguments(instr.operands, 8);
      if ok {
        ghost var args := ArgsAsm(instr.operands, ArgCount(instr.operands, 8));
        ghost var call := [CallTo(OperandName(instr.operands[0]))];
        EmitCall(OperandName(instr.operands[0]));
        if instr.hasDest { Emit32(StrSlotWord(0, instr.dest)); }
        assert listing == old(listing) + args + call + StoreDest(instr);
        Assoc(old(listing) + args, call, StoreDest(instr));
        Assoc(old(listing), args, call + StoreDest(instr));
      }
    }

    // One case of the dispatch on the opcode.
    method EmitInstruction(instr: Instruction, fs: nat) returns (ok: bool)
      requires Valid() && InstrSupported(instr) && WellShaped(instr)
      modifies this
      ensures Valid() && ok == Encodable(instr) && blockOffsets == old(blockOffsets)
      ensures ok ==> listing == old(listing) + InstrAsm(instr, fs)
    {
      hide Emitter.Valid, OperandAsm, TwoOperandsAsm, ArgsAsm, LeaveAsm, StrSlotWord, ArithWord, CmpWord, SyscallAsm, StoreDest;
      var op := instr.opcode;
      ok := true;
      if op == MOV {
        ok := EmitLoadOperand(9, instr.operands[0]);
        if ok {
          Emit32(StrSlotWord(9, instr.dest));
          Assoc(old(listing), OperandAsm(9, instr.operands[0]), [Raw(StrSlotWord(9, instr.dest))]);
        }
      } else if IsArith(op) {
        ok := EmitTwoOperands(instr.operands);
        if ok {
          EmitTwo(ArithWord(op), StrSlotWord(11, instr.dest));
          Assoc(old(listing), TwoOperandsAsm(instr.operands), [Raw(ArithWord(op)), Raw(StrSlotWord(11, instr.dest))]);
        }
      } else if op == CMP {
        ok := EmitTwoOperands(instr.operands);
        if ok {
          Emit32(CmpWord(9, 10));
          Assoc(old(listing), TwoOperandsAsm(instr.operands), [Raw(CmpWord(9, 10))]);
        }
      } else if op == JMP {
        EmitBranch(OperandName(instr.operands[0]));
      } else if IsConditional(op) {
        EmitCondBranch(CondCode(op), OperandName(instr.operands[0]));
      } else if op == CALL {
        ok := EmitCallInstruction(instr);
      } else if op == RET {
        ok := EmitLoadOperand(0, instr.operands[0]);
        if ok {
          EmitLeave(fs);
          Assoc(old(listing), OperandAsm(0, instr.operands[0]), LeaveAsm(fs));
        }
      } else if op == RETVOID {
        EmitLeave(fs);
      } else {
        ok := EmitSyscall(instr);
      }
    }

    method EmitBlock(block: Block, fs: nat) returns (ok: bool)
      requires Valid()
      requires forall i :: 0 <= i < |block.instructions| ==>
        InstrSupported(block.instructions[i]) && WellShaped(block.instructions[i])
      modifies this
      ensures Valid()
      ensures ok == AllEmittable(block.instructions)
      ensures blockOffsets == old(blockOffsets)[block.labelName := 4 * |old(listing)|]
      ensures ok ==> listing == old(listing) + InstrsAsm(block.instructions, fs)
    {
      hide InstrSupported, WellShaped, Encodable, InstrAsm, PendingOf, FixupsOf, Placeholder;
      blockOffsets := blockOffsets[block.labelName := |code|];
      ghost var offsets := blockOffsets;
      hide Emitter.Valid;
      var instrs := block.instructions;
      for i := 0 to |instrs|
        invariant Valid() && blockOffsets == offsets
        invariant AllEmittable(instrs[..i]) && listing == old(listing) + InstrsAsm(instrs[..i], fs)
      {
        ok := EmitInstruction(instrs[i], fs);
        if !ok {
          assert !Emittable(instrs[i]);
          return false;
        }
        InstrsAsmStep(instrs, i, fs);
        Assoc(old(listing), InstrsAsm(instrs[..i], fs), InstrAsm(instrs[i], fs));
      }
      assert instrs[..|instrs|] == instrs;
      ok := true;
    }

    // The second loop over the pending branches; None when every label was found.
    method PatchBranches() returns (missing: Option<string>)
      requires Valid()
      modifies this`code
      ensures missing == FirstUnresolved(pendingBranches, blockOffsets)
      ensures missing == None ==> code == Bytes(FinalWords(listing, blockOffsets))
    {
      PendingFacts(listing);
      hide Bytes, Patch26, Patch19, BCondWord, PendingOf, FixupsOf;
      ghost var ws: seq<nat> := Placeholders(listing);
      var i := 0;
      while i < |pendingBranches|
        invariant 0 <= i <= |pendingBranches|
        invariant code == Bytes(ws) && |ws| == |listing|
        invariant FirstUnresolved(pendingBranches, blockOffsets) == FirstUnresolved(pendingBranches[i..], blockOffsets)
        invariant PatchedBelow(listing, pendingBranches, blockOffsets, i, ws)
      {
        var pb := pendingBranches[i];
        assert Records(pb, listing);
        ghost var k := pb.at / 4;
        ghost var a := listing[k];
        assert ws[k] == Placeholder(a);
        if pb.target !in blockOffsets { return Some(pb.target); }
        var delta := blockOffsets[pb.target] - pb.at;
        FetchPlaceholder(ws, a, k);
        var word := Arm64Machine.FetchWord(code, pb.at);
        var patched := if pb.isConditional then Patch19(word, delta) else Patch26(word, delta);
        assert patched == FinalWord(a, k, blockOffsets);
        code := Overwrite(code, pb.at, patched);
        OverwriteBytes(ws, k, patched);
        PatchStep(listing, pendingBranches, blockOffsets, i, ws, patched);
        ws := ws[k := patched];
        i := i + 1;
      }
      assert pendingBranches[i..] == [];
      assert ws == FinalWords(listing, blockOffsets);
      missing := None;
    }
  }

  // The words below the i-th pending branch are final, the others still placeholders.
  ghost predicate PatchedBelow(l: seq<Asm>, p: seq<PendingBranch>, offsets: map<string, nat>, i: nat, ws: seq<nat>)
    requires |ws| == |l| && i <= |p|
  {
    forall k :: 0 <= k < |ws| ==>
      ws[k] == if i < |p| && 4 * k >= p[i].at then Placeholder(l[k]) else FinalWord(l[k], k, offsets)
  }

  lemma PatchStep(l: seq<Asm>, p: seq<PendingBranch>, offsets: map<string, nat>, i: nat, ws: seq<nat>, patched: nat)
    requires |ws| == |l| && i < |p| && p == PendingOf(l) && PatchedBelow(l, p, offsets, i, ws)
    requires Records(p[i], l) && patched == FinalWord(l[p[i].at / 4], p[i].at / 4, offsets)
    ensures PatchedBelow(l, p, offsets, i + 1, ws[p[i].at / 4 := patched])
  {
    PendingFacts(l);
    hide PendingOf, Patch26, Patch19, BCondWord;
    var next := ws[p[i].at / 4 := patched];
    forall m | 0 <= m < |next|
      ensures next[m] == if i + 1 < |p| && 4 * m >= p[i + 1].at then Placeholder(l[m]) else FinalWord(l[m], m, offsets)
    {
      if 4 * m > p[i].at && IsBranch(l[m]) {
        assert RecordedAt(p, 4 * m);
      }
    }
  }

  lemma InstrsAsmStep(instrs: seq<Instruction>, i: nat, fs: nat)
    requires i < |instrs| && AllEmittable(instrs[..i]) && Emittable(instrs[i])
    ensures AllEmittable(instrs[..i + 1])
    ensures InstrsAsm(instrs[..i + 1], fs) == InstrsAsm(instrs[..i], fs) + InstrAsm(instrs[i], fs)
  {
    hide InstrSupported, WellShaped, Encodable, InstrAsm;
    var upto := instrs[..i + 1];
    assert upto[..i] == instrs[..i] && upto[i] == instrs[i];
    forall j | 0 <= j < |upto| ensures Emittable(upto[j]) {
      if j < i { assert upto[j] == instrs[..i][j]; }
    }
  }

  lemma LoadImmListing(rd: nat, imm: UInt64)
    ensures RawAll(LoadImmWords(rd, imm)) ==
      [Raw(MovWideWord(0xD280_0000, rd, ImmChunk(imm, 0))), Raw(MovWideWord(0xF2A0_0000, rd, ImmChunk(imm, 1))),
       Raw(MovWideWord(0xF2C0_0000, rd, ImmChunk(imm, 2))), Raw(MovWideWord(0xF2E0_0000, rd, ImmChunk(imm, 3)))]
  {
    hide MovWideWord, ImmChunk;
  }

  lemma FetchPlaceholder(ws: seq<nat>, a: Asm, k: nat)
    requires k < |ws| && IsBranch(a) && ws[k] == Placeholder(a)
    ensures Arm64Machine.FetchWord(Bytes(ws), 4 * k) == ws[k]
  {
    hide BCondWord, Bytes, Patch19, Arm64Machine.Decode;
    if a.CondBranch? { DecodePatch19(a.cond, 0); }
    FetchBytes(ws, k);
  }

  // ---------------------------------------------------------------- the compiler proper

  method OperandsMaxLoop(start: nat, ops: seq<Operand>) returns (m: nat)
    ensures m == OperandsMax(start, ops)
  {
    m := start;
    for o := 0 to |ops|
      invariant m == OperandsMax(start, ops[..o])
    {
      assert ops[..o + 1][..o] == ops[..o];
      if ops[o].Register? { m := RaiseTo(m, ops[o].reg); }
    }
    assert ops[..|ops|] == ops;
  }

  // The loop nest that finds the highest register.
  method ComputeMaxReg(fn: Function) returns (m: nat)
    ensures m == MaxReg(fn)
  {
    m := |fn.params|;
    for b := 0 to |fn.blocks|
      invariant m == BlocksMax(|fn.params|, fn.blocks[..b])
    {
      var instrs := fn.blocks[b].instructions;
      ghost var start := m;
      for i := 0 to |instrs|
        invariant m == InstrsMax(start, instrs[..i])
      {
        assert instrs[..i + 1][..i] == instrs[..i];
        if instrs[i].hasDest { m := RaiseTo(m, instrs[i].dest); }
        m := OperandsMaxLoop(m, instrs[i].operands);
      }
      assert instrs[..|instrs|] == instrs;
      assert fn.blocks[..b + 1][..b] == fn.blocks[..b];
    }
    assert fn.blocks[..|fn.blocks|] == fn.blocks;
  }

  // arm64IsSupported
  method CheckSupported(fn: Function) returns (ok: bool)
    ensures ok == IsSupported(fn)
  {
    hide InstrSupported;
    for b := 0 to |fn.blocks|
      invariant forall c, i :: 0 <= c < b && 0 <= i < |fn.blocks[c].instructions| ==>
        InstrSupported(fn.blocks[c].instructions[i])
    {
      var instrs := fn.blocks[b].instructions;
      for i := 0 to |instrs|
        invariant forall j :: 0 <= j < i ==> InstrSupported(instrs[j])
      {
        if !InstrSupported(instrs[i]) { return false; }
      }
    }
    ok := true;
  }

  lemma BlocksAsmStep(bs: seq<Block>, b: nat, fs: nat)
    requires b < |bs| && BlocksEmittable(bs[..b]) && AllEmittable(bs[b].instructions)
    ensures BlocksEmittable(bs[..b + 1])
    ensures BlocksAsm(bs[..b + 1], fs) == BlocksAsm(bs[..b], fs) + InstrsAsm(bs[b].instructions, fs)
  {
    hide AllEmittable, InstrsAsm;
    var upto := bs[..b + 1];
    assert upto[..b] == bs[..b] && upto[b] == bs[b];
    forall c | 0 <= c < |upto| ensures AllEmittable(upto[c].instructions) {
      if c < b { assert upto[c] == bs[..b][c]; }
    }
  }

  // The prologue and the stores of the parameters.
  method EmitEntry(out: Emitter, fs: nat, paramCount: nat)
    requires out.Valid() && out.listing == []
    modifies out
    ensures out.Valid() && out.blockOffsets == old(out.blockOffsets)
    ensures out.listing == PrologueAsm(fs) + ParamsAsm(if paramCount < 8 then paramCount else 8)
  {
    hide Emitter.Valid, SpAdjustWord, StrSlotWord;
    out.Emit32(STP_WORD);
    if fs > 0 { out.Emit32(SpAdjustWord(0xD100_03FF, fs)); }
    assert out.listing == PrologueAsm(fs) + ParamsAsm(0);
    var p := 0;
    while p < paramCount && p < 8
      invariant 0 <= p <= paramCount && p <= 8
      invariant out.Valid() && out.blockOffsets == old(out.blockOffsets)
      invariant out.listing == PrologueAsm(fs) + ParamsAsm(p)
    {
      out.Emit32(StrSlotWord(p, p));
      assert ParamsAsm(p + 1) == ParamsAsm(p) + [Raw(StrSlotWord(p, p))];
      Assoc(PrologueAsm(fs), ParamsAsm(p), [Raw(StrSlotWord(p, p))]);
      p := p + 1;
    }
  }

  // The offsets recorded while the first b blocks are emitted, for any function the loop has accepted so far.
  function OffsetsUpto(entry: seq<Asm>, bs: seq<Block>, fs: nat): map<string, nat>
    requires BlocksEmittable(bs)
  {
    if bs == [] then map[]
    else
      var n := |bs| - 1;
      OffsetsUpto(entry, bs[..n], fs)[bs[n].labelName := 4 * |entry + BlocksAsm(bs[..n], fs)|]
  }

  method EmitBlocks(out: Emitter, fn: Function, fs: nat) returns (ok: bool)
    requires out.Valid() && out.blockOffsets == map[]
    requires FunctionShaped(fn) && IsSupported(fn)
    modifies out
    ensures out.Valid() && ok == BlocksEmittable(fn.blocks)
    ensures ok ==> out.listing == old(out.listing) + BlocksAsm(fn.blocks, fs)
    ensures ok ==> out.blockOffsets == OffsetsUpto(old(out.listing), fn.blocks, fs)
  {
    hide InstrSupported, WellShaped, Encodable, InstrsAsm, Emitter.Valid;
    ghost var entry := out.listing;
    assert entry + BlocksAsm(fn.blocks[..0], fs) == entry;
    for b := 0 to |fn.blocks|
      invariant out.Valid() && BlocksEmittable(fn.blocks[..b])
      invariant out.listing == entry + BlocksAsm(fn.blocks[..b], fs)
      invariant out.blockOffsets == OffsetsUpto(entry, fn.blocks[..b], fs)
    {
      ok := out.EmitBlock(fn.blocks[b], fs);
      if !ok {
        assert !AllEmittable(fn.blocks[b].instructions);
        return;
      }
      BlocksAsmStep(fn.blocks, b, fs);
      Assoc(entry, BlocksAsm(fn.blocks[..b], fs), InstrsAsm(fn.blocks[b].instructions, fs));
      assert fn.blocks[..b + 1][..b] == fn.blocks[..b];
    }
    assert fn.blocks[..|fn.blocks|] == fn.blocks;
    ok := true;
  }

  method CompileFunction(fn: Function) returns (r: Result<CompiledFunction, CodegenError>)
    requires FunctionShaped(fn)
    ensures r == CompileSpec(fn)
  {
    hide InstrSupported, WellShaped, Encodable, BlocksAsm, OffsetsUpto, Offsets, FinalWords, FrameSize, ParamsAsm, PrologueAsm;
    hide Emitter.Valid, FirstUnresolved, PendingOf, FixupsOf, FunctionShaped, IsSupported, AllEncodable, BlocksEmittable;
    var supported := CheckSupported(fn);
    if !supported { return Err(Unsupported(fn.name)); }
    EmittableMeansEncodable(fn);
    var maxReg := ComputeMaxReg(fn);
    var fs := FrameSize(maxReg);
    var out := new Emitter();
    EmitEntry(out, fs, |fn.params|);
    var ok := EmitBlocks(out, fn, fs);
    if !ok { return Err(FloatImmediate); }
    assert fn.blocks[..|fn.blocks|] == fn.blocks;
    OffsetsAgree(fn, |fn.blocks|);
    ValidMeans(out);
    var missing := out.PatchBranches();
    if missing.Some? { return Err(UnknownBlock(missing.value, fn.name)); }
    r := Ok(CompiledFunction(fn.name, out.code, out.callFixups));
  }

  lemma ValidMeans(out: Emitter)
    requires out.Valid()
    ensures out.pendingBranches == PendingOf(out.listing) && out.callFixups == FixupsOf(out.listing)
  {
  }

  lemma EmittableMeansEncodable(fn: Function)
    requires FunctionShaped(fn) && IsSupported(fn)
    ensures FnEmittable(fn) <==> AllEncodable(fn)
  {
    hide InstrSupported, WellShaped, Encodable;
    if FnEmittable(fn) {
      forall b, i | 0 <= b < |fn.blocks| && 0 <= i < |fn.blocks[b].instructions|
        ensures Encodable(fn.blocks[b].instructions[i])
      {
        assert AllEmittable(fn.blocks[b].instructions);
      }
    }
  }

  lemma {:induction false} OffsetsAgree(fn: Function, b: nat)
    requires FnEmittable(fn) && b <= |fn.blocks|
    ensures OffsetsUpto(PrologueAsm(FnFrame(fn)) + ParamsAsm(ParamCount(fn)), fn.blocks[..b], FnFrame(fn)) == Offsets(fn, b)
  {
    hide AllEmittable, InstrsAsm, FrameSize, BlocksAsm;
    if b > 0 {
      OffsetsAgree(fn, b - 1);
      assert fn.blocks[..b][..b - 1] == fn.blocks[..b - 1];
    }
  }
}
