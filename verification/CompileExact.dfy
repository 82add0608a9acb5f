// Exactly which functions the native compiler accepts, where the calls and branches of a listing come from,
// and how long a listing can be.

module CompileExact {
  import opened Ast
  import opened Arm64Encoder
  import opened Relocation
  import opened NativeLayout
  import Arm64Words

  predicate IsJump(op: UInt16) { op == JMP || IsConditional(op) }

  // A word of an instruction's listing is raw, or it is the call or the branch that the instruction is.
  predicate ComesFrom(a: Asm, instr: Instruction) {
    && (a.CallTo? ==> instr.opcode == CALL && |instr.operands| >= 1 && a.callee == OperandName(instr.operands[0]))
    && (IsBranch(a) ==> IsJump(instr.opcode) && |instr.operands| >= 1 && a.target == OperandName(instr.operands[0]))
  }

  predicate FromInstrs(a: Asm, instrs: seq<Instruction>) {
    a.Raw? || exists i :: 0 <= i < |instrs| && ComesFrom(a, instrs[i])
  }

  predicate FromBlocks(a: Asm, bs: seq<Block>) { a.Raw? || exists b :: 0 <= b < |bs| && FromInstrs(a, bs[b].instructions) }

  // ---------------------------------------------------------------- listings

  // The longest listing of an instruction is that of a call: eight constants, the call and the store.
  const MAX_WORDS: nat := 34

  lemma OperandIsRaw(rd: nat, op: Operand)
    requires OperandOk(op)
    ensures |OperandAsm(rd, op)| <= 4 && forall k :: 0 <= k < |OperandAsm(rd, op)| ==> OperandAsm(rd, op)[k].Raw?
  {
    hide Arm64Words.LdrSlotWord;
  }

  lemma {:induction false} ArgsAreRaw(ops: seq<Operand>, n: nat)
    requires (n == 0 || n < |ops|) && ArgsOk(ops, n)
    ensures |ArgsAsm(ops, n)| <= 4 * n && forall k :: 0 <= k < |ArgsAsm(ops, n)| ==> ArgsAsm(ops, n)[k].Raw?
  {
    hide OperandAsm;
    if n > 0 {
      ArgsAreRaw(ops, n - 1);
      OperandIsRaw(n - 1, ops[n]);
    }
  }

  lemma InstrComes(instr: Instruction, fs: nat)
    requires Emittable(instr)
    ensures |InstrAsm(instr, fs)| <= MAX_WORDS
    ensures forall k :: 0 <= k < |InstrAsm(instr, fs)| ==> ComesFrom(InstrAsm(instr, fs)[k], instr)
  {
    var op := instr.opcode;
    var ops := instr.operands;
    hide OperandAsm, ArgsAsm, Arm64Words.StrSlotWord, ArithWord, Arm64Words.CmpWord, Arm64Words.SpAdjustWord, Arm64Words.LoadImmWords;
    if op == MOV || op == RET {
      OperandIsRaw(if op == MOV then 9 else 0, ops[0]);
    } else if IsArith(op) || op == CMP {
      OperandIsRaw(9, ops[0]);
      OperandIsRaw(10, ops[1]);
    } else if op == CALL {
      ArgsAreRaw(ops, ArgCount(ops, 8));
    } else if op == SYSCALL && ops[0].immInt != SYS_CPU_ARCH {
      ArgsAreRaw(ops, ArgCount(ops, 3));
    }
  }

  lemma {:induction false} InstrsCome(instrs: seq<Instruction>, fs: nat)
    requires AllEmittable(instrs)
    ensures |InstrsAsm(instrs, fs)| <= MAX_WORDS * |instrs|
    ensures forall k :: 0 <= k < |InstrsAsm(instrs, fs)| ==> FromInstrs(InstrsAsm(instrs, fs)[k], instrs)
  {
    hide InstrSupported, WellShaped, Encodable, InstrAsm, ComesFrom;
    if instrs != [] {
      var n := |instrs| - 1;
      InstrsCome(instrs[..n], fs);
      InstrComes(instrs[n], fs);
      var front, last, l := InstrsAsm(instrs[..n], fs), InstrAsm(instrs[n], fs), InstrsAsm(instrs, fs);
      assert l == front + last;
      forall k | 0 <= k < |l| ensures FromInstrs(l[k], instrs) {
        if k < |front| {
          assert FromInstrs(front[k], instrs[..n]);
          if !l[k].Raw? {
            var i :| 0 <= i < n && ComesFrom(l[k], instrs[..n][i]);
            assert ComesFrom(l[k], instrs[i]);
          }
        } else {
          assert l[k] == last[k - |front|];
        }
      }
    }
  }

  function InstrCount(bs: seq<Block>): nat {
    if bs == [] then 0 else InstrCount(bs[..|bs| - 1]) + |bs[|bs| - 1].instructions|
  }

  lemma {:induction false} BlocksCome(bs: seq<Block>, fs: nat)
    requires BlocksEmittable(bs)
    ensures |BlocksAsm(bs, fs)| <= MAX_WORDS * InstrCount(bs)
    ensures forall k :: 0 <= k < |BlocksAsm(bs, fs)| ==> FromBlocks(BlocksAsm(bs, fs)[k], bs)
  {
    hide AllEmittable, InstrsAsm, FromInstrs;
    if bs != [] {
      var n := |bs| - 1;
      assert forall b :: 0 <= b < n ==> bs[..n][b] == bs[b];
      BlocksCome(bs[..n], fs);
      InstrsCome(bs[n].instructions, fs);
      var front, last, l := BlocksAsm(bs[..n], fs), InstrsAsm(bs[n].instructions, fs), BlocksAsm(bs, fs);
      assert l == front + last;
      forall k | 0 <= k < |l| ensures FromBlocks(l[k], bs) {
        if k < |front| {
          assert FromBlocks(front[k], bs[..n]);
        } else {
          assert l[k] == last[k - |front|];
          assert FromInstrs(l[k], bs[n].instructions);
        }
      }
    }
  }

  // Two words of prologue, the stores of at most eight parameters, and the instructions.
  function MaxLength(fn: Function): nat { 10 + MAX_WORDS * InstrCount(fn.blocks) }

  lemma {:induction false} ParamsAreRaw(n: nat)
    requires n <= 8
    ensures |ParamsAsm(n)| == n && forall k :: 0 <= k < n ==> ParamsAsm(n)[k].Raw?
  {
    hide Arm64Words.StrSlotWord;
    if n > 0 { ParamsAreRaw(n - 1); }
  }

  lemma PrologueIsRaw(fs: nat)
    ensures |PrologueAsm(fs)| <= 2 && forall k :: 0 <= k < |PrologueAsm(fs)| ==> PrologueAsm(fs)[k].Raw?
  {
    hide Arm64Words.SpAdjustWord;
  }

  // Every call and branch of a function's listing is one of its instructions.
  lemma FunctionComes(fn: Function)
    requires FnEmittable(fn)
    ensures |FnAsm(fn)| <= MaxLength(fn)
    ensures forall k :: 0 <= k < |FnAsm(fn)| ==> FromBlocks(FnAsm(fn)[k], fn.blocks)
  {
    hide BlocksAsm, ParamsAsm, PrologueAsm, FnFrame, FnAsm, ParamCount, InstrCount, FromInstrs;
    FunctionSplits(fn);
    EmittableBlocks(fn);
    BlocksCome(fn.blocks, FnFrame(fn));
    ParamsAreRaw(ParamCount(fn));
    PrologueIsRaw(FnFrame(fn));
    var front, body := PrologueAsm(FnFrame(fn)) + ParamsAsm(ParamCount(fn)), BlocksAsm(fn.blocks, FnFrame(fn));
    forall k | 0 <= k < |FnAsm(fn)| ensures FromBlocks(FnAsm(fn)[k], fn.blocks) {
      if k >= |front| { assert FnAsm(fn)[k] == body[k - |front|]; }
    }
  }

  // The instruction that a call or a branch comes from.
  lemma ComesFromWhere(fn: Function, k: nat) returns (b: nat, i: nat)
    requires FnEmittable(fn) && k < |FnAsm(fn)| && !FnAsm(fn)[k].Raw?
    ensures b < |fn.blocks| && i < |fn.blocks[b].instructions| && ComesFrom(FnAsm(fn)[k], fn.blocks[b].instructions[i])
  {
    hide FnAsm, ComesFrom, FnEmittable;
    FunctionComes(fn);
    assert FromBlocks(FnAsm(fn)[k], fn.blocks);
    b :| 0 <= b < |fn.blocks| && FromInstrs(FnAsm(fn)[k], fn.blocks[b].instructions);
    i :| 0 <= i < |fn.blocks[b].instructions| && ComesFrom(FnAsm(fn)[k], fn.blocks[b].instructions[i]);
  }

  // ---------------------------------------------------------------- branches

  function BranchAsm(instr: Instruction): Asm
    requires |instr.operands| > 0 && IsJump(instr.opcode)
  {
    var t := OperandName(instr.operands[0]);
    if instr.opcode == JMP then Branch(t) else CondBranch(CondCode(instr.opcode), t)
  }

  lemma BranchListing(instr: Instruction, fs: nat)
    requires Emittable(instr) && IsJump(instr.opcode)
    ensures |instr.operands| > 0 && InstrAsm(instr, fs) == [BranchAsm(instr)]
  {
  }

  lemma BranchIsBranch(instr: Instruction)
    requires |instr.operands| > 0 && IsJump(instr.opcode)
    ensures IsBranch(BranchAsm(instr)) && BranchAsm(instr).target == OperandName(instr.operands[0])
  {
  }

  lemma SliceOfOne(l: seq<Asm>, at: nat, a: Asm)
    requires SliceAt(l, at, [a])
    ensures at < |l| && l[at] == a
  {
    assert l[at + 0] == [a][0];
  }

  // ---------------------------------------------------------------- which functions compile

  predicate JumpResolves(fn: Function, instr: Instruction) {
    IsJump(instr.opcode) ==> |instr.operands| >= 1 && HasBlock(fn, OperandName(instr.operands[0]))
  }

  predicate JumpsResolve(fn: Function) {
    forall b, i :: 0 <= b < |fn.blocks| && 0 <= i < |fn.blocks[b].instructions| ==> JumpResolves(fn, fn.blocks[b].instructions[i])
  }

  lemma ResolvedWhenJumpsResolve(fn: Function)
    requires FnEmittable(fn) && JumpsResolve(fn)
    ensures FirstUnresolved(PendingOf(FnAsm(fn)), Offsets(fn, |fn.blocks|)) == None
  {
    hide FnAsm, FnEmittable, HasBlock, Offsets, PendingOf, FirstUnresolved;
    var l, offsets := FnAsm(fn), Offsets(fn, |fn.blocks|);
    var p := PendingOf(l);
    PendingFacts(l);
    forall j | 0 <= j < |p| ensures p[j].target in offsets {
      assert Records(p[j], l);
      var b, i := ComesFromWhere(fn, p[j].at / 4);
      assert JumpResolves(fn, fn.blocks[b].instructions[i]);
      OffsetsAreLabels(fn, p[j].target);
    }
    FirstUnresolvedNone(p, offsets);
  }

  lemma JumpInListing(fn: Function, b: nat, i: nat)
    requires FnEmittable(fn) && b < |fn.blocks| && i < |fn.blocks[b].instructions| && IsJump(fn.blocks[b].instructions[i].opcode)
    ensures var instr := fn.blocks[b].instructions[i];
      && |instr.operands| > 0
      && InstrStart(fn, b, i) < |FnAsm(fn)| && FnAsm(fn)[InstrStart(fn, b, i)] == BranchAsm(instr)
  {
    hide *;
    InstructionSlice(fn, b, i);
    BranchListing(fn.blocks[b].instructions[i], FnFrame(fn));
    SliceOfOne(FnAsm(fn), InstrStart(fn, b, i), BranchAsm(fn.blocks[b].instructions[i]));
  }

  lemma JumpsResolveWhenResolved(fn: Function, b: nat, i: nat)
    requires FnEmittable(fn) && FirstUnresolved(PendingOf(FnAsm(fn)), Offsets(fn, |fn.blocks|)) == None
    requires b < |fn.blocks| && i < |fn.blocks[b].instructions|
    ensures JumpResolves(fn, fn.blocks[b].instructions[i])
  {
    var instr := fn.blocks[b].instructions[i];
    hide *;
    if IsJump(instr.opcode) {
      JumpInListing(fn, b, i);
      BranchIsBranch(instr);
      BranchTargetKnown(FnAsm(fn), Offsets(fn, |fn.blocks|), InstrStart(fn, b, i));
      OffsetsAreLabels(fn, BranchAsm(instr).target);
    }
    JumpResolvesIs(fn, instr);
  }

  lemma JumpResolvesIs(fn: Function, instr: Instruction)
    ensures JumpResolves(fn, instr) <==>
      (IsJump(instr.opcode) ==> |instr.operands| >= 1 && HasBlock(fn, OperandName(instr.operands[0])))
  {
    hide HasBlock;
  }

  // A function compiles exactly when its instructions are supported, its operands can be loaded, and each of
  // its branches names one of its blocks.
  lemma CompilesExactly(fn: Function)
    requires FunctionShaped(fn)
    ensures CompileSpec(fn).Ok? <==> IsSupported(fn) && AllEncodable(fn) && JumpsResolve(fn)
  {
    hide FnAsm, PendingOf, Offsets, FinalWords, FixupsOf, IsSupported, AllEncodable, FnEmittable, FunctionShaped, FirstUnresolved;
    hide JumpResolves, Arm64Words.Bytes;
    if IsSupported(fn) && AllEncodable(fn) {
      EmittableMeansEncodable(fn);
      if JumpsResolve(fn) { ResolvedWhenJumpsResolve(fn); }
      if CompileSpec(fn).Ok? {
        forall b, i | 0 <= b < |fn.blocks| && 0 <= i < |fn.blocks[b].instructions|
          ensures JumpResolves(fn, fn.blocks[b].instructions[i])
        {
          JumpsResolveWhenResolved(fn, b, i);
        }
      }
    }
  }
}
