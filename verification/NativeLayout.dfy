// Frames and code layout of compiled functions: which slots a function uses, how large its frame is,
// and where the words of each instruction lie.

module NativeLayout {
  import opened Ast
  import opened Bits
  import opened Arm64Encoder
  import opened Relocation

  // 510 slots is the largest frame whose size is an unshifted 12-bit immediate.
  const MAX_SLOTS: nat := 510

  predicate OperandBelow(op: Operand, m: nat) { op.Register? ==> op.reg < m }

  predicate InstrBelow(instr: Instruction, m: nat) {
    && (instr.hasDest ==> instr.dest < m)
    && forall o :: 0 <= o < |instr.operands| ==> OperandBelow(instr.operands[o], m)
  }

  // What the native backend needs of an instruction beyond its operand count: registers within the
  // largest frame, and a destination where it stores one, as the parser provides.
  predicate InstrInDomain(instr: Instruction) {
    InstrBelow(instr, MAX_SLOTS) && (instr.opcode == MOV || IsArith(instr.opcode) ==> instr.hasDest)
  }

  predicate InstrsBelow(instrs: seq<Instruction>, m: nat) {
    forall i :: 0 <= i < |instrs| ==> InstrBelow(instrs[i], m)
  }

  predicate BlocksBelow(bs: seq<Block>, m: nat) {
    forall b :: 0 <= b < |bs| ==> InstrsBelow(bs[b].instructions, m)
  }

  // Parameters and arguments travel in x0..x7.
  predicate FunctionInDomain(fn: Function) {
    && |fn.params| <= 8
    && forall b, i :: 0 <= b < |fn.blocks| && 0 <= i < |fn.blocks[b].instructions| ==>
         InstrInDomain(fn.blocks[b].instructions[i])
  }

  // ---------------------------------------------------------------- the highest register

  lemma {:induction false} OperandsMaxBounds(m: nat, ops: seq<Operand>)
    requires m <= MAX_SLOTS && forall o :: 0 <= o < |ops| ==> OperandBelow(ops[o], MAX_SLOTS)
    ensures m <= OperandsMax(m, ops) <= MAX_SLOTS
    ensures forall o :: 0 <= o < |ops| ==> OperandBelow(ops[o], OperandsMax(m, ops))
  {
    if ops != [] {
      var n := |ops| - 1;
      OperandsMaxBounds(m, ops[..n]);
      forall o | 0 <= o < |ops| ensures OperandBelow(ops[o], OperandsMax(m, ops)) {
        if o < n { assert OperandBelow(ops[..n][o], OperandsMax(m, ops[..n])); }
      }
    }
  }

  lemma {:induction false} InstrsMaxBounds(m: nat, instrs: seq<Instruction>)
    requires m <= MAX_SLOTS && InstrsBelow(instrs, MAX_SLOTS)
    ensures m <= InstrsMax(m, instrs) <= MAX_SLOTS && InstrsBelow(instrs, InstrsMax(m, instrs))
  {
    if instrs != [] {
      var n := |instrs| - 1;
      InstrsMaxBounds(m, instrs[..n]);
      var r := InstrsMax(m, instrs[..n]);
      var last := instrs[n];
      assert InstrBelow(last, MAX_SLOTS);
      OperandsMaxBounds(if last.hasDest then RaiseTo(r, last.dest) else r, last.operands);
      forall i | 0 <= i < |instrs| ensures InstrBelow(instrs[i], InstrsMax(m, instrs)) {
        if i < n { assert InstrBelow(instrs[..n][i], r); }
      }
    }
  }

  lemma {:induction false} BlocksMaxBounds(m: nat, bs: seq<Block>)
    requires m <= MAX_SLOTS && BlocksBelow(bs, MAX_SLOTS)
    ensures m <= BlocksMax(m, bs) <= MAX_SLOTS && BlocksBelow(bs, BlocksMax(m, bs))
  {
    if bs != [] {
      var n := |bs| - 1;
      BlocksMaxBounds(m, bs[..n]);
      var r := BlocksMax(m, bs[..n]);
      InstrsMaxBounds(r, bs[n].instructions);
      forall b, i | 0 <= b < |bs| && 0 <= i < |bs[b].instructions|
        ensures InstrBelow(bs[b].instructions[i], BlocksMax(m, bs))
      {
        if b < n {
          assert InstrsBelow(bs[..n][b].instructions, r);
          assert InstrBelow(bs[b].instructions[i], r);
        }
      }
    }
  }

  // Every register of the function has a slot, and the slots fit the frame.
  lemma MaxRegBounds(fn: Function)
    requires FunctionInDomain(fn)
    ensures |fn.params| <= MaxReg(fn) <= MAX_SLOTS && BlocksBelow(fn.blocks, MaxReg(fn))
  {
    forall b | 0 <= b < |fn.blocks| ensures InstrsBelow(fn.blocks[b].instructions, MAX_SLOTS) {
      forall i | 0 <= i < |fn.blocks[b].instructions| ensures InstrBelow(fn.blocks[b].instructions[i], MAX_SLOTS) {
        assert InstrInDomain(fn.blocks[b].instructions[i]);
      }
    }
    BlocksMaxBounds(|fn.params|, fn.blocks);
  }

  // a & ~15u
  lemma ClearLowBits(a: nat)
    requires a < 0x1_0000_0000
    ensures And(a, 0xFFFF_FFF0) == a / 16 * 16
  {
    assert Pow2(4) == 16;
    Pow2Literals();
    Pow2Add(12, 16);
    hide And, Shl, Shr, Low, Pow2;
    var mask, h := 0xFFF_FFFF, a / 16;
    assert Shl(mask, 4) == 0xFFFF_FFF0 by { ShlIsMul(mask, 4); }
    assert Shr(Shl(mask, 4), 4) == mask && Low(Shl(mask, 4), 4) == 0 by { JoinAt(mask, 4, 0); }
    AndSplit(a, Shl(mask, 4), 4);
    assert Shr(a, 4) == h by { ShrLowAreDivMod(a, 4); }
    assert And(h, mask) == h by {
      AndLowMask(h, 28);
      ShrLowAreDivMod(h, 28);
      assert h < Pow2(28);
      DivModUnique(h, Pow2(28), 0, h);
    }
    OpZero(Low(a, 4));
    ShlIsMul(h, 4);
  }

  // ((maxReg * 8) + 15) & ~15u rounds 8 * maxReg up to a multiple of 16.
  lemma FrameSizeBounds(m: nat)
    requires m <= MAX_SLOTS
    ensures FrameSize(m) % 16 == 0 && 8 * m <= FrameSize(m) < 8 * m + 16 && FrameSize(m) <= 4080
  {
    hide And;
    ClearLowBits(m * 8 + 15);
  }

  lemma FrameBounds(fn: Function)
    requires FunctionInDomain(fn)
    ensures FnFrame(fn) % 16 == 0 && FnFrame(fn) <= 4080 && 8 * MaxReg(fn) <= FnFrame(fn)
  {
    MaxRegBounds(fn);
    FrameSizeBounds(MaxReg(fn));
  }

  // ---------------------------------------------------------------- where an instruction's words lie

  function InstrStart(fn: Function, b: nat, i: nat): nat
    requires FnEmittable(fn) && b < |fn.blocks| && i <= |fn.blocks[b].instructions|
  {
    assert AllEmittable(fn.blocks[b].instructions);
    BlockStart(fn, b) + |InstrsAsm(fn.blocks[b].instructions[..i], FnFrame(fn))|
  }

  lemma {:induction false} InstrsPrefix(instrs: seq<Instruction>, fs: nat, i: nat)
    requires AllEmittable(instrs) && i <= |instrs|
    ensures InstrsAsm(instrs[..i], fs) <= InstrsAsm(instrs, fs)
    decreases |instrs|
  {
    hide InstrSupported, WellShaped, Encodable, InstrAsm;
    if i == |instrs| {
      assert instrs[..i] == instrs;
    } else {
      var n := |instrs| - 1;
      InstrsPrefix(instrs[..n], fs, i);
      assert instrs[..n][..i] == instrs[..i];
    }
  }

  lemma {:induction false} BlocksPrefix(bs: seq<Block>, fs: nat, b: nat)
    requires BlocksEmittable(bs) && b <= |bs|
    ensures BlocksAsm(bs[..b], fs) <= BlocksAsm(bs, fs)
    decreases |bs|
  {
    hide AllEmittable, InstrsAsm;
    if b == |bs| {
      assert bs[..b] == bs;
    } else {
      var n := |bs| - 1;
      BlocksPrefix(bs[..n], fs, b);
      assert bs[..n][..b] == bs[..b];
    }
  }

  predicate SliceAt(l: seq<Asm>, at: nat, part: seq<Asm>) {
    at + |part| <= |l| && forall j :: 0 <= j < |part| ==> l[at + j] == part[j]
  }

  lemma SliceOfSlice(l: seq<Asm>, at: nat, part: seq<Asm>, off: nat, inner: seq<Asm>)
    requires SliceAt(l, at, part) && SliceAt(part, off, inner)
    ensures SliceAt(l, at + off, inner)
  {
    forall j | 0 <= j < |inner| ensures l[at + off + j] == inner[j] {
      assert l[at + (off + j)] == part[off + j];
    }
  }

  lemma SliceOfPrefix(l: seq<Asm>, front: seq<Asm>, whole: seq<Asm>, at: nat, part: seq<Asm>)
    requires SliceAt(whole, at, part) && l == front + whole
    ensures SliceAt(l, |front| + at, part)
  {
    forall j | 0 <= j < |part| ensures l[|front| + at + j] == part[j] {
      assert l[|front| + (at + j)] == whole[at + j];
    }
  }

  lemma SliceOfLast(l: seq<Asm>, a: seq<Asm>, b: seq<Asm>)
    requires a + b <= l
    ensures SliceAt(l, |a|, b)
  {
    forall j | 0 <= j < |b| ensures l[|a| + j] == b[j] {
      assert (a + b)[|a| + j] == b[j];
    }
  }

  lemma InstrSlice(instrs: seq<Instruction>, fs: nat, i: nat)
    requires AllEmittable(instrs) && i < |instrs|
    ensures SliceAt(InstrsAsm(instrs, fs), |InstrsAsm(instrs[..i], fs)|, InstrAsm(instrs[i], fs))
    ensures |InstrsAsm(instrs[..i + 1], fs)| == |InstrsAsm(instrs[..i], fs)| + |InstrAsm(instrs[i], fs)|
  {
    hide InstrSupported, WellShaped, Encodable, InstrAsm, InstrsAsm;
    InstrsAsmStep(instrs, i, fs);
    InstrsPrefix(instrs, fs, i + 1);
    SliceOfLast(InstrsAsm(instrs, fs), InstrsAsm(instrs[..i], fs), InstrAsm(instrs[i], fs));
  }

  lemma BlockSlice(bs: seq<Block>, fs: nat, b: nat)
    requires BlocksEmittable(bs) && b < |bs|
    ensures SliceAt(BlocksAsm(bs, fs), |BlocksAsm(bs[..b], fs)|, InstrsAsm(bs[b].instructions, fs))
  {
    hide AllEmittable, InstrsAsm, BlocksAsm;
    BlocksAsmStep(bs, b, fs);
    BlocksPrefix(bs, fs, b + 1);
    SliceOfLast(BlocksAsm(bs, fs), BlocksAsm(bs[..b], fs), InstrsAsm(bs[b].instructions, fs));
  }

  lemma EmittableBlocks(fn: Function)
    requires FnEmittable(fn)
    ensures BlocksEmittable(fn.blocks)
  {
  }

  lemma PartsEmittable(bs: seq<Block>, b: nat, i: nat)
    requires BlocksEmittable(bs) && b < |bs| && i < |bs[b].instructions|
    ensures AllEmittable(bs[b].instructions) && Emittable(bs[b].instructions[i])
    ensures AllEmittable(bs[b].instructions[..i]) && AllEmittable(bs[b].instructions[..i + 1])
    ensures BlocksEmittable(bs[..b])
  {
    hide Emittable;
    assert AllEmittable(bs[b].instructions);
  }

  lemma InstructionInBody(bs: seq<Block>, fs: nat, b: nat, i: nat)
    requires BlocksEmittable(bs) && b < |bs| && i < |bs[b].instructions|
    ensures AllEmittable(bs[b].instructions) && Emittable(bs[b].instructions[i])
    ensures SliceAt(BlocksAsm(bs, fs), |BlocksAsm(bs[..b], fs)| + |InstrsAsm(bs[b].instructions[..i], fs)|,
                    InstrAsm(bs[b].instructions[i], fs))
    ensures |InstrsAsm(bs[b].instructions[..i + 1], fs)|
         == |InstrsAsm(bs[b].instructions[..i], fs)| + |InstrAsm(bs[b].instructions[i], fs)|
  {
    hide *;
    var instrs := bs[b].instructions;
    PartsEmittable(bs, b, i);
    InstrSlice(instrs, fs, i);
    BlockSlice(bs, fs, b);
    SliceOfSlice(BlocksAsm(bs, fs), |BlocksAsm(bs[..b], fs)|, InstrsAsm(instrs, fs),
                 |InstrsAsm(instrs[..i], fs)|, InstrAsm(instrs[i], fs));
  }

  // The words of instruction i of block b are those of InstrAsm, and the next instruction follows them.
  lemma InstructionSlice(fn: Function, b: nat, i: nat)
    requires FnEmittable(fn) && b < |fn.blocks| && i < |fn.blocks[b].instructions|
    ensures Emittable(fn.blocks[b].instructions[i])
    ensures SliceAt(FnAsm(fn), InstrStart(fn, b, i), InstrAsm(fn.blocks[b].instructions[i], FnFrame(fn)))
    ensures InstrStart(fn, b, i + 1) == InstrStart(fn, b, i) + |InstrAsm(fn.blocks[b].instructions[i], FnFrame(fn))|
  {
    hide *;
    var fs := FnFrame(fn);
    var instrs := fn.blocks[b].instructions;
    EmittableBlocks(fn);
    PartsEmittable(fn.blocks, b, i);
    var front := PrologueAsm(fs) + ParamsAsm(ParamCount(fn));
    FunctionSplits(fn);
    StartSplits(fn, b, i);
    StartSplits(fn, b, i + 1);
    InstructionInBody(fn.blocks, fs, b, i);
    SliceOfPrefix(FnAsm(fn), front, BlocksAsm(fn.blocks, fs),
                  |BlocksAsm(fn.blocks[..b], fs)| + |InstrsAsm(instrs[..i], fs)|, InstrAsm(instrs[i], fs));
  }

  lemma FunctionSplits(fn: Function)
    requires FnEmittable(fn)
    ensures FnAsm(fn) == (PrologueAsm(FnFrame(fn)) + ParamsAsm(ParamCount(fn))) + BlocksAsm(fn.blocks, FnFrame(fn))
  {
    hide BlocksAsm, FnFrame, ParamsAsm, PrologueAsm;
    assert fn.blocks[..|fn.blocks|] == fn.blocks;
  }

  lemma StartSplits(fn: Function, b: nat, i: nat)
    requires FnEmittable(fn) && b < |fn.blocks| && i <= |fn.blocks[b].instructions|
    requires AllEmittable(fn.blocks[b].instructions[..i]) && BlocksEmittable(fn.blocks[..b])
    ensures InstrStart(fn, b, i) == |PrologueAsm(FnFrame(fn)) + ParamsAsm(ParamCount(fn))|
      + (|BlocksAsm(fn.blocks[..b], FnFrame(fn))| + |InstrsAsm(fn.blocks[b].instructions[..i], FnFrame(fn))|)
  {
    hide BlocksAsm, FnFrame, ParamsAsm, PrologueAsm, InstrsAsm, AllEmittable, BlocksEmittable;
  }

  lemma BlockEntry(fn: Function, b: nat)
    requires FnEmittable(fn) && b < |fn.blocks|
    ensures InstrStart(fn, b, 0) == BlockStart(fn, b)
  {
    assert AllEmittable(fn.blocks[b].instructions);
  }

  // A function begins with its prologue and the stores of its parameters.
  lemma EntrySlice(fn: Function)
    requires FnEmittable(fn)
    ensures SliceAt(FnAsm(fn), 0, PrologueAsm(FnFrame(fn)) + ParamsAsm(ParamCount(fn)))
    ensures BlockStart(fn, 0) == |PrologueAsm(FnFrame(fn)) + ParamsAsm(ParamCount(fn))|
  {
    hide FrameSize, MaxReg, ParamsAsm, PrologueAsm;
    var entry := PrologueAsm(FnFrame(fn)) + ParamsAsm(ParamCount(fn));
    assert FnAsm(fn) == entry + BlocksAsm(fn.blocks[..|fn.blocks|], FnFrame(fn));
    assert BlocksAsm(fn.blocks[..0], FnFrame(fn)) == [];
  }
}
