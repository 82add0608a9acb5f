// Object files from before the version word: opcodes of one byte and a single type. Nothing writes them any more;
// the reader still reads them (src/format/serializer.cpp), and reads back what the old layout holds.

module UoOldFormat {
  import opened Ast
  import opened Bits
  import opened UoFormat
  import opened UoRoundTrip

  // ---------------------------------------------------------------- the old layout

  // One byte of opcode, one byte of type, and from there on as now.
  function OldHead(i: Instruction): seq<Byte> {
    LittleEndian(i.opcode, 1) + (LittleEndian(i.ty, 1) + (Flag(i.hasDest) + LittleEndian(i.dest, 4)))
  }

  function OldInstruction(i: Instruction): seq<Byte> {
    OldHead(i) + (LittleEndian(|i.operands|, 1) + Concat(OperandBytes, i.operands))
  }

  function OldBlock(b: Block): seq<Byte> {
    StringBytes(b.labelName) + (LittleEndian(|b.instructions|, 4) + Concat(OldInstruction, b.instructions))
  }

  function OldTail(f: Function): seq<Byte> {
    LittleEndian(f.returnType, 1) + (LittleEndian(|f.blocks|, 4) + Concat(OldBlock, f.blocks))
  }

  function OldFunction(f: Function): seq<Byte> {
    FunctionHead(f) + ((LittleEndian(|f.params|, 1) + Concat(ParamBytes, f.params)) + OldTail(f))
  }

  function OldProgram(p: Program): seq<Byte> {
    LittleEndian(|p.functions|, 4) + (Concat(OldFunction, p.functions) + LittleEndian(p.entryIndex, 4))
  }

  // ---------------------------------------------------------------- what it can hold

  predicate OldOpcode(i: Instruction) { InstructionFits(i) && i.opcode < 0x100 && i.ty2 == i.ty }

  predicate OldBlockFits(b: Block) {
    StringFits(b.labelName) && |b.instructions| < 0x1_0000_0000 &&
    forall k :: 0 <= k < |b.instructions| ==> OldOpcode(b.instructions[k])
  }

  predicate OldFunctionFits(f: Function) {
    && StringFits(f.name) && StringFits(f.moduleName) && |f.params| < 0x100
    && |f.blocks| < 0x1_0000_0000 && forall k :: 0 <= k < |f.blocks| ==> OldBlockFits(f.blocks[k])
  }

  predicate OldFits(p: Program) {
    |p.functions| < 0x1_0000_0000 && forall k :: 0 <= k < |p.functions| ==> OldFunctionFits(p.functions[k])
  }

  // ---------------------------------------------------------------- reading it

  lemma OldHeadReads(d: seq<Byte>, pos: nat, i: Instruction)
    requires i.opcode < 0x100 && i.ty2 == i.ty && At(d, pos, OldHead(i))
    ensures |OldHead(i)| == 7
    ensures OpcodeAt(d, pos, 0) == Ok(((i.opcode, i.ty, i.ty2), pos + 2))
    ensures U8At(d, pos + 2).Ok? && U8At(d, pos + 2).value.1 == pos + 3 && (U8At(d, pos + 2).value.0 != 0) == i.hasDest
    ensures U32At(d, pos + 3) == Ok((i.dest, pos + 7))
  {
    hide At, LittleEndian, U8At, U16At, U32At;
    var opcode, ty, dest := LittleEndian(i.opcode, 1), LittleEndian(i.ty, 1), LittleEndian(i.dest, 4);
    AtSplit(d, pos, opcode, ty + (Flag(i.hasDest) + dest));
    AtSplit(d, pos + 1, ty, Flag(i.hasDest) + dest);
    AtSplit(d, pos + 2, Flag(i.hasDest), dest);
    NumbersRead(d, pos, i.opcode);
    NumbersRead(d, pos + 1, i.ty);
    FlagReads(d, pos + 2, i.hasDest);
    NumbersRead(d, pos + 3, i.dest);
  }

  lemma OldInstructionReads(d: seq<Byte>, pos: nat, i: Instruction)
    requires OldOpcode(i) && At(d, pos, OldInstruction(i))
    ensures InstructionAt(d, pos, 0) == Ok((DroppedInstruction(i), pos + |OldInstruction(i)|))
  {
    hide At, LittleEndian, U8At, U16At, U32At, ListAt, Concat, OperandBytes, OperandAt, OpcodeAt, OldHead, Flag, DroppedOperand, OperandFits;
    var count, body := LittleEndian(|i.operands|, 1), Concat(OperandBytes, i.operands);
    AtSplit(d, pos, OldHead(i), count + body);
    OldHeadReads(d, pos, i);
    AtSplit(d, pos + 7, count, body);
    NumbersRead(d, pos + 7, |i.operands|);
    var dropped := DroppedInstruction(i).operands;
    forall k, p: nat | 0 <= k < |i.operands| && At(d, p, OperandBytes(i.operands[k]))
      ensures OperandReader(d)(p) == Ok((dropped[k], p + |OperandBytes(i.operands[k])|))
    {
      OperandReads(d, p, i.operands[k]);
    }
    ListReads(d, pos + 8, OperandBytes, OperandReader(d), i.operands, dropped);
  }

  lemma OldBlockReads(d: seq<Byte>, pos: nat, b: Block)
    requires OldBlockFits(b) && At(d, pos, OldBlock(b))
    ensures BlockAt(d, pos, 0) == Ok((DroppedBlock(b), pos + |OldBlock(b)|))
  {
    hide At, LittleEndian, U32At, StringAt, StringBytes, ListAt, Concat, OldInstruction, InstructionAt, DroppedInstruction, OldOpcode;
    var count, body := LittleEndian(|b.instructions|, 4), Concat(OldInstruction, b.instructions);
    AtSplit(d, pos, StringBytes(b.labelName), count + body);
    StringReads(d, pos, b.labelName);
    var next := pos + |StringBytes(b.labelName)|;
    AtSplit(d, next, count, body);
    NumbersRead(d, next, |b.instructions|);
    var dropped := DroppedBlock(b).instructions;
    forall k, p: nat | 0 <= k < |b.instructions| && At(d, p, OldInstruction(b.instructions[k]))
      ensures InstructionReader(d, 0)(p) == Ok((dropped[k], p + |OldInstruction(b.instructions[k])|))
    {
      OldInstructionReads(d, p, b.instructions[k]);
    }
    ListReads(d, next + 4, OldInstruction, InstructionReader(d, 0), b.instructions, dropped);
  }

  lemma OldTailReads(d: seq<Byte>, pos: nat, f: Function)
    requires OldFunctionFits(f) && At(d, pos, OldTail(f))
    ensures TailAt(d, pos, 0) == Ok(((f.returnType, DroppedFunction(f).blocks), pos + |OldTail(f)|))
  {
    hide At, LittleEndian, U8At, U32At, ListAt, Concat, OldBlock, BlockAt, DroppedBlock, OldBlockFits;
    var returnType, count, body := LittleEndian(f.returnType, 1), LittleEndian(|f.blocks|, 4), Concat(OldBlock, f.blocks);
    AtSplit(d, pos, returnType, count + body);
    AtSplit(d, pos + 1, count, body);
    NumbersRead(d, pos, f.returnType);
    NumbersRead(d, pos + 1, |f.blocks|);
    var dropped := DroppedFunction(f).blocks;
    forall k, p: nat | 0 <= k < |f.blocks| && At(d, p, OldBlock(f.blocks[k]))
      ensures BlockReader(d, 0)(p) == Ok((dropped[k], p + |OldBlock(f.blocks[k])|))
    {
      OldBlockReads(d, p, f.blocks[k]);
    }
    ListReads(d, pos + 5, OldBlock, BlockReader(d, 0), f.blocks, dropped);
  }

  lemma OldFunctionReads(d: seq<Byte>, pos: nat, f: Function)
    requires OldFunctionFits(f) && At(d, pos, OldFunction(f))
    ensures FunctionAt(d, pos, 0) == Ok((DroppedFunction(f), pos + |OldFunction(f)|))
  {
    hide At, LittleEndian, U8At, U32At, ListAt, Concat, HeadAt, TailAt, FunctionHead, OldTail, DroppedBlock, BlockFits, OldBlockFits;
    var count, params := LittleEndian(|f.params|, 1), Concat(ParamBytes, f.params);
    AtSplit(d, pos, FunctionHead(f), (count + params) + OldTail(f));
    FunctionHeadReads(d, pos, f);
    var next := pos + |FunctionHead(f)|;
    AtSplit(d, next, count + params, OldTail(f));
    AtSplit(d, next, count, params);
    NumbersRead(d, next, |f.params|);
    var dropped := DroppedFunction(f).params;
    forall k, p: nat | 0 <= k < |f.params| && At(d, p, ParamBytes(f.params[k]))
      ensures ParamReader(d)(p) == Ok((dropped[k], p + |ParamBytes(f.params[k])|))
    {
      NumbersRead(d, p, f.params[k].ty);
    }
    ListReads(d, next + 1, ParamBytes, ParamReader(d), f.params, dropped);
    OldTailReads(d, next + 1 + |params|, f);
  }

  lemma OldProgramReads(d: seq<Byte>, pos: nat, p: Program)
    requires OldFits(p) && At(d, pos, OldProgram(p))
    ensures ProgramAt(d, pos, 0) == Ok((Dropped(p), pos + |OldProgram(p)|))
  {
    hide At, LittleEndian, U32At, ListAt, Concat, FunctionAt, OldFunction, DroppedFunction, OldFunctionFits;
    var count, functions, entry := LittleEndian(|p.functions|, 4), Concat(OldFunction, p.functions), LittleEndian(p.entryIndex, 4);
    AtSplit(d, pos, count, functions + entry);
    AtSplit(d, pos + 4, functions, entry);
    NumbersRead(d, pos, |p.functions|);
    var dropped := Dropped(p).functions;
    forall k, q: nat | 0 <= k < |p.functions| && At(d, q, OldFunction(p.functions[k]))
      ensures FunctionReader(d, 0)(q) == Ok((dropped[k], q + |OldFunction(p.functions[k])|))
    {
      OldFunctionReads(d, q, p.functions[k]);
    }
    ListReads(d, pos + 4, OldFunction, FunctionReader(d, 0), p.functions, dropped);
    NumbersRead(d, pos + 4 + |functions|, p.entryIndex);
  }

  // ---------------------------------------------------------------- files

  // Where the sentinel would be stands the number of functions.
  lemma OldHeader(p: Program, tail: seq<Byte>)
    requires |p.functions| < 0xFFFF_FFFF
    ensures HeaderOf(MAGIC + (OldProgram(p) + tail)) == Ok((6, 0))
    ensures (MAGIC + (OldProgram(p) + tail))[6..] == OldProgram(p) + tail
  {
    hide LittleEndian, FromLittleEndian, Concat;
    var bytes := MAGIC + (OldProgram(p) + tail);
    assert bytes[..6] == MAGIC && |bytes| >= 14;
    assert bytes[6..10] == LittleEndian(|p.functions|, 4);
    Pow2Literals();
    LittleEndianReads(|p.functions|, 4);
  }

  // The sentinel followed by version 0 announces the old layout as well.
  lemma OldHeaderWithVersion(d: seq<Byte>)
    ensures var bytes := MAGIC + (LittleEndian(VERSION_SENTINEL, 4) + (LittleEndian(0, 4) + d));
      HeaderOf(bytes) == Ok((14, 0)) && bytes[14..] == d
  {
    hide LittleEndian, FromLittleEndian;
    var sentinel, version := LittleEndian(VERSION_SENTINEL, 4), LittleEndian(0, 4);
    var bytes := MAGIC + (sentinel + (version + d));
    assert bytes[..6] == MAGIC && bytes[6..10] == sentinel && bytes[10..14] == version;
    Pow2Literals();
    LittleEndianReads(VERSION_SENTINEL, 4);
    LittleEndianReads(0, 4);
  }

  // A file of the old layout, without a version word or with version 0, reads back as its program, whatever follows
  // it; one with 2^32 - 1 functions would be taken for one with a version word.
  lemma OldFilesRead(p: Program, tail: seq<Byte>)
    requires OldFits(p)
    ensures |p.functions| < 0xFFFF_FFFF ==> ReadUoSpec(MAGIC + (OldProgram(p) + tail)) == Ok(Dropped(p))
    ensures ReadUoSpec(MAGIC + (LittleEndian(VERSION_SENTINEL, 4) + (LittleEndian(0, 4) + (OldProgram(p) + tail)))) == Ok(Dropped(p))
  {
    hide HeaderOf, OldProgram, ProgramAt, Dropped, LittleEndian, OldFunctionFits;
    var d := OldProgram(p) + tail;
    assert At(d, 0, OldProgram(p)) by { assert d[0..|OldProgram(p)|] == OldProgram(p); }
    OldProgramReads(d, 0, p);
    OldHeaderWithVersion(d);
    if |p.functions| < 0xFFFF_FFFF { OldHeader(p, tail); }
  }
}
