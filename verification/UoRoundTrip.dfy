// Reading back what was written, and rejecting what was cut short.

module UoRoundTrip {
  import opened Ast
  import opened Bits
  import opened UoFormat

  // The bytes b stand in d from position pos on.
  predicate At(d: seq<Byte>, pos: nat, b: seq<Byte>) {
    pos + |b| <= |d| && d[pos..pos + |b|] == b
  }

  lemma AtSplit(d: seq<Byte>, pos: nat, a: seq<Byte>, b: seq<Byte>)
    requires At(d, pos, a + b)
    ensures At(d, pos, a) && At(d, pos + |a|, b)
  {
    var w := d[pos..pos + |a + b|];
    assert d[pos..pos + |a|] == w[..|a|];
    assert d[pos + |a|..pos + |a| + |b|] == w[|a|..];
  }

  lemma {:induction false} LittleEndianReads(v: nat, n: nat)
    requires v < Pow2(8 * n)
    ensures FromLittleEndian(LittleEndian(v, n)) == v
  {
    if n > 0 {
      Pow2Add(8, 8 * (n - 1));
      Pow2Literals();
      assert Pow2(8 * n) == 0x100 * Pow2(8 * (n - 1));
      LittleEndianReads(v / 0x100, n - 1);
      assert LittleEndian(v, n)[1..] == LittleEndian(v / 0x100, n - 1);
    }
  }

  lemma NumberReads(d: seq<Byte>, pos: nat, v: nat, n: nat)
    requires v < Pow2(8 * n) && At(d, pos, LittleEndian(v, n))
    ensures NumberAt(d, pos, n) == Ok((v, pos + n))
  {
    LittleEndianReads(v, n);
  }

  lemma NumbersRead(d: seq<Byte>, pos: nat, v: nat)
    ensures v < 0x100 && At(d, pos, LittleEndian(v, 1)) ==> U8At(d, pos) == Ok((v, pos + 1))
    ensures v < 0x1_0000 && At(d, pos, LittleEndian(v, 2)) ==> U16At(d, pos) == Ok((v, pos + 2))
    ensures v < 0x1_0000_0000 && At(d, pos, LittleEndian(v, 4)) ==> U32At(d, pos) == Ok((v, pos + 4))
    ensures v < TWO64 && At(d, pos, LittleEndian(v, 8)) ==> U64At(d, pos) == Ok((v, pos + 8))
  {
    Pow2Literals();
    hide Pow2, LittleEndian, FromLittleEndian, NumberAt, At;
    if v < 0x100 && At(d, pos, LittleEndian(v, 1)) { ByteReads(d, pos, v); }
    if v < 0x1_0000 && At(d, pos, LittleEndian(v, 2)) { NumberReads(d, pos, v, 2); }
    if v < 0x1_0000_0000 && At(d, pos, LittleEndian(v, 4)) { NumberReads(d, pos, v, 4); }
    if v < TWO64 && At(d, pos, LittleEndian(v, 8)) { NumberReads(d, pos, v, 8); }
  }

  lemma ByteReads(d: seq<Byte>, pos: nat, v: nat)
    requires v < 0x100 && At(d, pos, LittleEndian(v, 1))
    ensures U8At(d, pos) == Ok((v, pos + 1))
  {
    assert LittleEndian(v, 1)[0] == v;
  }

  lemma StringReads(d: seq<Byte>, pos: nat, s: string)
    requires StringFits(s) && At(d, pos, StringBytes(s))
    ensures StringAt(d, pos) == Ok((s, pos + |StringBytes(s)|))
  {
    hide LittleEndian, FromLittleEndian, NumberAt;
    AtSplit(d, pos, LittleEndian(|s|, 4), CharBytes(s));
    NumbersRead(d, pos, |s|);
    assert d[pos + 4..pos + 4 + |s|] == CharBytes(s);
    assert Chars(CharBytes(s)) == s;
  }

  // A list reads back when each element does.
  lemma {:induction false} ListReads<T, U>(d: seq<Byte>, pos: nat, encode: T -> seq<Byte>, read: nat -> Parsed<U>, xs: seq<T>, ys: seq<U>)
    requires |xs| == |ys| && At(d, pos, Concat(encode, xs))
    requires forall k, p: nat :: 0 <= k < |xs| && At(d, p, encode(xs[k])) ==> read(p) == Ok((ys[k], p + |encode(xs[k])|))
    ensures ListAt(read, pos, |xs|) == Ok((ys, pos + |Concat(encode, xs)|))
    decreases |xs|
  {
    hide At;
    if xs != [] {
      AtSplit(d, pos, encode(xs[0]), Concat(encode, xs[1..]));
      ListReads(d, pos + |encode(xs[0])|, encode, read, xs[1..], ys[1..]);
      assert [ys[0]] + ys[1..] == ys;
    } else {
      assert ys == [];
    }
  }

  lemma OperandReads(d: seq<Byte>, pos: nat, op: Operand)
    requires OperandFits(op) && At(d, pos, OperandBytes(op))
    ensures OperandAt(d, pos) == Ok((DroppedOperand(op), pos + |OperandBytes(op)|))
  {
    var body := OperandBytes(op)[1..];
    assert OperandBytes(op) == [OperandBytes(op)[0]] + body;
    AtSplit(d, pos, [OperandBytes(op)[0]], body);
    hide LittleEndian, FromLittleEndian, NumberAt, U32At, U64At, StringAt, StringBytes;
    assert d[pos] == OperandBytes(op)[0];
    match op
    case Register(reg) => NumbersRead(d, pos + 1, reg);
    case ImmediateInt(v) => NumbersRead(d, pos + 1, AsUnsigned(v));
    case ImmediateFloat(bits) => NumbersRead(d, pos + 1, bits);
    case Label(name) => StringReads(d, pos + 1, name);
    case Symbol(name) => StringReads(d, pos + 1, name);
  }

  lemma FlagReads(d: seq<Byte>, pos: nat, b: bool)
    requires At(d, pos, Flag(b))
    ensures U8At(d, pos).Ok? && U8At(d, pos).value.1 == pos + 1 && (U8At(d, pos).value.0 != 0) == b
  {
    NumbersRead(d, pos, if b then 1 else 0);
  }

  lemma InstructionReads(d: seq<Byte>, pos: nat, i: Instruction)
    requires InstructionFits(i) && At(d, pos, InstructionBytes(i))
    ensures InstructionAt(d, pos, 1) == Ok((DroppedInstruction(i), pos + |InstructionBytes(i)|))
  {
    hide At, LittleEndian, U8At, U16At, U32At, ListAt, Concat, OperandBytes, OperandAt, Flag, DroppedOperand, OperandFits;
    var count, body := LittleEndian(|i.operands|, 1), Concat(OperandBytes, i.operands);
    AtSplit(d, pos, InstructionHead(i), count + body);
    HeadReads(d, pos, i);
    AtSplit(d, pos + 9, count, body);
    NumbersRead(d, pos + 9, |i.operands|);
    var dropped := DroppedInstruction(i).operands;
    forall k, p: nat | 0 <= k < |i.operands| && At(d, p, OperandBytes(i.operands[k]))
      ensures OperandReader(d)(p) == Ok((dropped[k], p + |OperandBytes(i.operands[k])|))
    {
      OperandReads(d, p, i.operands[k]);
    }
    ListReads(d, pos + 10, OperandBytes, OperandReader(d), i.operands, dropped);
  }

  lemma HeadReads(d: seq<Byte>, pos: nat, i: Instruction)
    requires At(d, pos, InstructionHead(i))
    ensures |InstructionHead(i)| == 9
    ensures OpcodeAt(d, pos, 1) == Ok(((i.opcode, i.ty, i.ty2), pos + 4))
    ensures U8At(d, pos + 4).Ok? && U8At(d, pos + 4).value.1 == pos + 5 && (U8At(d, pos + 4).value.0 != 0) == i.hasDest
    ensures U32At(d, pos + 5) == Ok((i.dest, pos + 9))
  {
    hide At, LittleEndian, U8At, U16At, U32At;
    var opcode, ty, ty2, dest := LittleEndian(i.opcode, 2), LittleEndian(i.ty, 1), LittleEndian(i.ty2, 1), LittleEndian(i.dest, 4);
    AtSplit(d, pos, opcode, ty + (ty2 + (Flag(i.hasDest) + dest)));
    AtSplit(d, pos + 2, ty, ty2 + (Flag(i.hasDest) + dest));
    AtSplit(d, pos + 3, ty2, Flag(i.hasDest) + dest);
    AtSplit(d, pos + 4, Flag(i.hasDest), dest);
    NumbersRead(d, pos, i.opcode);
    NumbersRead(d, pos + 2, i.ty);
    NumbersRead(d, pos + 3, i.ty2);
    FlagReads(d, pos + 4, i.hasDest);
    NumbersRead(d, pos + 5, i.dest);
  }

  lemma BlockReads(d: seq<Byte>, pos: nat, b: Block)
    requires BlockFits(b) && At(d, pos, BlockBytes(b))
    ensures BlockAt(d, pos, 1) == Ok((DroppedBlock(b), pos + |BlockBytes(b)|))
  {
    hide At, LittleEndian, U32At, StringAt, StringBytes, ListAt, Concat, InstructionBytes, InstructionAt, DroppedInstruction, InstructionFits;
    var count, body := LittleEndian(|b.instructions|, 4), Concat(InstructionBytes, b.instructions);
    AtSplit(d, pos, StringBytes(b.labelName), count + body);
    StringReads(d, pos, b.labelName);
    var next := pos + |StringBytes(b.labelName)|;
    AtSplit(d, next, count, body);
    NumbersRead(d, next, |b.instructions|);
    var dropped := DroppedBlock(b).instructions;
    forall k, p: nat | 0 <= k < |b.instructions| && At(d, p, InstructionBytes(b.instructions[k]))
      ensures InstructionReader(d, 1)(p) == Ok((dropped[k], p + |InstructionBytes(b.instructions[k])|))
    {
      InstructionReads(d, p, b.instructions[k]);
    }
    ListReads(d, next + 4, InstructionBytes, InstructionReader(d, 1), b.instructions, dropped);
  }

  lemma FunctionHeadReads(d: seq<Byte>, pos: nat, f: Function)
    requires StringFits(f.name) && StringFits(f.moduleName) && At(d, pos, FunctionHead(f))
    ensures HeadAt(d, pos) == Ok(((f.name, f.moduleName, f.isExported), pos + |FunctionHead(f)|))
  {
    hide At, LittleEndian, U8At, StringAt, StringBytes;
    var next := pos + |StringBytes(f.name)|;
    AtSplit(d, pos, StringBytes(f.name), StringBytes(f.moduleName) + Flag(f.isExported));
    AtSplit(d, next, StringBytes(f.moduleName), Flag(f.isExported));
    StringReads(d, pos, f.name);
    StringReads(d, next, f.moduleName);
    FlagReads(d, next + |StringBytes(f.moduleName)|, f.isExported);
  }

  lemma FunctionTailReads(d: seq<Byte>, pos: nat, f: Function)
    requires FunctionFits(f) && At(d, pos, FunctionTail(f))
    ensures TailAt(d, pos, 1) == Ok(((f.returnType, DroppedFunction(f).blocks), pos + |FunctionTail(f)|))
  {
    hide At, LittleEndian, U8At, U32At, ListAt, Concat, BlockBytes, BlockAt, DroppedBlock, BlockFits;
    var returnType, count, body := LittleEndian(f.returnType, 1), LittleEndian(|f.blocks|, 4), Concat(BlockBytes, f.blocks);
    AtSplit(d, pos, returnType, count + body);
    AtSplit(d, pos + 1, count, body);
    NumbersRead(d, pos, f.returnType);
    NumbersRead(d, pos + 1, |f.blocks|);
    var dropped := DroppedFunction(f).blocks;
    forall k, p: nat | 0 <= k < |f.blocks| && At(d, p, BlockBytes(f.blocks[k]))
      ensures BlockReader(d, 1)(p) == Ok((dropped[k], p + |BlockBytes(f.blocks[k])|))
    {
      BlockReads(d, p, f.blocks[k]);
    }
    ListReads(d, pos + 5, BlockBytes, BlockReader(d, 1), f.blocks, dropped);
  }

  lemma FunctionReads(d: seq<Byte>, pos: nat, f: Function)
    requires FunctionFits(f) && At(d, pos, FunctionBytes(f))
    ensures FunctionAt(d, pos, 1) == Ok((DroppedFunction(f), pos + |FunctionBytes(f)|))
  {
    hide At, LittleEndian, U8At, U32At, ListAt, Concat, HeadAt, TailAt, FunctionHead, FunctionTail, DroppedBlock;
    var count, params := LittleEndian(|f.params|, 1), Concat(ParamBytes, f.params);
    AtSplit(d, pos, FunctionHead(f), (count + params) + FunctionTail(f));
    FunctionHeadReads(d, pos, f);
    var next := pos + |FunctionHead(f)|;
    AtSplit(d, next, count + params, FunctionTail(f));
    AtSplit(d, next, count, params);
    NumbersRead(d, next, |f.params|);
    var dropped := DroppedFunction(f).params;
    forall k, p: nat | 0 <= k < |f.params| && At(d, p, ParamBytes(f.params[k]))
      ensures ParamReader(d)(p) == Ok((dropped[k], p + |ParamBytes(f.params[k])|))
    {
      NumbersRead(d, p, f.params[k].ty);
    }
    ListReads(d, next + 1, ParamBytes, ParamReader(d), f.params, dropped);
    FunctionTailReads(d, next + 1 + |params|, f);
  }

  lemma ProgramReads(d: seq<Byte>, pos: nat, p: Program)
    requires ProgramFits(p) && At(d, pos, ProgramBytes(p))
    ensures ProgramAt(d, pos, 1) == Ok((Dropped(p), pos + |ProgramBytes(p)|))
  {
    hide At, LittleEndian, U32At, ListAt, Concat, FunctionAt, FunctionBytes, DroppedFunction, FunctionFits;
    var count, functions, entry := LittleEndian(|p.functions|, 4), Concat(FunctionBytes, p.functions), LittleEndian(p.entryIndex, 4);
    AtSplit(d, pos, count, functions + entry);
    AtSplit(d, pos + 4, functions, entry);
    NumbersRead(d, pos, |p.functions|);
    var dropped := Dropped(p).functions;
    forall k, q: nat | 0 <= k < |p.functions| && At(d, q, FunctionBytes(p.functions[k]))
      ensures FunctionReader(d, 1)(q) == Ok((dropped[k], q + |FunctionBytes(p.functions[k])|))
    {
      FunctionReads(d, q, p.functions[k]);
    }
    ListReads(d, pos + 4, FunctionBytes, FunctionReader(d, 1), p.functions, dropped);
    NumbersRead(d, pos + 4 + |functions|, p.entryIndex);
  }

  lemma HeaderReads(p: Program, tail: seq<Byte>)
    ensures HeaderOf(UoBytes(p) + tail) == Ok((14, 1))
    ensures (UoBytes(p) + tail)[14..] == ProgramBytes(p) + tail
  {
    hide ProgramBytes, LittleEndian, FromLittleEndian;
    var bytes := UoBytes(p) + tail;
    var sentinel, version := LittleEndian(VERSION_SENTINEL, 4), LittleEndian(VERSION, 4);
    assert bytes[..6] == MAGIC;
    assert bytes[6..10] == sentinel && bytes[10..14] == version;
    Pow2Literals();
    LittleEndianReads(VERSION_SENTINEL, 4);
    LittleEndianReads(VERSION, 4);
  }

  // Round trip, with whatever follows the program in the file.
  lemma WrittenReads(p: Program, tail: seq<Byte>)
    requires ProgramFits(p)
    ensures ReadUoSpec(UoBytes(p) + tail) == Ok(Dropped(p))
  {
    hide HeaderOf, UoBytes, ProgramBytes, ProgramAt, ProgramFits, Dropped;
    HeaderReads(p, tail);
    var d := ProgramBytes(p) + tail;
    assert At(d, 0, ProgramBytes(p)) by { assert d[0..|ProgramBytes(p)|] == ProgramBytes(p); }
    ProgramReads(d, 0, p);
  }
}
