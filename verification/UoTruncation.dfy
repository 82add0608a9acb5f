// Files that are not what was written: cut short, or holding what no program can.

module UoTruncation {
  import opened Ast
  import opened Bits
  import opened UoFormat
  import opened UoRoundTrip

  // Unless r runs out of bytes, s reads the same or fails alike.
  ghost predicate Extends<T>(r: Parsed<T>, s: Parsed<T>) { r == Err(UnexpectedEnd) || s == r }

  // ---------------------------------------------------------------- more bytes behind change nothing

  lemma NumberExtends(d: seq<Byte>, e: seq<Byte>, pos: nat, n: nat)
    requires d <= e
    ensures Extends(NumberAt(d, pos, n), NumberAt(e, pos, n))
  {
    if pos + n <= |d| { assert d[pos..pos + n] == e[pos..pos + n]; }
  }

  lemma NumbersExtend(d: seq<Byte>, e: seq<Byte>, pos: nat)
    requires d <= e
    ensures Extends(U8At(d, pos), U8At(e, pos)) && Extends(U16At(d, pos), U16At(e, pos))
    ensures Extends(U32At(d, pos), U32At(e, pos)) && Extends(U64At(d, pos), U64At(e, pos))
  {
    hide NumberAt;
    NumberExtends(d, e, pos, 2);
    NumberExtends(d, e, pos, 4);
    NumberExtends(d, e, pos, 8);
  }

  lemma StringExtends(d: seq<Byte>, e: seq<Byte>, pos: nat)
    requires d <= e
    ensures Extends(StringAt(d, pos), StringAt(e, pos))
  {
    hide U32At;
    NumbersExtend(d, e, pos);
    if StringAt(d, pos).Ok? {
      var n := U32At(d, pos).value;
      assert d[n.1..n.1 + n.0] == e[n.1..n.1 + n.0];
    }
  }

  lemma {:induction false} ListExtends<T>(r: nat -> Parsed<T>, s: nat -> Parsed<T>, pos: nat, count: nat)
    requires forall p: nat :: Extends(r(p), s(p))
    ensures Extends(ListAt(r, pos, count), ListAt(s, pos, count))
    decreases count
  {
    if count > 0 {
      assert Extends(r(pos), s(pos));
      if r(pos).Ok? { ListExtends(r, s, r(pos).value.1, count - 1); }
    }
  }

  lemma ListsExtend<T>(r: nat -> Parsed<T>, s: nat -> Parsed<T>)
    requires forall p: nat :: Extends(r(p), s(p))
    ensures forall pos: nat, count: nat :: Extends(ListAt(r, pos, count), ListAt(s, pos, count))
  {
    forall pos: nat, count: nat ensures Extends(ListAt(r, pos, count), ListAt(s, pos, count)) { ListExtends(r, s, pos, count); }
  }

  lemma OperandExtends(d: seq<Byte>, e: seq<Byte>, pos: nat)
    requires d <= e
    ensures Extends(OperandAt(d, pos), OperandAt(e, pos))
  {
    hide U8At, U32At, U64At, StringAt;
    NumbersExtend(d, e, pos);
    if U8At(d, pos).Ok? {
      NumbersExtend(d, e, U8At(d, pos).value.1);
      StringExtends(d, e, U8At(d, pos).value.1);
    }
  }

  lemma OpcodeExtends(d: seq<Byte>, e: seq<Byte>, pos: nat, version: nat)
    requires d <= e
    ensures Extends(OpcodeAt(d, pos, version), OpcodeAt(e, pos, version))
  {
    forall p: nat
      ensures Extends(U8At(d, p), U8At(e, p)) && Extends(U16At(d, p), U16At(e, p))
    {
      NumbersExtend(d, e, p);
    }
    hide U8At, U16At;
  }

  lemma InstructionExtends(d: seq<Byte>, e: seq<Byte>, pos: nat, version: nat)
    requires d <= e
    ensures Extends(InstructionAt(d, pos, version), InstructionAt(e, pos, version))
  {
    OpcodeExtends(d, e, pos, version);
    AllNumbersExtend(d, e);
    forall p: nat ensures Extends(OperandReader(d)(p), OperandReader(e)(p)) { OperandExtends(d, e, p); }
    hide U8At, U32At, ListAt, OpcodeAt, OperandAt, OperandReader;
    ListsExtend(OperandReader(d), OperandReader(e));
  }

  lemma AllNumbersExtend(d: seq<Byte>, e: seq<Byte>)
    requires d <= e
    ensures forall p: nat :: Extends(U8At(d, p), U8At(e, p))
    ensures forall p: nat :: Extends(U32At(d, p), U32At(e, p))
    ensures forall p: nat :: Extends(StringAt(d, p), StringAt(e, p))
  {
    forall p: nat
      ensures Extends(U8At(d, p), U8At(e, p)) && Extends(U32At(d, p), U32At(e, p)) && Extends(StringAt(d, p), StringAt(e, p))
    {
      NumbersExtend(d, e, p);
      StringExtends(d, e, p);
    }
  }

  lemma BlockExtends(d: seq<Byte>, e: seq<Byte>, pos: nat, version: nat)
    requires d <= e
    ensures Extends(BlockAt(d, pos, version), BlockAt(e, pos, version))
  {
    AllNumbersExtend(d, e);
    forall p: nat ensures Extends(InstructionReader(d, version)(p), InstructionReader(e, version)(p)) {
      InstructionExtends(d, e, p, version);
    }
    hide U8At, U32At, StringAt, ListAt, InstructionAt, InstructionReader;
    ListsExtend(InstructionReader(d, version), InstructionReader(e, version));
  }

  lemma HeadExtends(d: seq<Byte>, e: seq<Byte>, pos: nat)
    requires d <= e
    ensures Extends(HeadAt(d, pos), HeadAt(e, pos))
  {
    AllNumbersExtend(d, e);
    hide U8At, StringAt;
  }

  lemma FunctionExtends(d: seq<Byte>, e: seq<Byte>, pos: nat, version: nat)
    requires d <= e
    ensures Extends(FunctionAt(d, pos, version), FunctionAt(e, pos, version))
  {
    AllNumbersExtend(d, e);
    forall p: nat ensures Extends(ParamReader(d)(p), ParamReader(e)(p)) { NumbersExtend(d, e, p); }
    forall p: nat ensures Extends(TailAt(d, p, version), TailAt(e, p, version)) { TailExtends(d, e, p, version); }
    HeadExtends(d, e, pos);
    hide U8At, U32At, StringAt, ListAt, ParamAt, ParamReader, TailAt, HeadAt;
    ListsExtend(ParamReader(d), ParamReader(e));
  }

  lemma TailExtends(d: seq<Byte>, e: seq<Byte>, pos: nat, version: nat)
    requires d <= e
    ensures Extends(TailAt(d, pos, version), TailAt(e, pos, version))
  {
    AllNumbersExtend(d, e);
    forall p: nat ensures Extends(BlockReader(d, version)(p), BlockReader(e, version)(p)) { BlockExtends(d, e, p, version); }
    hide U8At, U32At, StringAt, ListAt, BlockAt, BlockReader;
    ListsExtend(BlockReader(d, version), BlockReader(e, version));
  }

  lemma ProgramExtends(d: seq<Byte>, e: seq<Byte>, pos: nat, version: nat)
    requires d <= e
    ensures Extends(ProgramAt(d, pos, version), ProgramAt(e, pos, version))
    ensures ProgramAt(d, pos, version).Ok? ==> ProgramAt(d, pos, version).value.1 <= |d|
  {
    AllNumbersExtend(d, e);
    forall p: nat ensures Extends(FunctionReader(d, version)(p), FunctionReader(e, version)(p)) { FunctionExtends(d, e, p, version); }
    hide U8At, StringAt, ListAt, FunctionAt, FunctionReader;
    ListsExtend(FunctionReader(d, version), FunctionReader(e, version));
  }

  // ---------------------------------------------------------------- strict prefixes

  // A program that is cut short never reads, whatever version word stands before it.
  lemma CutProgramFails(p: Program, n: nat)
    requires ProgramFits(p) && n < |ProgramBytes(p)|
    ensures ProgramAt(ProgramBytes(p)[..n], 0, 1) == Err(UnexpectedEnd)
  {
    hide ProgramAt, ProgramBytes, ProgramFits, Dropped;
    var d := ProgramBytes(p);
    assert At(d, 0, d) by { assert d[0..|d|] == d; }
    ProgramReads(d, 0, p);
    ProgramExtends(d[..n], d, 0, 1);
  }

  // Cut before the version word is complete, the sentinel reads as a number of functions that are not there.
  lemma CutHeaderFails(d: seq<Byte>)
    requires |d| < 8 && (|d| >= 4 ==> FromLittleEndian(d[0..4]) == 0xFFFF_FFFF)
    ensures ProgramAt(d, 0, 0) == Err(UnexpectedEnd)
  {
    if |d| >= 4 {
      assert U32At(d, 0) == Ok((0xFFFF_FFFF, 4));
      hide FromLittleEndian;
      assert U32At(d, 4) == Err(UnexpectedEnd);
      assert FunctionAt(d, 4, 0) == Err(UnexpectedEnd);
      assert ListAt(FunctionReader(d, 0), 4, 0xFFFF_FFFF) == Err(UnexpectedEnd);
    }
  }

  // The parts of a file that starts with the magic, the sentinel and the version.
  lemma CutParts(magic: seq<Byte>, sentinel: seq<Byte>, version: seq<Byte>, body: seq<Byte>, n: nat)
    requires |magic| == 6 && |sentinel| == 4 && |version| == 4 && n <= 14 + |body|
    ensures n >= 6 ==> (magic + (sentinel + (version + body)))[..n][..6] == magic
    ensures n >= 10 ==> (magic + (sentinel + (version + body)))[..n][6..10] == sentinel
    ensures n >= 14 ==> (magic + (sentinel + (version + body)))[..n][10..14] == version
    ensures n >= 14 ==> (magic + (sentinel + (version + body)))[..n][14..] == body[..n - 14]
  {
    var rest := version + body;
    var w := magic + (sentinel + rest);
    assert w[..6] == magic && w[6..] == sentinel + rest;
    assert w[6..][..4] == sentinel && w[6..][4..] == rest;
    assert rest[..4] == version && rest[4..] == body;
    assert w[6..10] == w[6..][..4] && w[10..] == w[6..][4..];
    assert w[10..14] == w[10..][..4] && w[14..] == w[10..][4..];
    if n >= 6 { assert w[..n][..6] == w[..6]; }
    if n >= 10 { assert w[..n][6..10] == w[6..10]; }
    if n >= 14 { assert w[..n][10..14] == w[10..14] && w[..n][14..] == w[14..][..n - 14]; }
  }

  lemma HeaderCases(cut: seq<Byte>)
    requires |cut| >= 6 ==> cut[..6] == MAGIC
    requires |cut| >= 14 ==> FromLittleEndian(cut[6..10]) == 0xFFFF_FFFF && FromLittleEndian(cut[10..14]) == 1
    ensures HeaderOf(cut) == if |cut| < 6 then Err(BadMagic) else if |cut| < 14 then Ok((6, 0)) else Ok((14, 1))
  {
    hide FromLittleEndian;
  }

  lemma CutHeader(p: Program, n: nat)
    requires n < |UoBytes(p)|
    ensures HeaderOf(UoBytes(p)[..n]) == if n < 6 then Err(BadMagic) else if n < 14 then Ok((6, 0)) else Ok((14, 1))
    ensures n >= 10 ==> FromLittleEndian(UoBytes(p)[..n][6..10]) == 0xFFFF_FFFF
    ensures n >= 14 ==> UoBytes(p)[..n][14..] == ProgramBytes(p)[..n - 14]
  {
    var sentinel, version := LittleEndian(VERSION_SENTINEL, 4), LittleEndian(VERSION, 4);
    assert UoBytes(p) == MAGIC + (sentinel + (version + ProgramBytes(p)));
    Pow2Literals();
    LittleEndianReads(VERSION_SENTINEL, 4);
    LittleEndianReads(VERSION, 4);
    hide *;
    CutParts(MAGIC, sentinel, version, ProgramBytes(p), n);
    HeaderCases(UoBytes(p)[..n]);
  }

  // readUo rejects every strict prefix of a written file: cuts inside the magic, the sentinel, the version
  // and the program.
  lemma EveryCutFails(p: Program, n: nat)
    requires ProgramFits(p) && n < |UoBytes(p)|
    ensures ReadUoSpec(UoBytes(p)[..n]) == Err(if n < 6 then BadMagic else UnexpectedEnd)
  {
    assert |UoBytes(p)| == 14 + |ProgramBytes(p)|;
    hide ProgramAt, ProgramBytes, ProgramFits, UoBytes, HeaderOf, FromLittleEndian;
    CutHeader(p, n);
    if 6 <= n < 14 {
      var cut := UoBytes(p)[..n];
      if n >= 10 { assert cut[6..][0..4] == cut[6..10]; }
      CutHeaderFails(cut[6..]);
    } else if 14 <= n {
      CutProgramFails(p, n - 14);
    }
  }

  // ---------------------------------------------------------------- what can be read fits

  lemma {:induction false} ListGives<T(!new)>(read: nat -> Parsed<T>, good: T -> bool, pos: nat, count: nat)
    requires forall p: nat :: read(p).Ok? ==> good(read(p).value.0)
    ensures ListAt(read, pos, count).Ok? ==>
      |ListAt(read, pos, count).value.0| == count && forall x :: x in ListAt(read, pos, count).value.0 ==> good(x)
    decreases count
  {
    if count > 0 && read(pos).Ok? { ListGives(read, good, read(pos).value.1, count - 1); }
  }

  lemma StringGives(d: seq<Byte>, pos: nat)
    ensures StringAt(d, pos).Ok? ==> StringFits(StringAt(d, pos).value.0)
  {
    hide U32At;
  }

  lemma OperandGives(d: seq<Byte>, pos: nat)
    ensures OperandAt(d, pos).Ok? ==> OperandFits(OperandAt(d, pos).value.0)
  {
    hide U8At, U32At, U64At, StringAt, StringFits;
    if U8At(d, pos).Ok? { StringGives(d, U8At(d, pos).value.1); }
  }

  lemma InstructionGives(d: seq<Byte>, pos: nat, version: nat)
    ensures InstructionAt(d, pos, version).Ok? ==> InstructionFits(InstructionAt(d, pos, version).value.0)
  {
    forall p: nat ensures OperandReader(d)(p).Ok? ==> OperandFits(OperandReader(d)(p).value.0) { OperandGives(d, p); }
    hide OpcodeAt, U8At, U32At, ListAt, OperandReader, OperandFits;
    if InstructionAt(d, pos, version).Ok? {
      var op := OpcodeAt(d, pos, version).value;
      var hasDest := U8At(d, op.1).value;
      var dest := U32At(d, hasDest.1).value;
      var count := U8At(d, dest.1).value;
      ListGives(OperandReader(d), OperandFits, count.1, count.0);
    }
  }

  lemma BlockGives(d: seq<Byte>, pos: nat, version: nat)
    ensures BlockAt(d, pos, version).Ok? ==> BlockFits(BlockAt(d, pos, version).value.0)
  {
    StringGives(d, pos);
    forall p: nat ensures InstructionReader(d, version)(p).Ok? ==> InstructionFits(InstructionReader(d, version)(p).value.0) {
      InstructionGives(d, p, version);
    }
    hide U32At, StringAt, StringFits, ListAt, InstructionReader, InstructionFits;
    if BlockAt(d, pos, version).Ok? {
      var count := U32At(d, StringAt(d, pos).value.1).value;
      ListGives(InstructionReader(d, version), InstructionFits, count.1, count.0);
    }
  }

  lemma FunctionGives(d: seq<Byte>, pos: nat, version: nat)
    ensures FunctionAt(d, pos, version).Ok? ==> FunctionFits(FunctionAt(d, pos, version).value.0)
  {
    forall p: nat ensures BlockReader(d, version)(p).Ok? ==> BlockFits(BlockReader(d, version)(p).value.0) {
      BlockGives(d, p, version);
    }
    forall p: nat ensures StringAt(d, p).Ok? ==> StringFits(StringAt(d, p).value.0) { StringGives(d, p); }
    hide U8At, U32At, StringAt, StringFits, ListAt, BlockReader, BlockFits, ParamReader;
    if FunctionAt(d, pos, version).Ok? {
      var head := HeadAt(d, pos).value;
      var paramCount := U8At(d, head.1).value;
      ListGives(ParamReader(d), (p: Param) => true, paramCount.1, paramCount.0);
      var params := ListAt(ParamReader(d), paramCount.1, paramCount.0).value;
      var returnType := U8At(d, params.1).value;
      var count := U32At(d, returnType.1).value;
      ListGives(BlockReader(d, version), BlockFits, count.1, count.0);
    }
  }

  lemma ProgramGives(d: seq<Byte>, pos: nat, version: nat)
    ensures ProgramAt(d, pos, version).Ok? ==> ProgramFits(ProgramAt(d, pos, version).value.0)
  {
    forall p: nat ensures FunctionReader(d, version)(p).Ok? ==> FunctionFits(FunctionReader(d, version)(p).value.0) {
      FunctionGives(d, p, version);
    }
    hide U32At, ListAt, FunctionReader, FunctionFits;
    if ProgramAt(d, pos, version).Ok? {
      var count := U32At(d, pos).value;
      ListGives(FunctionReader(d, version), FunctionFits, count.1, count.0);
    }
  }

  // ---------------------------------------------------------------- exactly the programs that fit

  lemma OperandKeepsFit(op: Operand)
    ensures OperandFits(DroppedOperand(op)) == OperandFits(op)
  {
  }

  lemma InstructionKeepsFit(i: Instruction)
    ensures InstructionFits(DroppedInstruction(i)) ==> InstructionFits(i)
  {
    var j := DroppedInstruction(i);
    hide OperandFits;
    if InstructionFits(j) {
      forall k | 0 <= k < |i.operands| ensures OperandFits(i.operands[k]) {
        assert OperandFits(j.operands[k]);
        OperandKeepsFit(i.operands[k]);
      }
    }
  }

  lemma BlockKeepsFit(b: Block)
    ensures BlockFits(DroppedBlock(b)) ==> BlockFits(b)
  {
    var c := DroppedBlock(b);
    hide InstructionFits, DroppedInstruction;
    if BlockFits(c) {
      forall k | 0 <= k < |b.instructions| ensures InstructionFits(b.instructions[k]) {
        assert InstructionFits(c.instructions[k]);
        InstructionKeepsFit(b.instructions[k]);
      }
    }
  }

  lemma FunctionKeepsFit(f: Function)
    ensures FunctionFits(DroppedFunction(f)) ==> FunctionFits(f)
  {
    var g := DroppedFunction(f);
    hide BlockFits, DroppedBlock;
    if FunctionFits(g) {
      forall k | 0 <= k < |f.blocks| ensures BlockFits(f.blocks[k]) {
        assert BlockFits(g.blocks[k]);
        BlockKeepsFit(f.blocks[k]);
      }
    }
  }

  lemma ProgramKeepsFit(p: Program)
    ensures ProgramFits(Dropped(p)) ==> ProgramFits(p)
  {
    var q := Dropped(p);
    hide FunctionFits, DroppedFunction;
    if ProgramFits(q) {
      forall k | 0 <= k < |p.functions| ensures FunctionFits(p.functions[k]) {
        assert FunctionFits(q.functions[k]);
        FunctionKeepsFit(p.functions[k]);
      }
    }
  }

  // The round trip succeeds for exactly the programs whose counts and strings fit their fields; what follows
  // the program in the file does not matter.
  lemma RoundTripExactly(p: Program, tail: seq<Byte>)
    ensures ReadUoSpec(UoBytes(p) + tail) == Ok(Dropped(p)) <==> ProgramFits(p)
  {
    hide ProgramAt, ProgramFits, UoBytes, Dropped, HeaderOf;
    if ProgramFits(p) {
      WrittenReads(p, tail);
    } else if ReadUoSpec(UoBytes(p) + tail) == Ok(Dropped(p)) {
      var h := HeaderOf(UoBytes(p) + tail).value;
      ProgramGives((UoBytes(p) + tail)[h.0..], 0, h.1);
      ProgramKeepsFit(p);
    }
  }
}
