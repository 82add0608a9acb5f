// The Writer and the Reader of src/format/serializer.cpp, and writeUo and readUo on byte sequences.

module UoFiles {
  import opened Ast
  import opened Bits
  import opened UoFormat

  // ---------------------------------------------------------------- bytes by shifting

  lemma LowByte(v: nat)
    ensures And(v, 0xFF) == v % 0x100 && Shr(v, 8) == v / 0x100
  {
    Pow2Literals();
    hide *;
    AndLowMask(v, 8);
    ShrLowAreDivMod(v, 8);
  }

  // The byte that `(v >> (i * 8)) & 0xFF` picks is byte number i.
  lemma {:induction false} LittleEndianNext(v: nat, i: nat)
    ensures LittleEndian(v, i + 1) == LittleEndian(v, i) + [And(Shr(v, 8 * i), 0xFF) % 0x100]
    decreases i
  {
    hide And, Shr, LittleEndian;
    LowByte(v);
    FirstByte(v, i);
    if i == 0 {
      PartsAtZero(v);
      FirstByte(v / 0x100, 0);
    } else {
      LittleEndianNext(v / 0x100, i - 1);
      ShrShr(v, 8, 8 * (i - 1));
      assert 8 + 8 * (i - 1) == 8 * i;
      Front([v % 0x100], LittleEndian(v / 0x100, i - 1), LittleEndian(v / 0x100, i), And(Shr(v, 8 * i), 0xFF) % 0x100);
    }
  }

  lemma FirstByte(v: nat, i: nat)
    ensures LittleEndian(v, 0) == [] && LittleEndian(v, i + 1) == [v % 0x100] + LittleEndian(v / 0x100, i)
    ensures i > 0 ==> LittleEndian(v, i) == [v % 0x100] + LittleEndian(v / 0x100, i - 1)
  {
  }

  lemma Front<T>(a: seq<T>, b: seq<T>, c: seq<T>, x: T)
    requires c == b + [x]
    ensures a + c == (a + b) + [x]
  {
  }

  // `v |= x << (i * 8)` adds byte number i.
  lemma FromLittleEndianNext(b: seq<Byte>, x: Byte)
    ensures FromLittleEndian(b + [x]) == Or(FromLittleEndian(b), Shl(x, 8 * |b|))
  {
    hide FromLittleEndian;
    OrDisjoint(x, 8 * |b|, FromLittleEndian(b));
    OrCommutes(Shl(x, 8 * |b|), FromLittleEndian(b));
    FromLittleEndianSum(b, x);
  }

  lemma {:induction false} FromLittleEndianSum(b: seq<Byte>, x: Byte)
    ensures FromLittleEndian(b + [x]) == FromLittleEndian(b) + Shl(x, 8 * |b|)
  {
    if b == [] {
      assert b + [x] == [x] && [x][1..] == [];
    } else {
      FromLittleEndianSum(b[1..], x);
      assert (b + [x])[1..] == b[1..] + [x];
      ShlMore(x, 8 * |b[1..]|);
      assert 8 * |b| == 8 * |b[1..]| + 8;
    }
  }

  lemma ShlMore(x: nat, k: nat)
    ensures Shl(x, k + 8) == 0x100 * Shl(x, k)
  {
    assert Shl(x, k + 8) == 2 * Shl(x, k + 7) && Shl(x, k + 6) == 2 * Shl(x, k + 5);
    assert Shl(x, k + 4) == 2 * Shl(x, k + 3) && Shl(x, k + 2) == 2 * Shl(x, k + 1);
  }

  lemma {:induction false} ConcatNext<T>(encode: T -> seq<Byte>, xs: seq<T>, x: T)
    ensures Concat(encode, xs + [x]) == Concat(encode, xs) + encode(x)
  {
    if xs == [] {
      assert xs + [x] == [x] && [x][1..] == [];
    } else {
      ConcatNext(encode, xs[1..], x);
      assert (xs + [x])[1..] == xs[1..] + [x];
    }
  }

  lemma NoneLeft<T>(encode: T -> seq<Byte>)
    ensures Concat(encode, []) == []
  {
  }

  // ---------------------------------------------------------------- the writer

  class Writer {
    var buf: seq<Byte>

    constructor ()
      ensures buf == []
    {
      buf := [];
    }

    method U8(v: Byte)
      modifies this
      ensures buf == old(buf) + LittleEndian(v, 1)
    {
      buf := buf + [v];
      assert LittleEndian(v, 1) == [v];
    }

    method U16(v: UInt16)
      modifies this
      ensures buf == old(buf) + LittleEndian(v, 2)
    {
      hide LittleEndian, And;
      LittleEndianNext(v, 0);
      LittleEndianNext(v, 1);
      FirstByte(v, 0);
      AndByte(v);
      AndByte(Shr(v, 8));
      buf := buf + [And(v, 0xFF)];
      buf := buf + [And(Shr(v, 8), 0xFF)];
    }

    method U32(v: UInt32)
      modifies this
      ensures buf == old(buf) + LittleEndian(v, 4)
    {
      hide LittleEndian, And, Shr;
      FirstByte(v, 0);
      for i := 0 to 4
        invariant buf == old(buf) + LittleEndian(v, i)
      {
        AndByte(Shr(v, i * 8));
        LittleEndianNext(v, i);
        buf := buf + [And(Shr(v, i * 8), 0xFF)];
      }
    }

    method U64(u: UInt64)
      modifies this
      ensures buf == old(buf) + LittleEndian(u, 8)
    {
      hide LittleEndian, And, Shr;
      FirstByte(u, 0);
      for i := 0 to 8
        invariant buf == old(buf) + LittleEndian(u, i)
      {
        AndByte(Shr(u, i * 8));
        LittleEndianNext(u, i);
        buf := buf + [And(Shr(u, i * 8), 0xFF)];
      }
    }

    // The cast of the size to 32 bits drops what does not fit.
    method Str(s: string)
      modifies this
      ensures buf == old(buf) + StringBytes(s)
    {
      var size := |s| % 0x1_0000_0000;
      LittleEndianCut(|s|, 4);
      Pow2Literals();
      U32(size);
      buf := buf + CharBytes(s);
    }

    method Operand(op: Operand)
      modifies this
      ensures buf == old(buf) + OperandBytes(op)
    {
      hide LittleEndian, StringBytes;
      match op
      case Register(reg) => Kind(0); U32(reg);
      case ImmediateInt(v) => Kind(1); U64(AsUnsigned(v));
      case ImmediateFloat(bits) => Kind(2); U64(bits);
      case Label(name) => Kind(3); Str(name);
      case Symbol(name) => Kind(3); Str(name);
    }

    method Kind(v: Byte)
      modifies this
      ensures buf == old(buf) + [v]
    {
      U8(v);
      assert LittleEndian(v, 1) == [v];
    }

    method Count8(n: nat)
      modifies this
      ensures buf == old(buf) + LittleEndian(n, 1)
    {
      LittleEndianCut(n, 1);
      Pow2Literals();
      U8(n % 0x100);
    }

    method Count32(n: nat)
      modifies this
      ensures buf == old(buf) + LittleEndian(n, 4)
    {
      LittleEndianCut(n, 4);
      Pow2Literals();
      U32(n % 0x1_0000_0000);
    }

    method Instruction(i: Instruction)
      modifies this
      ensures buf == old(buf) + InstructionBytes(i)
    {
      hide LittleEndian, OperandBytes, Concat;
      NoneLeft(OperandBytes);
      U16(i.opcode);
      U8(i.ty);
      U8(i.ty2);
      U8(if i.hasDest then 1 else 0);
      U32(i.dest);
      assert buf == old(buf) + InstructionHead(i);
      Count8(|i.operands|);
      ghost var start := buf;
      assert i.operands[..0] == [];
      for k := 0 to |i.operands|
        invariant buf == start + Concat(OperandBytes, i.operands[..k])
      {
        Operand(i.operands[k]);
        ConcatNext(OperandBytes, i.operands[..k], i.operands[k]);
        assert i.operands[..k + 1] == i.operands[..k] + [i.operands[k]];
      }
      assert i.operands[..|i.operands|] == i.operands;
    }

    method Block(b: Block)
      modifies this
      ensures buf == old(buf) + BlockBytes(b)
    {
      hide LittleEndian, StringBytes, InstructionBytes;
      Str(b.labelName);
      Count32(|b.instructions|);
      ghost var start := buf;
      assert b.instructions[..0] == [];
      for k := 0 to |b.instructions|
        invariant buf == start + Concat(InstructionBytes, b.instructions[..k])
      {
        Instruction(b.instructions[k]);
        ConcatNext(InstructionBytes, b.instructions[..k], b.instructions[k]);
        assert b.instructions[..k + 1] == b.instructions[..k] + [b.instructions[k]];
      }
      assert b.instructions[..|b.instructions|] == b.instructions;
    }

    method Function(f: Function)
      modifies this
      ensures buf == old(buf) + FunctionBytes(f)
    {
      hide LittleEndian, StringBytes, BlockBytes, Concat;
      Str(f.name);
      Str(f.moduleName);
      U8(if f.isExported then 1 else 0);
      assert buf == old(buf) + FunctionHead(f);
      ghost var head := buf;
      Params(f.params);
      ghost var params := buf;
      U8(f.returnType);
      Blocks(f.blocks);
      assert buf == params + FunctionTail(f);
      assert buf == head + ((LittleEndian(|f.params|, 1) + Concat(ParamBytes, f.params)) + FunctionTail(f));
    }

    method Params(ps: seq<Param>)
      modifies this
      ensures buf == old(buf) + (LittleEndian(|ps|, 1) + Concat(ParamBytes, ps))
    {
      hide LittleEndian;
      Count8(|ps|);
      ghost var start := buf;
      assert ps[..0] == [];
      for k := 0 to |ps|
        invariant buf == start + Concat(ParamBytes, ps[..k])
      {
        U8(ps[k].ty);
        ConcatNext(ParamBytes, ps[..k], ps[k]);
        assert ps[..k + 1] == ps[..k] + [ps[k]];
      }
      assert ps[..|ps|] == ps;
    }

    method Blocks(bs: seq<Block>)
      modifies this
      ensures buf == old(buf) + (LittleEndian(|bs|, 4) + Concat(BlockBytes, bs))
    {
      hide LittleEndian, BlockBytes;
      Count32(|bs|);
      ghost var start := buf;
      assert bs[..0] == [];
      for k := 0 to |bs|
        invariant buf == start + Concat(BlockBytes, bs[..k])
      {
        Block(bs[k]);
        ConcatNext(BlockBytes, bs[..k], bs[k]);
        assert bs[..k + 1] == bs[..k] + [bs[k]];
      }
      assert bs[..|bs|] == bs;
    }
  }

  lemma AndByte(v: nat)
    ensures And(v, 0xFF) < 0x100
  {
    AndLowMask(v, 8);
    SplitAt(v, 8);
    Pow2Literals();
  }

  lemma {:induction false} LittleEndianCut(v: nat, n: nat)
    ensures LittleEndian(v % Pow2(8 * n), n) == LittleEndian(v, n)
    decreases n
  {
    if n > 0 {
      var p := Pow2(8 * (n - 1));
      Pow2Add(8, 8 * (n - 1));
      Pow2Literals();
      assert Pow2(8 * n) == 0x100 * p;
      CutDigit(v, p);
      LittleEndianCut(v / 0x100, n - 1);
    }
  }

  lemma CutDigit(v: nat, p: nat)
    requires p >= 1
    ensures (v % (0x100 * p)) % 0x100 == v % 0x100
    ensures (v % (0x100 * p)) / 0x100 == (v / 0x100) % p
  {
    var d, r := (v / 0x100) / p, (v / 0x100) % p;
    var low := v % 0x100;
    assert v / 0x100 == d * p + r;
    assert v == d * (0x100 * p) + (0x100 * r + low) by { assert d * (0x100 * p) == 0x100 * (d * p); }
    DivModUnique(v, 0x100 * p, d, 0x100 * r + low);
  }

  // writeUo: the bytes of the file.
  method WriteUo(p: Program) returns (bytes: seq<Byte>)
    ensures bytes == UoBytes(p)
  {
    hide LittleEndian, FunctionBytes;
    var w := new Writer();
    w.U32(VERSION_SENTINEL);
    w.U32(VERSION);
    w.Count32(|p.functions|);
    ghost var start := w.buf;
    assert p.functions[..0] == [];
    for k := 0 to |p.functions|
      invariant w.buf == start + Concat(FunctionBytes, p.functions[..k])
    {
      w.Function(p.functions[k]);
      ConcatNext(FunctionBytes, p.functions[..k], p.functions[k]);
      assert p.functions[..k + 1] == p.functions[..k] + [p.functions[k]];
    }
    assert p.functions[..|p.functions|] == p.functions;
    w.U32(p.entryIndex);
    bytes := MAGIC + w.buf;
    assert w.buf == LittleEndian(VERSION_SENTINEL, 4) + (LittleEndian(VERSION, 4) + ProgramBytes(p));
  }

  // ---------------------------------------------------------------- the reader

  // A method that reads did what the specification says.
  ghost predicate Agrees<T>(spec: Parsed<T>, r: Result<T, UoError>, pos: nat) {
    match spec
    case Ok(v) => r == Ok(v.0) && pos == v.1
    case Err(e) => r == Err(e)
  }

  // What is read when xs has been read already.
  ghost function After<T>(xs: seq<T>, r: Parsed<seq<T>>): Parsed<seq<T>> {
    match r
    case Ok(v) => Ok((xs + v.0, v.1))
    case Err(e) => Err(e)
  }

  lemma ListNext<T>(xs: seq<T>, read: nat -> Parsed<T>, pos: nat, count: nat)
    requires count > 0
    ensures read(pos).Ok? ==>
      After(xs, ListAt(read, pos, count)) == After(xs + [read(pos).value.0], ListAt(read, read(pos).value.1, count - 1))
    ensures read(pos).Err? ==> After(xs, ListAt(read, pos, count)) == Err(read(pos).error)
  {
    if read(pos).Ok? && ListAt(read, read(pos).value.1, count - 1).Ok? {
      var first, rest := read(pos).value.0, ListAt(read, read(pos).value.1, count - 1).value.0;
      assert xs + ([first] + rest) == (xs + [first]) + rest;
    }
  }

  lemma ListStarts<T>(r: Parsed<seq<T>>)
    ensures After([], r) == r
  {
    if r.Ok? { assert [] + r.value.0 == r.value.0; }
  }

  // The n bytes at pos, put together by shifting.
  method Shifted(data: seq<Byte>, pos: nat, n: nat) returns (v: nat)
    requires pos + n <= |data|
    ensures v == FromLittleEndian(data[pos..pos + n])
  {
    v := 0;
    assert FromLittleEndian([]) == 0;
    hide FromLittleEndian, Or, Shl;
    assert data[pos..pos] == [];
    for i := 0 to n
      invariant v == FromLittleEndian(data[pos..pos + i])
    {
      FromLittleEndianNext(data[pos..pos + i], data[pos + i]);
      assert data[pos..pos + (i + 1)] == data[pos..pos + i] + [data[pos + i]];
      v := Or(v, Shl(data[pos + i], i * 8));
    }
  }

  class Reader {
    const data: seq<Byte>
    const version: nat
    var pos: nat

    constructor (data: seq<Byte>, version: nat)
      ensures this.data == data && this.version == version && pos == 0
    {
      this.data := data;
      this.version := version;
      pos := 0;
    }

    method Need(n: nat) returns (r: Result<(), UoError>)
      ensures r == if pos + n > |data| then Err(UnexpectedEnd) else Ok(())
    {
      if pos + n > |data| { return Err(UnexpectedEnd); }
      r := Ok(());
    }

    method U8() returns (r: Result<Byte, UoError>)
      modifies this
      ensures Agrees(U8At(data, old(pos)), r, pos)
    {
      var _ :- Need(1);
      r := Ok(data[pos]);
      pos := pos + 1;
    }

    method U16() returns (r: Result<UInt16, UoError>)
      modifies this
      ensures Agrees(U16At(data, old(pos)), r, pos)
    {
      var _ :- Need(2);
      var low, high := data[pos], data[pos + 1];
      FromLittleEndianNext([], low);
      FromLittleEndianNext([low], high);
      assert [] + [low] == [low] && data[pos..pos + 2] == [low] + [high];
      Pow2Literals();
      r := Ok(Or(low, Shl(high, 8)));
      pos := pos + 2;
    }

    method U32() returns (r: Result<UInt32, UoError>)
      modifies this
      ensures Agrees(U32At(data, old(pos)), r, pos)
    {
      var _ :- Need(4);
      var v := Shifted(data, pos, 4);
      Pow2Literals();
      hide FromLittleEndian, Pow2;
      pos := pos + 4;
      r := Ok(v);
    }

    method U64() returns (r: Result<UInt64, UoError>)
      modifies this
      ensures Agrees(U64At(data, old(pos)), r, pos)
    {
      var _ :- Need(8);
      var v := Shifted(data, pos, 8);
      Pow2Literals();
      hide FromLittleEndian, Pow2;
      pos := pos + 8;
      r := Ok(v);
    }

    method Str() returns (r: Result<string, UoError>)
      modifies this
      ensures Agrees(StringAt(data, old(pos)), r, pos)
    {
      hide U32At;
      var len :- U32();
      var _ :- Need(len);
      r := Ok(Chars(data[pos..pos + len]));
      pos := pos + len;
    }

    method Operand() returns (r: Result<Operand, UoError>)
      modifies this
      ensures Agrees(OperandAt(data, old(pos)), r, pos)
    {
      hide U8At, U32At, U64At, StringAt;
      var kind :- U8();
      if kind == 0 {
        var reg :- U32();
        r := Ok(Register(reg));
      } else if kind == 1 {
        var v :- U64();
        r := Ok(ImmediateInt(Signed(v)));
      } else if kind == 2 {
        var v :- U64();
        r := Ok(ImmediateFloat(v));
      } else if kind == 3 {
        var name :- Str();
        r := Ok(Symbol(name));
      } else {
        r := Err(CorruptOperandKind);
      }
    }

    method OpcodeAndTypes() returns (r: Result<(UInt16, Byte, Byte), UoError>)
      modifies this
      ensures Agrees(OpcodeAt(data, old(pos), version), r, pos)
    {
      hide U8At, U16At;
      if version >= 1 {
        var opcode :- U16();
        var ty :- U8();
        var ty2 :- U8();
        r := Ok((opcode, ty, ty2));
      } else {
        var opcode :- U8();
        var ty :- U8();
        r := Ok((opcode, ty, ty));
      }
    }

    method Instruction() returns (r: Result<Instruction, UoError>)
      modifies this
      ensures Agrees(InstructionAt(data, old(pos), version), r, pos)
    {
      hide U8At, U32At, OpcodeAt, OperandAt, ListAt;
      var op :- OpcodeAndTypes();
      var hasDest :- U8();
      var dest :- U32();
      var count :- U8();
      var operands := [];
      ghost var all := ListAt(OperandReader(data), pos, count);
      ListStarts(all);
      for i := 0 to count
        invariant all == After(operands, ListAt(OperandReader(data), pos, count - i))
      {
        ListNext(operands, OperandReader(data), pos, count - i);
        var operand :- Operand();
        operands := operands + [operand];
      }
      ListEnds(OperandReader(data), pos);
      r := Ok(Ast.Instruction(op.0, op.1, op.2, hasDest != 0, dest, operands, 0));
    }

    method Block() returns (r: Result<Block, UoError>)
      modifies this
      ensures Agrees(BlockAt(data, old(pos), version), r, pos)
    {
      hide U8At, U32At, StringAt, InstructionAt, ListAt;
      var labelName :- Str();
      var count :- U32();
      var instructions := [];
      ghost var all := ListAt(InstructionReader(data, version), pos, count);
      ListStarts(all);
      for i := 0 to count
        invariant all == After(instructions, ListAt(InstructionReader(data, version), pos, count - i))
      {
        ListNext(instructions, InstructionReader(data, version), pos, count - i);
        var instruction :- Instruction();
        instructions := instructions + [instruction];
      }
      ListEnds(InstructionReader(data, version), pos);
      r := Ok(Ast.Block(labelName, instructions));
    }

    method Params(count: Byte) returns (r: Result<seq<Param>, UoError>)
      modifies this
      ensures Agrees(ListAt(ParamReader(data), old(pos), count), r, pos)
    {
      hide U8At, ListAt;
      var params := [];
      ghost var all := ListAt(ParamReader(data), pos, count);
      ListStarts(all);
      for i := 0 to count
        invariant all == After(params, ListAt(ParamReader(data), pos, count - i))
      {
        ListNext(params, ParamReader(data), pos, count - i);
        var ty :- U8();
        params := params + [Param("", ty)];
      }
      ListEnds(ParamReader(data), pos);
      r := Ok(params);
    }

    method Function() returns (r: Result<Function, UoError>)
      modifies this
      ensures Agrees(FunctionAt(data, old(pos), version), r, pos)
    {
      hide U8At, U32At, StringAt, BlockAt, ListAt;
      var name :- Str();
      var moduleName :- Str();
      var isExported :- U8();
      var paramCount :- U8();
      var params :- Params(paramCount);
      var returnType :- U8();
      var blockCount :- U32();
      var blocks := [];
      ghost var all := ListAt(BlockReader(data, version), pos, blockCount);
      ListStarts(all);
      for i := 0 to blockCount
        invariant all == After(blocks, ListAt(BlockReader(data, version), pos, blockCount - i))
      {
        ListNext(blocks, BlockReader(data, version), pos, blockCount - i);
        var block :- Block();
        blocks := blocks + [block];
      }
      ListEnds(BlockReader(data, version), pos);
      r := Ok(Ast.Function(name, moduleName, isExported != 0, params, returnType, blocks));
    }
  }

  lemma ListEnds<T>(read: nat -> Parsed<T>, pos: nat)
    ensures ListAt(read, pos, 0) == Ok(([], pos))
    ensures forall xs: seq<T> :: After(xs, ListAt(read, pos, 0)) == Ok((xs, pos))
  {
    assert forall xs: seq<T> :: xs + [] == xs;
  }

  // The header of readUo: where the program starts, and its version.
  method ReadHeader(bytes: seq<Byte>) returns (result: Result<(nat, nat), UoError>)
    ensures result == HeaderOf(bytes)
  {
    hide FromLittleEndian;
    if |bytes| < 6 || bytes[..6] != MAGIC {
      return if |bytes| >= 6 && bytes[..6] == LIB_MAGIC then Err(LibraryMagic) else Err(BadMagic);
    }
    var offset, version := 6, 0;
    if |bytes| >= offset + 8 {
      var first := Shifted(bytes, offset, 4);
      if first == VERSION_SENTINEL {
        var v := Shifted(bytes, offset + 4, 4);
        if v > VERSION {
          Pow2Literals();
          return Err(NewerVersion(v));
        }
        version := v;
        offset := offset + 8;
      }
    }
    result := Ok((offset, version));
  }

  // readUo, on the bytes of the file.
  method ReadUo(bytes: seq<Byte>) returns (result: Result<Program, UoError>)
    ensures result == ReadUoSpec(bytes)
  {
    hide U32At, FunctionAt, ListAt, HeaderOf;
    var header :- ReadHeader(bytes);
    var offset, version := header.0, header.1;
    var r := new Reader(bytes[offset..], version);
    var functionCount :- r.U32();
    var functions := [];
    ghost var all := ListAt(FunctionReader(r.data, version), r.pos, functionCount);
    ListStarts(all);
    for i := 0 to functionCount
      invariant all == After(functions, ListAt(FunctionReader(r.data, version), r.pos, functionCount - i))
    {
      ListNext(functions, FunctionReader(r.data, version), r.pos, functionCount - i);
      var fn :- r.Function();
      functions := functions + [fn];
    }
    ListEnds(FunctionReader(r.data, version), r.pos);
    var entryIndex :- r.U32();
    result := Ok(Program(functions, entryIndex));
  }
}
