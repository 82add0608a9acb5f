// The binary object format .uo: what src/format/serializer.cpp writes and how it reads.
//
// Numbers are little-endian and of fixed width; strings and lists carry their length in front. The
// encoder truncates a number to the width of its field, as the C++ casts do.

module UoFormat {
  import opened Ast
  import opened Bits

  const MAGIC: seq<Byte> := [0x55, 0x41, 0x53, 0x4D, 0x21, 0x30]
  const LIB_MAGIC: seq<Byte> := [0x55, 0x41, 0x53, 0x4D, 0x21, 0x31]
  const VERSION_SENTINEL: UInt32 := 0xFFFF_FFFF
  const VERSION: UInt32 := 1

  // ---------------------------------------------------------------- writing

  // The low n bytes of v, the lowest first.
  function LittleEndian(v: nat, n: nat): (b: seq<Byte>)
    ensures |b| == n
  {
    if n == 0 then [] else [v % 0x100] + LittleEndian(v / 0x100, n - 1)
  }

  function AsUnsigned(v: Int64): UInt64 { if v < 0 then v + TWO64 else v }

  function CharBytes(s: string): (b: seq<Byte>)
    ensures |b| == |s|
  {
    seq(|s|, i requires 0 <= i < |s| => s[i] as int % 0x100)
  }

  function StringBytes(s: string): seq<Byte> { LittleEndian(|s|, 4) + CharBytes(s) }

  function Flag(b: bool): seq<Byte> { LittleEndian(if b then 1 else 0, 1) }

  // The encodings of the elements of a list, one after the other.
  function Concat<T>(encode: T -> seq<Byte>, xs: seq<T>): seq<Byte> {
    if xs == [] then [] else encode(xs[0]) + Concat(encode, xs[1..])
  }

  function OperandBytes(op: Operand): seq<Byte> {
    match op
    case Register(reg) => [0] + LittleEndian(reg, 4)
    case ImmediateInt(v) => [1] + LittleEndian(AsUnsigned(v), 8)
    case ImmediateFloat(bits) => [2] + LittleEndian(bits, 8)
    case Label(name) => [3] + StringBytes(name)
    case Symbol(name) => [3] + StringBytes(name)
  }

  function InstructionHead(i: Instruction): seq<Byte> {
    LittleEndian(i.opcode, 2) + (LittleEndian(i.ty, 1) + (LittleEndian(i.ty2, 1) + (Flag(i.hasDest) + LittleEndian(i.dest, 4))))
  }

  function InstructionBytes(i: Instruction): seq<Byte> {
    InstructionHead(i) + (LittleEndian(|i.operands|, 1) + Concat(OperandBytes, i.operands))
  }

  function ParamBytes(p: Param): seq<Byte> { LittleEndian(p.ty, 1) }

  function BlockBytes(b: Block): seq<Byte> {
    StringBytes(b.labelName) + (LittleEndian(|b.instructions|, 4) + Concat(InstructionBytes, b.instructions))
  }

  function FunctionHead(f: Function): seq<Byte> {
    StringBytes(f.name) + (StringBytes(f.moduleName) + Flag(f.isExported))
  }

  function FunctionTail(f: Function): seq<Byte> {
    LittleEndian(f.returnType, 1) + (LittleEndian(|f.blocks|, 4) + Concat(BlockBytes, f.blocks))
  }

  function FunctionBytes(f: Function): seq<Byte> {
    FunctionHead(f) + ((LittleEndian(|f.params|, 1) + Concat(ParamBytes, f.params)) + FunctionTail(f))
  }

  function ProgramBytes(p: Program): seq<Byte> {
    LittleEndian(|p.functions|, 4) + (Concat(FunctionBytes, p.functions) + LittleEndian(p.entryIndex, 4))
  }

  function UoBytes(p: Program): seq<Byte> {
    MAGIC + (LittleEndian(VERSION_SENTINEL, 4) + (LittleEndian(VERSION, 4) + ProgramBytes(p)))
  }

  // ---------------------------------------------------------------- reading

  datatype UoError = UnexpectedEnd | CorruptOperandKind | BadMagic | LibraryMagic | NewerVersion(version: UInt32)

  // What was read, and the position behind it.
  type Parsed<T> = Result<(T, nat), UoError>

  function FromLittleEndian(b: seq<Byte>): (v: nat)
    ensures v < Pow2(8 * |b|)
  {
    if b == [] then 0
    else
      assert 8 * |b| == 8 + 8 * |b[1..]|;
      assert Pow2(8 * |b|) == 0x100 * Pow2(8 * |b[1..]|) by { Pow2Add(8, 8 * |b[1..]|); Pow2Literals(); }
      b[0] + 0x100 * FromLittleEndian(b[1..])
  }

  function NumberAt(d: seq<Byte>, pos: nat, n: nat): Parsed<nat> {
    if pos + n > |d| then Err(UnexpectedEnd) else Ok((FromLittleEndian(d[pos..pos + n]), pos + n))
  }

  function U8At(d: seq<Byte>, pos: nat): Parsed<Byte> {
    if pos + 1 > |d| then Err(UnexpectedEnd) else Ok((d[pos], pos + 1))
  }

  function U16At(d: seq<Byte>, pos: nat): Parsed<UInt16> {
    Pow2Literals();
    var v :- NumberAt(d, pos, 2);
    Ok((v.0, v.1))
  }

  function U32At(d: seq<Byte>, pos: nat): Parsed<UInt32> {
    Pow2Literals();
    var v :- NumberAt(d, pos, 4);
    Ok((v.0, v.1))
  }

  function U64At(d: seq<Byte>, pos: nat): Parsed<UInt64> {
    Pow2Literals();
    var v :- NumberAt(d, pos, 8);
    Ok((v.0, v.1))
  }

  function Chars(b: seq<Byte>): (s: string)
    ensures |s| == |b|
  {
    seq(|b|, i requires 0 <= i < |b| => b[i] as char)
  }

  function StringAt(d: seq<Byte>, pos: nat): Parsed<string> {
    var n :- U32At(d, pos);
    if n.1 + n.0 > |d| then Err(UnexpectedEnd) else Ok((Chars(d[n.1..n.1 + n.0]), n.1 + n.0))
  }

  // `count` elements, read one after the other.
  function ListAt<T>(read: nat -> Parsed<T>, pos: nat, count: nat): Parsed<seq<T>>
    decreases count
  {
    if count == 0 then Ok(([], pos))
    else
      var first :- read(pos);
      var rest :- ListAt(read, first.1, count - 1);
      Ok(([first.0] + rest.0, rest.1))
  }

  function OperandAt(d: seq<Byte>, pos: nat): Parsed<Operand> {
    var kind :- U8At(d, pos);
    if kind.0 == 0 then
      var reg :- U32At(d, kind.1);
      Ok((Register(reg.0), reg.1))
    else if kind.0 == 1 then
      var v :- U64At(d, kind.1);
      Ok((ImmediateInt(Signed(v.0)), v.1))
    else if kind.0 == 2 then
      var v :- U64At(d, kind.1);
      Ok((ImmediateFloat(v.0), v.1))
    else if kind.0 == 3 then
      var name :- StringAt(d, kind.1);
      Ok((Symbol(name.0), name.1))
    else Err(CorruptOperandKind)
  }

  // Opcode and types; files without a version word have one-byte opcodes and a single type.
  function OpcodeAt(d: seq<Byte>, pos: nat, version: nat): Parsed<(UInt16, Byte, Byte)> {
    if version >= 1 then
      var opcode :- U16At(d, pos);
      var ty :- U8At(d, opcode.1);
      var ty2 :- U8At(d, ty.1);
      Ok(((opcode.0, ty.0, ty2.0), ty2.1))
    else
      var opcode :- U8At(d, pos);
      var ty :- U8At(d, opcode.1);
      Ok(((opcode.0, ty.0, ty.0), ty.1))
  }

  function OperandReader(d: seq<Byte>): nat -> Parsed<Operand> { pos => OperandAt(d, pos) }

  function InstructionAt(d: seq<Byte>, pos: nat, version: nat): Parsed<Instruction> {
    var op :- OpcodeAt(d, pos, version);
    var hasDest :- U8At(d, op.1);
    var dest :- U32At(d, hasDest.1);
    var count :- U8At(d, dest.1);
    var operands :- ListAt(OperandReader(d), count.1, count.0);
    Ok((Instruction(op.0.0, op.0.1, op.0.2, hasDest.0 != 0, dest.0, operands.0, 0), operands.1))
  }

  function InstructionReader(d: seq<Byte>, version: nat): nat -> Parsed<Instruction> { pos => InstructionAt(d, pos, version) }

  function BlockAt(d: seq<Byte>, pos: nat, version: nat): Parsed<Block> {
    var labelName :- StringAt(d, pos);
    var count :- U32At(d, labelName.1);
    var instructions :- ListAt(InstructionReader(d, version), count.1, count.0);
    Ok((Block(labelName.0, instructions.0), instructions.1))
  }

  function BlockReader(d: seq<Byte>, version: nat): nat -> Parsed<Block> { pos => BlockAt(d, pos, version) }

  function ParamAt(d: seq<Byte>, pos: nat): Parsed<Param> {
    var ty :- U8At(d, pos);
    Ok((Param("", ty.0), ty.1))
  }

  function ParamReader(d: seq<Byte>): nat -> Parsed<Param> { pos => ParamAt(d, pos) }

  // The name, the module and whether the function is exported.
  function HeadAt(d: seq<Byte>, pos: nat): Parsed<(string, string, bool)> {
    var name :- StringAt(d, pos);
    var moduleName :- StringAt(d, name.1);
    var isExported :- U8At(d, moduleName.1);
    Ok(((name.0, moduleName.0, isExported.0 != 0), isExported.1))
  }

  function TailAt(d: seq<Byte>, pos: nat, version: nat): Parsed<(Byte, seq<Block>)> {
    var returnType :- U8At(d, pos);
    var count :- U32At(d, returnType.1);
    var blocks :- ListAt(BlockReader(d, version), count.1, count.0);
    Ok(((returnType.0, blocks.0), blocks.1))
  }

  function FunctionAt(d: seq<Byte>, pos: nat, version: nat): Parsed<Function> {
    var head :- HeadAt(d, pos);
    var count :- U8At(d, head.1);
    var params :- ListAt(ParamReader(d), count.1, count.0);
    var tail :- TailAt(d, params.1, version);
    Ok((Function(head.0.0, head.0.1, head.0.2, params.0, tail.0.0, tail.0.1), tail.1))
  }

  function FunctionReader(d: seq<Byte>, version: nat): nat -> Parsed<Function> { pos => FunctionAt(d, pos, version) }

  function ProgramAt(d: seq<Byte>, pos: nat, version: nat): Parsed<Program> {
    var count :- U32At(d, pos);
    var functions :- ListAt(FunctionReader(d, version), count.1, count.0);
    var entryIndex :- U32At(d, functions.1);
    Ok((Program(functions.0, entryIndex.0), entryIndex.1))
  }

  lemma FourBytes(b: seq<Byte>)
    requires |b| == 4
    ensures FromLittleEndian(b) < 0x1_0000_0000
  {
    Pow2Literals();
    hide FromLittleEndian, Pow2;
  }

  // The magic, and the version if there is one: where the program starts, and in which version.
  function HeaderOf(bytes: seq<Byte>): (r: Result<(nat, nat), UoError>)
    ensures r.Ok? ==> r.value.0 <= |bytes|
  {
    if |bytes| < 6 || bytes[..6] != MAGIC then
      if |bytes| >= 6 && bytes[..6] == LIB_MAGIC then Err(LibraryMagic) else Err(BadMagic)
    else if |bytes| >= 14 && FromLittleEndian(bytes[6..10]) == VERSION_SENTINEL then
      FourBytes(bytes[10..14]);
      var version := FromLittleEndian(bytes[10..14]);
      if version > VERSION then Err(NewerVersion(version)) else Ok((14, version))
    else Ok((6, 0))
  }

  function ReadUoSpec(bytes: seq<Byte>): Result<Program, UoError> {
    var h :- HeaderOf(bytes);
    var p :- ProgramAt(bytes[h.0..], 0, h.1);
    Ok(p.0)
  }

  // ---------------------------------------------------------------- what survives, and what fits

  function DroppedOperand(op: Operand): Operand { if op.Label? then Symbol(op.name) else op }

  function DroppedInstruction(i: Instruction): Instruction {
    i.(operands := seq(|i.operands|, k requires 0 <= k < |i.operands| => DroppedOperand(i.operands[k])), line := 0)
  }

  function DroppedBlock(b: Block): Block {
    b.(instructions := seq(|b.instructions|, k requires 0 <= k < |b.instructions| => DroppedInstruction(b.instructions[k])))
  }

  function DroppedParam(p: Param): Param { p.(name := "") }

  function DroppedFunction(f: Function): Function {
    f.(params := seq(|f.params|, k requires 0 <= k < |f.params| => DroppedParam(f.params[k])),
       blocks := seq(|f.blocks|, k requires 0 <= k < |f.blocks| => DroppedBlock(f.blocks[k])))
  }

  // What the format keeps of a program: labels become symbols, parameter names and line numbers go.
  function Dropped(p: Program): Program {
    p.(functions := seq(|p.functions|, k requires 0 <= k < |p.functions| => DroppedFunction(p.functions[k])))
  }

  predicate StringFits(s: string) { |s| < 0x1_0000_0000 && forall i :: 0 <= i < |s| ==> s[i] as int < 0x100 }

  predicate OperandFits(op: Operand) { op.Label? || op.Symbol? ==> StringFits(op.name) }

  predicate InstructionFits(i: Instruction) {
    |i.operands| < 0x100 && forall k :: 0 <= k < |i.operands| ==> OperandFits(i.operands[k])
  }

  predicate BlockFits(b: Block) {
    StringFits(b.labelName) && |b.instructions| < 0x1_0000_0000 &&
    forall k :: 0 <= k < |b.instructions| ==> InstructionFits(b.instructions[k])
  }

  predicate FunctionFits(f: Function) {
    && StringFits(f.name) && StringFits(f.moduleName) && |f.params| < 0x100
    && |f.blocks| < 0x1_0000_0000 && forall k :: 0 <= k < |f.blocks| ==> BlockFits(f.blocks[k])
  }

  // Counts and strings fit their fields.
  predicate ProgramFits(p: Program) {
    |p.functions| < 0x1_0000_0000 && forall k :: 0 <= k < |p.functions| ==> FunctionFits(p.functions[k])
  }
}
