// The program representation shared by every stage: include/uasm/ast.h, include/uasm/types.h and
// the Program of include/uasm/linker.h.
//
// Opcodes and types keep the numbers of the C++ enumerations, because the binary reader casts any
// number it finds to them. A double is its 64-bit pattern. A std::string is a sequence of
// characters, each standing for one byte.

module Ast {

  type Byte = x: int | 0 <= x < 0x100
  type UInt16 = x: int | 0 <= x < 0x1_0000
  type UInt32 = x: int | 0 <= x < 0x1_0000_0000
  type UInt64 = x: int | 0 <= x < 0x1_0000_0000_0000_0000
  type Int64 = x: int | -0x8000_0000_0000_0000 <= x < 0x8000_0000_0000_0000

  const TWO63: int := 0x8000_0000_0000_0000
  const TWO64: int := 0x1_0000_0000_0000_0000

  // The number a 64-bit pattern stands for in two's complement.
  function Signed(v: UInt64): Int64 { if v >= TWO63 then v - TWO64 else v }

  datatype Option<+T> = None | Some(value: T)

  datatype Result<+T, +E> = Ok(value: T) | Err(error: E) {
    predicate IsFailure() { Err? }

    function PropagateFailure<U>(): Result<U, E>
      requires Err?
    {
      Err(error)
    }

    function Extract(): T
      requires Ok?
    {
      value
    }
  }

  // Opcode::Value, in the order of include/uasm/opcodes_core.def
  const MOV: UInt16 := 0
  const ADD: UInt16 := 1
  const SUB: UInt16 := 2
  const MUL: UInt16 := 3
  const DIV: UInt16 := 4
  const CMP: UInt16 := 5
  const BEQ: UInt16 := 6
  const BNE: UInt16 := 7
  const BLT: UInt16 := 8
  const BGT: UInt16 := 9
  const BLE: UInt16 := 10
  const BGE: UInt16 := 11
  const JMP: UInt16 := 12
  const CALL: UInt16 := 13
  const RET: UInt16 := 14
  const RETVOID: UInt16 := 15
  const SYSCALL: UInt16 := 78

  // Type::Value
  const I32: Byte := 4
  const I64: Byte := 6
  const F32: Byte := 10
  const F64: Byte := 11
  const VOID: Byte := 12

  datatype Operand =
    | Register(reg: UInt32)
    | ImmediateInt(immInt: Int64)
    | ImmediateFloat(immFloat: UInt64)
    | Label(name: string)
    | Symbol(name: string)

  datatype Instruction = Instruction(
    opcode: UInt16, ty: Byte, ty2: Byte, hasDest: bool, dest: UInt32, operands: seq<Operand>, line: int)

  datatype Block = Block(labelName: string, instructions: seq<Instruction>)

  datatype Param = Param(name: string, ty: Byte)

  datatype Function = Function(
    name: string, moduleName: string, isExported: bool, params: seq<Param>, returnType: Byte, blocks: seq<Block>)

  // A parsed module; an object file is one.
  datatype Object = Object(name: string, functions: seq<Function>)

  datatype Program = Program(functions: seq<Function>, entryIndex: UInt32)

  predicate IsArith(op: UInt16) { op == ADD || op == SUB || op == MUL || op == DIV }

  predicate IsConditional(op: UInt16) {
    op == BEQ || op == BNE || op == BLT || op == BGT || op == BLE || op == BGE
  }

  lemma Assoc<T>(a: seq<T>, b: seq<T>, c: seq<T>)
    ensures (a + b) + c == a + (b + c)
  {
  }

  // The name tables: a map filled in a loop, so that the last entry with a name wins.

  function IndexMap(names: seq<string>): map<string, nat> {
    if names == [] then map[] else IndexMap(names[..|names| - 1])[names[|names| - 1] := |names| - 1]
  }

  lemma {:induction false} IndexMapIsLast(names: seq<string>)
    ensures forall s :: s in IndexMap(names) <==> s in names
    ensures forall s :: s in IndexMap(names) ==>
      0 <= IndexMap(names)[s] < |names| && names[IndexMap(names)[s]] == s
    ensures forall s, j :: s in IndexMap(names) && IndexMap(names)[s] < j < |names| ==> names[j] != s
  {
    if names == [] {
    } else {
      var front := names[..|names| - 1];
      IndexMapIsLast(front);
      assert names == front + [names[|names| - 1]];
    }
  }

  function FunctionNames(fs: seq<Function>): (names: seq<string>)
    ensures |names| == |fs| && forall i :: 0 <= i < |fs| ==> names[i] == fs[i].name
  {
    seq(|fs|, i requires 0 <= i < |fs| => fs[i].name)
  }

  function BlockLabels(bs: seq<Block>): (labels: seq<string>)
    ensures |labels| == |bs| && forall i :: 0 <= i < |bs| ==> labels[i] == bs[i].labelName
  {
    seq(|bs|, i requires 0 <= i < |bs| => bs[i].labelName)
  }

  predicate DistinctNames(fs: seq<Function>) {
    forall i, j :: 0 <= i < j < |fs| ==> fs[i].name != fs[j].name
  }
}
