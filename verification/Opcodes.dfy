// Mnemonics and type names (src/core/opcode_info.cpp, include/uasm/types.h). The opcode table itself, one
// line per opcode in include/uasm/opcodes_core.def and opcodes_simd.def, is a parameter: what is needed of
// it is TableOk.

module Opcodes {
  import opened Ast
  import opened Lexer

  datatype OpcodeEntry = OpcodeEntry(mnemonic: string, suffix: bool, suffix2: bool, dest: bool, noOps: bool, extension: nat)

  type OpcodeTable = t: seq<OpcodeEntry> | |t| <= 0x1_0000

  // opcodeFromName: of two entries with one mnemonic the first counts.
  function OpcodeFromName(table: OpcodeTable, name: string, i: nat): (r: Option<UInt16>)
    requires i <= |table|
    ensures r.Some? ==> i <= r.value < |table| && table[r.value].mnemonic == name
    ensures forall j :: i <= j < |table| && (r.None? || j < r.value) ==> table[j].mnemonic != name
    decreases |table| - i
  {
    if i == |table| then None else if table[i].mnemonic == name then Some(i) else OpcodeFromName(table, name, i + 1)
  }

  // An identifier that the lexer takes as one token: not a letter r followed by a digit.
  predicate IsName(s: string) {
    && s != "" && IsIdentStart(s[0]) && (forall i :: 0 <= i < |s| ==> IsIdentChar(s[i]))
    && !(s[0] == 'r' && |s| > 1 && IsDigit(s[1]))
  }

  // What is asked of the table: about the entries of call and of the two forms of ret, and nothing about the
  // others.
  predicate TableOk(table: OpcodeTable) {
    && |table| > RETVOID
    && OpcodeFromName(table, "ret", 0) == Some(RET) && table[RETVOID].mnemonic == "ret"
    && table[RET].suffix && !table[RET].noOps && table[RETVOID].noOps && !table[RETVOID].suffix && !table[RETVOID].suffix2
    && !table[CALL].noOps && !table[CALL].dest
  }

  // The mnemonic of the opcode is an identifier and reads back as this opcode; that of ret without a value is
  // read apart.
  predicate ReadsBack(table: OpcodeTable, op: UInt16) {
    && op < |table| && IsName(table[op].mnemonic)
    && (op == RETVOID || OpcodeFromName(table, table[op].mnemonic, 0) == Some(op))
  }

  const TYPE_COUNT: nat := 17
  const V128: Byte := 14
  const V256: Byte := 15
  const V512: Byte := 16

  const TYPE_NAMES: seq<string> :=
    ["i8", "u8", "i16", "u16", "i32", "u32", "i64", "u64", "i128", "u128", "f32", "f64", "void", "ptr", "v128", "v256", "v512"]

  function TypeName(t: Byte): string
    requires t < TYPE_COUNT
  {
    TYPE_NAMES[t]
  }

  function TypeFromName(name: string, i: nat): (r: Option<Byte>)
    requires i <= TYPE_COUNT
    ensures r.Some? ==> i <= r.value < TYPE_COUNT && TYPE_NAMES[r.value] == name
    ensures forall j :: i <= j < TYPE_COUNT && (r.None? || j < r.value) ==> TYPE_NAMES[j] != name
    decreases TYPE_COUNT - i
  {
    if i == TYPE_COUNT then None else if TYPE_NAMES[i] == name then Some(i) else TypeFromName(name, i + 1)
  }

  // The extension a vector type needs.
  function TypeExtension(t: Byte): nat {
    if t == V128 then 1 else if t == V256 then 2 else if t == V512 then 3 else 0
  }
}
