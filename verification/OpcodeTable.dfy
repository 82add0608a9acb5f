// The opcode table up to the last opcode that the model names, and what follows for every table that goes on
// from there, as the one of the source does.

module OpcodeTable {
  import opened Ast
  import opened Opcodes
  import TextParse

  // The flags that occur: a type suffix and a destination, a suffix alone, two suffixes and a destination, none,
  // and no operands. Whether an opcode ends a block is not part of the model.
  function Value(m: string): OpcodeEntry { OpcodeEntry(m, true, false, true, false, 0) }

  function Effect(m: string): OpcodeEntry { OpcodeEntry(m, true, false, false, false, 0) }

  function Plain(m: string): OpcodeEntry { OpcodeEntry(m, false, false, false, false, 0) }

  function NoOperands(m: string): OpcodeEntry { OpcodeEntry(m, false, false, false, true, 0) }

  // include/uasm/opcodes_core.def up to `syscall`
  const CORE_TABLE: seq<OpcodeEntry> := ROW_0 + ROW_16 + ROW_32 + ROW_48 + ROW_64

  const ROW_0: seq<OpcodeEntry> := [
    Value("mov"), Value("add"), Value("sub"), Value("mul"), Value("div"), Effect("cmp"), Plain("beq"), Plain("bne"),
    Plain("blt"), Plain("bgt"), Plain("ble"), Plain("bge"), Plain("jmp"), Plain("call"), Effect("ret"),
    NoOperands("ret")
  ]

  const ROW_16: seq<OpcodeEntry> := [
    Value("load"), Effect("store"), Value("and"), Value("or"), Value("xor"), Value("not"), Value("shl"), Value("shr"),
    Value("mod"), Value("neg"), Effect("push"), Value("pop"), Value("convert"), Value("cast"), Value("alloc"),
    Effect("free")
  ]

  const ROW_32: seq<OpcodeEntry> := [
    Value("realloc"), Effect("memcpy"), Effect("memset"), Effect("memmove"), Value("memcmp"), Value("sqrt"),
    Value("cbrt"), Value("floor"), Value("ceil"), Value("round"), Value("trunc"), Value("abs"), Value("min"),
    Value("max"), Value("pow"), Value("fma")
  ]

  const ROW_48: seq<OpcodeEntry> := [
    Value("sin"), Value("cos"), Value("tan"), Value("asin"), Value("acos"), Value("atan"), Value("atan2"),
    Value("sinh"), Value("cosh"), Value("tanh"), Value("log"), Value("log2"), Value("log10"), Value("exp"),
    Value("exp2"), Value("hypot")
  ]

  const ROW_64: seq<OpcodeEntry> := [
    Value("copysign"), Value("fmod"), Value("popcount"), Value("clz"), Value("ctz"), Value("bswap"), Value("rotl"),
    Value("rotr"), Value("bitset"), Value("bitclear"), Value("bittest"), Value("parity"), Value("ffs"),
    Value("bitreverse"), Value("syscall")
  ]

  // A table that starts like that.
  predicate StartsWithCore(table: OpcodeTable) { CORE_TABLE <= table }

  lemma RowLengths()
    ensures |ROW_0| == |ROW_16| == |ROW_32| == |ROW_48| == 16 && |ROW_64| == 15 && |CORE_TABLE| == 79
  {
  }

  // The numbers of the opcodes are their places in the table.
  lemma OpcodeNumbers()
    ensures |CORE_TABLE| == 79
    ensures CORE_TABLE[MOV] == Value("mov") && CORE_TABLE[ADD] == Value("add") && CORE_TABLE[SUB] == Value("sub")
    ensures CORE_TABLE[MUL] == Value("mul") && CORE_TABLE[DIV] == Value("div") && CORE_TABLE[CMP] == Effect("cmp")
    ensures CORE_TABLE[BEQ] == Plain("beq") && CORE_TABLE[BNE] == Plain("bne") && CORE_TABLE[BLT] == Plain("blt")
    ensures CORE_TABLE[BGT] == Plain("bgt") && CORE_TABLE[BLE] == Plain("ble") && CORE_TABLE[BGE] == Plain("bge")
    ensures CORE_TABLE[JMP] == Plain("jmp") && CORE_TABLE[CALL] == Plain("call")
    ensures CORE_TABLE[RET] == Effect("ret") && CORE_TABLE[RETVOID] == NoOperands("ret") && CORE_TABLE[SYSCALL] == Value("syscall")
  {
    RowLengths();
    hide CORE_TABLE, Value, Effect, Plain, NoOperands;
    FirstRow();
    assert SYSCALL == 64 + 14 && ROW_64[14] == Value("syscall");
  }

  // The types by name, with their numbers and the extensions they need.
  lemma TypeNumbers()
    ensures TypeFromName("i32", 0) == Some(I32) && TypeFromName("i64", 0) == Some(I64)
    ensures TypeFromName("f32", 0) == Some(F32) && TypeFromName("f64", 0) == Some(F64) && TypeFromName("void", 0) == Some(VOID)
    ensures TypeFromName("v128", 0) == Some(V128) && TypeFromName("v256", 0) == Some(V256) && TypeFromName("v512", 0) == Some(V512)
    ensures forall t: Byte :: TypeExtension(t) == if 14 <= t <= 16 then t - 13 else 0
    ensures I32 == 4 && I64 == 6 && F32 == 10 && F64 == 11 && VOID == 12
  {
    assert TYPE_NAMES[4] == "i32" && TYPE_NAMES[6] == "i64" && TYPE_NAMES[10] == "f32" && TYPE_NAMES[11] == "f64";
    assert TYPE_NAMES[12] == "void" && TYPE_NAMES[14] == "v128" && TYPE_NAMES[15] == "v256" && TYPE_NAMES[16] == "v512";
    Found(I32);
    Found(I64);
    Found(F32);
    Found(F64);
    Found(VOID);
    Found(V128);
    Found(V256);
    Found(V512);
  }

  lemma Found(t: Byte)
    requires t < TYPE_COUNT
    ensures TypeFromName(TYPE_NAMES[t], 0) == Some(t)
  {
    TextParse.TypeFound(t);
  }

  lemma FirstRow()
    ensures |CORE_TABLE| == 79 && |ROW_0| == 16 && |ROW_64| == 15
    ensures forall i :: 0 <= i < 16 ==> CORE_TABLE[i] == ROW_0[i]
    ensures forall i :: 0 <= i < 15 ==> CORE_TABLE[64 + i] == ROW_64[i]
  {
    RowLengths();
    hide ROW_0, ROW_16, ROW_32, ROW_48, ROW_64;
  }

  // No mnemonic before that of ret starts with its letter.
  lemma BeforeRet(i: nat)
    requires i < RET
    ensures |CORE_TABLE| == 79 && CORE_TABLE[i].mnemonic != "ret"
  {
    FirstRow();
    hide CORE_TABLE;
    assert ROW_0[i].mnemonic[0] != 'r';
    assert "ret"[0] == 'r';
  }

  // So the round trips of programs as text hold for the table of the source.
  lemma CoreTableOk(table: OpcodeTable)
    requires StartsWithCore(table)
    ensures TableOk(table)
  {
    OpcodeNumbers();
    hide CORE_TABLE, OpcodeFromName;
    var found := OpcodeFromName(table, "ret", 0);
    assert table[RET] == CORE_TABLE[RET] && table[RETVOID] == CORE_TABLE[RETVOID] && table[CALL] == CORE_TABLE[CALL];
    if found.Some? && found.value < RET { BeforeRet(found.value); }
  }
}
