// What parsing and linking provide of the things the native compiler takes for granted, and what they do not:
// neither stage counts the operands of an instruction, and the compiler indexes them without a check.

module ParsedPrograms {
  import opened Ast
  import opened Opcodes
  import opened OpcodeTable
  import opened Grammar
  import opened Disassembler
  import opened TextModules
  import opened TextParse
  import opened TextPrograms
  import opened TextProduced
  import opened Arm64Encoder
  import opened Codegen
  import Linker

  // The destination of a mov or an arithmetic instruction is there whenever its operands are.
  predicate DestinationsThere(fs: seq<Function>) {
    forall f, b, i | 0 <= f < |fs| && 0 <= b < |fs[f].blocks| && 0 <= i < |fs[f].blocks[b].instructions| ::
      DestinationThere(fs[f].blocks[b].instructions[i])
  }

  predicate DestinationThere(i: Instruction) {
    (i.opcode == MOV || IsArith(i.opcode)) && WellShaped(i) ==> i.hasDest
  }

  lemma ShapedHasDestination(c: Context, i: Instruction)
    requires StartsWithCore(c.table) && Shaped(c, i)
    ensures DestinationThere(i)
  {
    OpcodeNumbers();
    hide CORE_TABLE, Enabled;
    if i.opcode == MOV || IsArith(i.opcode) { assert c.table[i.opcode] == CORE_TABLE[i.opcode]; }
  }

  lemma ModuleHasDestinations(c: Context, m: Object)
    requires StartsWithCore(c.table) && ModuleOk(c, m)
    ensures DestinationsThere(m.functions)
  {
    hide StartsWithCore, Shaped, InstructionPrintable, DestinationThere, FunctionPrintable, BlockPrintable, BareLast, NoneBare;
    var fs := m.functions;
    forall f, b, i | 0 <= f < |fs| && 0 <= b < |fs[f].blocks| && 0 <= i < |fs[f].blocks[b].instructions|
      ensures DestinationThere(fs[f].blocks[b].instructions[i])
    {
      assert FunctionOk(c, fs[f]);
      assert BlockOk(c, fs[f].blocks[b]);
      ShapedHasDestination(c, fs[f].blocks[b].instructions[i]);
    }
  }

  // A program that parses and links has what the compiler needs, destinations included, if and only if its
  // instructions have the operands that the compiler indexes.
  lemma ParsedIsLinkable(c: Context, source: string, strtod: string -> UInt64, p: Program)
    requires StartsWithCore(c.table)
    requires ParseModuleSpec(c, source, strtod).Ok? && NoFloatFunctions(ParseModuleSpec(c, source, strtod).value.functions)
    requires Linker.IsLinked([ParseModuleSpec(c, source, strtod).value], p)
    ensures Linkable(p) <==> AllWellShaped(p.functions)
    ensures DestinationsThere(p.functions)
  {
    hide *;
    CoreTableOk(c.table);
    var m := ParseModuleSpec(c, source, strtod).value;
    ModuleProduces(c, source, strtod);
    ModuleHasDestinations(c, m);
    LinkedWhole(m, p);
    Linker.LinkedIsLinkable([m], p);
  }

  // ---------------------------------------------------------------- an add with one operand

  const SHORT_ADD: Instruction := Instruction(ADD, I64, I64, true, 0, [Register(1)], 0)

  const SHORT: Object := Object("m", [Function("main", "m", true, [], I64, [Block("entry", [SHORT_ADD])])])

  lemma ShortIsOk(c: Context)
    requires StartsWithCore(c.table)
    ensures ModuleOk(c, SHORT) && SHORT.functions != []
  {
    var b := Block("entry", [SHORT_ADD]);
    ShortAddIsOk(c);
    hide InstructionPrintable, Shaped;
    assert SHORT.functions[0].blocks == [b];
    assert BlockOk(c, b);
    assert FunctionOk(c, SHORT.functions[0]);
  }

  lemma ShortAddIsOk(c: Context)
    requires StartsWithCore(c.table)
    ensures Shaped(c, SHORT_ADD) && InstructionPrintable(c.table, SHORT_ADD)
  {
    OpcodeNumbers();
    assert c.table[MOV] == CORE_TABLE[MOV] && c.table[ADD] == CORE_TABLE[ADD];
    hide CORE_TABLE;
    assert "mov"[0] == 'm' && "add"[0] == 'a';
    assert OpcodeFromName(c.table, "add", 0) == Some(ADD);
  }

  // `add.i64 r0, r1`, alone in main, parses and links; the compiler would index a second operand that is not there.
  lemma ShortOperandsPass(c: Context, show: UInt64 -> string, strtod: string -> UInt64)
    requires StartsWithCore(c.table)
    ensures var r := ParseModuleSpec(c, DisassembleSpec(c.table, show, Program(SHORT.functions, 0)), strtod);
      && r.Ok? && Linker.IsLinked([r.value], Program(r.value.functions, 0))
      && |r.value.functions| > 0 && !FunctionShaped(r.value.functions[0]) && !Linkable(Program(r.value.functions, 0))
  {
    hide *;
    ShortIsOk(c);
    CoreTableOk(c.table);
    var p := Program(SHORT.functions, 0);
    PrintedReads(c, SHORT, p, show, strtod);
    var m := ParseModuleSpec(c, DisassembleSpec(c.table, show, p), strtod).value;
    ShortLinks();
    SameLinks(SHORT, m, p);
    ShortStays(m);
  }

  lemma ShortLinks()
    ensures Linker.IsLinked([SHORT], Program(SHORT.functions, 0))
  {
    Linker.OneObject(SHORT);
    hide Linker.Flatten;
    assert Linker.IsMain(SHORT.functions[0]);
  }

  // Names and lines do not change how many operands there are.
  lemma ShortStays(m: Object)
    requires SameUpToNames(m, SHORT)
    ensures |m.functions| > 0 && !FunctionShaped(m.functions[0]) && !Linkable(Program(m.functions, 0))
  {
    SameFunctions(SHORT.functions, m.functions);
    var f, g := SHORT.functions[0], m.functions[0];
    assert ErasedBlocks(f.blocks) == ErasedBlocks(g.blocks);
    assert |ErasedBlocks(f.blocks)| == |ErasedBlocks(g.blocks)| == 1;
    assert ErasedBlocks(f.blocks)[0] == ErasedBlocks(g.blocks)[0];
    var s, t := f.blocks[0].instructions, g.blocks[0].instructions;
    assert NoLines(s) == NoLines(t) && |NoLines(t)| == 1;
    assert NoLines(s)[0] == NoLines(t)[0];
    assert !WellShaped(t[0]);
    assert !FunctionShaped(g);
  }
}
