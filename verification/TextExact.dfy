// Exactly which modules without float immediates the text round trip preserves.

module TextExact {
  import opened Ast
  import opened Opcodes
  import opened Grammar
  import opened Disassembler
  import opened TextModules
  import opened TextParse
  import opened TextPrograms
  import opened TextProduced

  // ---------------------------------------------------------------- what equality up to lines keeps

  lemma SameInstruction(c: Context, i: Instruction, j: Instruction)
    requires NoLine(i) == NoLine(j)
    ensures Shaped(c, i) == Shaped(c, j) && InstructionPrintable(c.table, i) == InstructionPrintable(c.table, j)
    ensures Bare(c, i) == Bare(c, j) && i.operands == j.operands
  {
    hide IsName, Enabled, OpcodeFromName;
    assert i.operands == j.operands && i.opcode == j.opcode && i.ty == j.ty && i.ty2 == j.ty2 && i.hasDest == j.hasDest && i.dest == j.dest;
  }

  lemma EachInstruction(c: Context, s: seq<Instruction>, t: seq<Instruction>)
    requires NoLines(s) == NoLines(t)
    ensures |s| == |t|
    ensures forall k :: 0 <= k < |s| ==> Shaped(c, s[k]) == Shaped(c, t[k]) && Bare(c, s[k]) == Bare(c, t[k])
    ensures forall k :: 0 <= k < |s| ==> InstructionPrintable(c.table, s[k]) == InstructionPrintable(c.table, t[k])
    ensures forall k :: 0 <= k < |s| ==> s[k].operands == t[k].operands
  {
    hide Shaped, InstructionPrintable, Bare;
    assert |NoLines(s)| == |NoLines(t)|;
    forall k | 0 <= k < |s|
      ensures Shaped(c, s[k]) == Shaped(c, t[k]) && Bare(c, s[k]) == Bare(c, t[k])
      ensures InstructionPrintable(c.table, s[k]) == InstructionPrintable(c.table, t[k]) && s[k].operands == t[k].operands
    {
      assert NoLines(s)[k] == NoLines(t)[k];
      SameInstruction(c, s[k], t[k]);
    }
  }

  lemma SameBlock(c: Context, a: Block, b: Block)
    requires ErasedBlock(a) == ErasedBlock(b)
    ensures BlockOk(c, a) ==> BlockOk(c, b)
    ensures NoneBare(c, a.instructions) ==> NoneBare(c, b.instructions)
    ensures NoFloats(a.instructions) == NoFloats(b.instructions)
  {
    hide Shaped, InstructionPrintable, Bare, IsName;
    assert NoLines(a.instructions) == NoLines(b.instructions) && a.labelName == b.labelName;
    EachInstruction(c, a.instructions, b.instructions);
    hide NoLines;
    var s, t := a.instructions, b.instructions;
    if BlockOk(c, a) && t != [] {
      var front := t[..|t| - 1];
      forall k | 0 <= k < |front| ensures !Bare(c, front[k]) { assert !Bare(c, s[..|s| - 1][k]); }
    }
  }

  lemma EachBlock(c: Context, s: seq<Block>, t: seq<Block>)
    requires ErasedBlocks(s) == ErasedBlocks(t)
    ensures |s| == |t| && (BlocksOk(c, s) ==> BlocksOk(c, t)) && (BlocksOk(c, s) ==> AllBlocksPrintable(c.table, t))
    ensures NoFloatBlocks(t) ==> NoFloatBlocks(s)
  {
    hide BlockOk, NoneBare, NoFloats, ErasedBlock;
    assert |ErasedBlocks(s)| == |ErasedBlocks(t)|;
    forall k | 0 <= k < |s|
      ensures (BlockOk(c, s[k]) ==> BlockOk(c, t[k])) && (NoneBare(c, s[k].instructions) ==> NoneBare(c, t[k].instructions))
      ensures NoFloats(s[k].instructions) == NoFloats(t[k].instructions)
    {
      assert ErasedBlocks(s)[k] == ErasedBlocks(t)[k];
      SameBlock(c, s[k], t[k]);
    }
    if BlocksOk(c, s) {
      forall k | 0 <= k < |t| ensures BlockPrintable(c.table, t[k]) { BlockOkPrints(c, t[k]); }
    }
  }

  lemma BlockOkPrints(c: Context, b: Block)
    requires BlockOk(c, b)
    ensures BlockPrintable(c.table, b)
  {
    hide IsName, AllShaped, BareLast;
  }

  lemma SameFunction(c: Context, f: Function, g: Function)
    requires ErasedFunction(f) == ErasedFunction(g)
    ensures (FunctionOk(c, f) ==> FunctionOk(c, g)) && f.moduleName == g.moduleName
    ensures NoFloatBlocks(g.blocks) ==> NoFloatBlocks(f.blocks)
  {
    assert f.name == g.name && f.returnType == g.returnType && ErasedParams(f.params) == ErasedParams(g.params);
    assert ErasedBlocks(f.blocks) == ErasedBlocks(g.blocks);
    SameParams(f.params, g.params);
    hide ErasedBlocks, ErasedParams, IsName, BlocksOk, NoFloatBlocks, AllBlocksPrintable, ParamsPrintable;
    EachBlock(c, f.blocks, g.blocks);
  }

  lemma SameParams(s: seq<Param>, t: seq<Param>)
    requires ErasedParams(s) == ErasedParams(t)
    ensures ParamsPrintable(s) ==> ParamsPrintable(t)
  {
    assert |ErasedParams(s)| == |ErasedParams(t)|;
    forall k | 0 <= k < |s| ensures s[k].ty == t[k].ty { assert ErasedParams(s)[k] == ErasedParams(t)[k]; }
  }

  lemma SameModule(c: Context, m: Object, n: Object)
    requires SameUpToNames(m, n)
    ensures ModuleOk(c, m) ==> ModuleOk(c, n)
    ensures NoFloatFunctions(n.functions) ==> NoFloatFunctions(m.functions)
  {
    var fs, gs := m.functions, n.functions;
    SameFunctions(fs, gs);
    hide ErasedFunctions, ErasedFunction, FunctionOk, NoFloatBlocks, IsName, FunctionNames;
    forall k | 0 <= k < |fs|
      ensures (FunctionOk(c, fs[k]) ==> FunctionOk(c, gs[k])) && fs[k].moduleName == gs[k].moduleName
      ensures NoFloatBlocks(gs[k].blocks) ==> NoFloatBlocks(fs[k].blocks)
    {
      SameFunction(c, fs[k], gs[k]);
    }
  }

  // A module without float immediates survives printing, lexing and parsing if and only if it has the shape of
  // a parsed one.
  lemma RoundTripExactly(c: Context, m: Object, p: Program, show: UInt64 -> string, strtod: string -> UInt64)
    requires TableOk(c.table) && m.functions != [] && p.functions == m.functions && NoFloatFunctions(m.functions)
    ensures var r := ParseModuleSpec(c, DisassembleSpec(c.table, show, p), strtod);
      (r.Ok? && SameUpToNames(r.value, m)) <==> ModuleOk(c, m)
  {
    hide *;
    var text := DisassembleSpec(c.table, show, p);
    var r := ParseModuleSpec(c, text, strtod);
    if ModuleOk(c, m) {
      PrintedReads(c, m, p, show, strtod);
    } else if r.Ok? && SameUpToNames(r.value, m) {
      ModuleProduces(c, text, strtod);
      SameModule(c, r.value, m);
    }
  }
}
