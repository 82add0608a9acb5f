// What the parser produces has the shape that survives printing; and the text round trip for everything that
// comes from source text.

module TextProduced {
  import opened Ast
  import opened Lexer
  import opened Opcodes
  import opened Grammar
  import opened Disassembler
  import opened TextTokens
  import opened TextModules
  import opened TextParse
  import opened TextPrograms
  import Linker

  // ---------------------------------------------------------------- tokens

  predicate TokensOk(ts: seq<Token>) { forall k :: 0 <= k < |ts| ==> (ts[k].kind == Identifier ==> IsName(ts[k].text)) }

  lemma FrontProduces(s: string, strtod: string -> UInt64)
    requires s != ""
    ensures Front(s, strtod).Piece? && Front(s, strtod).token.kind == Identifier ==> IsName(Front(s, strtod).token.text)
  {
    hide NumberEnd, HasFraction, Strtoll;
    if IsIdentStart(s[0]) && !(s[0] == 'r' && SecondIs(s, IsDigit)) {
      var n := Run(s, IsIdentChar);
      assert n >= 1;
      assert s[..n][0] == s[0] && (n > 1 ==> s[..n][1] == s[1]);
    }
  }

  lemma {:induction false} LexProduces(s: string, line: nat, strtod: string -> UInt64)
    ensures LexSpec(s, line, strtod).Ok? ==> TokensOk(LexSpec(s, line, strtod).value)
    decreases |s|
  {
    hide Front, IsName;
    if s != "" {
      FrontProduces(s, strtod);
      match Front(s, strtod)
      case Blank(n) => LexProduces(s[n..], if s[0] == '\n' then line + 1 else line, strtod);
      case Piece(t, n) => LexProduces(s[n..], line, strtod);
      case Unknown(e) =>
    }
  }

  // ---------------------------------------------------------------- instructions

  predicate Named(op: Operand) {
    match op
    case Symbol(name) => IsName(name)
    case Label(_) => false
    case _ => true
  }

  predicate AllNamed(ops: seq<Operand>) { forall k :: 0 <= k < |ops| ==> Named(ops[k]) }

  lemma AnyProduces(ts: seq<Token>, kind: TokenKind)
    requires TokensOk(ts) && kind != End
    ensures Any(ts, kind).Ok? ==> TokensOk(Any(ts, kind).value.1) && (kind == Identifier ==> IsName(Any(ts, kind).value.0.text))
  {
    hide IsName;
  }

  lemma TypeProduces(ts: seq<Token>)
    requires TokensOk(ts)
    ensures TypeAt(ts).Ok? ==> TokensOk(TypeAt(ts).value.1)
  {
    hide IsName, TypeFromName;
  }

  lemma OperandProduces(params: map<string, nat>, ts: seq<Token>)
    requires TokensOk(ts)
    ensures OperandAt(params, ts).Ok? ==> Named(OperandAt(params, ts).value.0) && TokensOk(OperandAt(params, ts).value.1)
  {
    hide IsName;
  }

  // The same mnemonic and suffixes.
  predicate SameHead(i: Instruction, j: Instruction) {
    i.opcode == j.opcode && i.ty == j.ty && i.ty2 == j.ty2 && i.line == j.line
  }

  // An instruction as the operand loop has it: the destination comes first where one is wanted, and only there.
  predicate InProgress(destWanted: bool, i: Instruction) {
    AllNamed(i.operands) && (if destWanted then i.hasDest || i.operands == [] else !i.hasDest) && (!i.hasDest ==> i.dest == 0)
  }

  lemma {:induction false} OperandLoopProduces(params: map<string, nat>, destWanted: bool, first: bool, i: Instruction, ts: seq<Token>)
    requires TokensOk(ts) && InProgress(destWanted, i) && (!first ==> i.hasDest || i.operands != [])
    ensures var r := OperandLoop(params, destWanted, first, i, ts);
      r.Ok? ==>
        && TokensOk(r.value.1) && InProgress(destWanted, r.value.0) && SameHead(r.value.0, i)
        && (!r.value.0.hasDest && r.value.0.operands == [] ==> !OperandStart(Cur(r.value.1)))
    decreases |ts|
  {
    hide OperandAt, Named, IsName;
    if if first then OperandStart(Cur(ts)) else Check(ts, Comma) {
      var us := if first then ts else ts[1..];
      OperandProduces(params, us);
      if OperandAt(params, us).Ok? {
        var op := OperandAt(params, us).value;
        if destWanted && !i.hasDest {
          if op.0.Register? { OperandLoopProduces(params, destWanted, false, i.(hasDest := true, dest := op.0.reg), op.1); }
        } else {
          OperandLoopProduces(params, destWanted, false, i.(operands := i.operands + [op.0]), op.1);
        }
      }
    }
  }

  lemma MnemonicProduces(c: Context, ts: seq<Token>)
    requires TableOk(c.table) && TokensOk(ts)
    ensures var r := MnemonicAt(c, ts);
      r.Ok? ==>
        && TokensOk(r.value.1)
        && var i := r.value.0;
        && ReadsBack(c.table, i.opcode) && i.ty < TYPE_COUNT && i.ty2 < TYPE_COUNT
        && !i.hasDest && i.dest == 0 && i.operands == []
        && (!c.table[i.opcode].suffix ==> i.ty == I32) && (!c.table[i.opcode].suffix2 ==> i.ty2 == i.ty)
        && (i.opcode != RETVOID ==>
              Enabled(c, c.table[i.opcode].extension) && Enabled(c, TypeExtension(i.ty)) && Enabled(c, TypeExtension(i.ty2)))
  {
    hide IsName, OpcodeFromName, SuffixAt, Enabled, Any, TypeExtension;
    AnyProduces(ts, Identifier);
    if MnemonicAt(c, ts).Ok? {
      var m := Any(ts, Identifier).value;
      if m.0.text == "ret" && !Check(m.1, Dot) {
        RetIsName();
      } else {
        var op := OpcodeFromName(c.table, m.0.text, 0).value;
        SuffixProduces(c.table[op].suffix, I32, m.1);
        var ty := SuffixAt(c.table[op].suffix, I32, m.1).value;
        SuffixProduces(c.table[op].suffix2, ty.0, ty.1);
      }
    }
  }

  lemma RetIsName()
    ensures IsName("ret")
  {
  }

  lemma SuffixProduces(takes: bool, otherwise: Byte, ts: seq<Token>)
    requires TokensOk(ts)
    ensures var r := SuffixAt(takes, otherwise, ts); r.Ok? ==> TokensOk(r.value.1) && (!takes ==> r.value.0 == otherwise)
  {
    hide IsName, TypeAt, Any;
    if takes {
      AnyProduces(ts, Dot);
      if Any(ts, Dot).Ok? { TypeProduces(Any(ts, Dot).value.1); }
    }
  }

  lemma InstructionProduces(c: Context, params: map<string, nat>, ts: seq<Token>)
    requires TableOk(c.table) && TokensOk(ts)
    ensures var r := InstructionAt(c, params, ts);
      r.Ok? ==>
        && TokensOk(r.value.1) && Shaped(c, r.value.0) && ReadsBack(c.table, r.value.0.opcode) && AllNamed(r.value.0.operands)
        && (Bare(c, r.value.0) ==> !OperandStart(Cur(r.value.1)))
  {
    hide IsName, MnemonicAt, OperandLoop, Enabled, TokensOk, Named, OperandStart, TypeExtension, OpcodeFromName;
    MnemonicProduces(c, ts);
    if InstructionAt(c, params, ts).Ok? {
      var m := MnemonicAt(c, ts).value;
      if !TakesNone(c, m.0.opcode) {
        OperandLoopProduces(params, WantsDest(c, m.0.opcode), true, m.0, m.1);
        var i := OperandLoop(params, WantsDest(c, m.0.opcode), true, m.0, m.1).value;
        CallProduces(c, i.0, i.1);
      }
    }
  }

  lemma CallProduces(c: Context, i: Instruction, ts: seq<Token>)
    requires AllNamed(i.operands) && CallShape(i, ts).Ok?
    ensures var j := CallShape(i, ts).value.0;
      && AllNamed(j.operands) && SameHead(i, j) && CallShape(i, ts).value.1 == ts
      && (i.opcode != CALL ==> j == i)
      && (i.opcode == CALL ==> j.operands != [] && j.operands[0].Symbol? && (|j.operands| == 1 || j.hasDest))
      && (i.opcode == CALL && !j.hasDest ==> j.dest == i.dest)
  {
    hide Named;
    if i.opcode == CALL && |i.operands| > 1 {
      var j := CallShape(i, ts).value.0;
      forall k | 0 <= k < |j.operands| ensures Named(j.operands[k]) {
        assert j.operands[k] == if k == 0 then i.operands[0] else i.operands[k + 1];
      }
    }
  }

  // ---------------------------------------------------------------- blocks

  predicate NoFloats(s: seq<Instruction>) {
    forall k, j :: 0 <= k < |s| && 0 <= j < |s[k].operands| ==> !s[k].operands[j].ImmediateFloat?
  }

  predicate AllProduced(c: Context, s: seq<Instruction>) {
    forall k :: 0 <= k < |s| ==> Shaped(c, s[k]) && ReadsBack(c.table, s[k].opcode) && AllNamed(s[k].operands)
  }

  lemma ProducedPrintable(c: Context, s: seq<Instruction>)
    requires AllProduced(c, s) && NoFloats(s)
    ensures AllShaped(c, s) && AllInstructionsPrintable(c.table, s)
  {
    hide IsName, Enabled, OpcodeFromName;
    forall k | 0 <= k < |s| ensures InstructionPrintable(c.table, s[k]) {
      assert Shaped(c, s[k]);
      forall j | 0 <= j < |s[k].operands| ensures Printable(s[k].operands[j]) {
        assert Named(s[k].operands[j]) && !s[k].operands[j].ImmediateFloat?;
      }
    }
  }

  lemma {:induction false} InstructionsProduce(c: Context, params: map<string, nat>, ts: seq<Token>)
    requires TableOk(c.table) && TokensOk(ts)
    ensures var r := InstructionLoop(c, params, ts);
      r.Ok? ==>
        && TokensOk(r.value.1) && AllProduced(c, r.value.0) && BareLast(c, r.value.0)
        && (!NoneBare(c, r.value.0) ==> !Check(r.value.1, Identifier))
    decreases |ts|
  {
    hide TableOk, TokensOk, Shaped, AllNamed, InstructionAt, Bare, ReadsBack;
    if Check(ts, Identifier) && !AtLabel(ts) {
      InstructionProduces(c, params, ts);
      if InstructionAt(c, params, ts).Ok? {
        var i := InstructionAt(c, params, ts).value;
        InstructionsProduce(c, params, i.1);
        if InstructionLoop(c, params, i.1).Ok? {
          var more := InstructionLoop(c, params, i.1).value;
          if Bare(c, i.0) { assert more.0 == []; }
          OneMoreInstruction(c, i.0, more.0);
        }
      }
    }
  }

  lemma OneMoreInstruction(c: Context, i: Instruction, more: seq<Instruction>)
    requires BareLast(c, more) && (Bare(c, i) ==> more == [])
    ensures BareLast(c, [i] + more)
    ensures NoneBare(c, [i] + more) <==> !Bare(c, i) && NoneBare(c, more)
  {
    hide Bare;
    if more != [] {
      assert ([i] + more)[..|more|] == [i] + more[..|more| - 1];
    } else {
      assert ([i] + more)[..0] == [];
    }
    if NoneBare(c, [i] + more) {
      assert ([i] + more)[0] == i;
      forall k | 0 <= k < |more| ensures !Bare(c, more[k]) { assert ([i] + more)[k + 1] == more[k]; }
    }
  }

  lemma BlockProduces(c: Context, params: map<string, nat>, ts: seq<Token>)
    requires TableOk(c.table) && TokensOk(ts)
    ensures var r := BlockAt(c, params, ts);
      r.Ok? ==>
        && TokensOk(r.value.1) && (NoFloats(r.value.0.instructions) ==> BlockOk(c, r.value.0))
        && (!NoneBare(c, r.value.0.instructions) ==> !Check(r.value.1, Identifier))
        && Check(ts, Identifier)
  {
    hide TableOk, TokensOk, InstructionLoop, IsName, AllShaped, AllInstructionsPrintable, BareLast, NoneBare, NoFloats, AllProduced, Any;
    if BlockAt(c, params, ts).Ok? {
      AnyProduces(ts, Identifier);
      var labelName := Any(ts, Identifier).value;
      AnyProduces(labelName.1, Colon);
      var colon := Any(labelName.1, Colon).value;
      InstructionsProduce(c, params, colon.1);
      var s := InstructionLoop(c, params, colon.1).value.0;
      if NoFloats(s) { ProducedPrintable(c, s); }
    }
  }

  predicate NoFloatBlocks(s: seq<Block>) { forall k :: 0 <= k < |s| ==> NoFloats(s[k].instructions) }

  lemma {:induction false} BlocksProduce(c: Context, params: map<string, nat>, ts: seq<Token>)
    requires TableOk(c.table) && TokensOk(ts)
    ensures var r := BlockLoop(c, params, ts);
      r.Ok? ==> TokensOk(r.value.1) && (NoFloatBlocks(r.value.0) ==> BlocksOk(c, r.value.0))
    ensures BlockLoop(c, params, ts).Ok? && !Check(ts, Identifier) ==> BlockLoop(c, params, ts).value.0 == []
    decreases |ts|
  {
    hide TableOk, TokensOk, BlockAt, BlockOk, NoneBare, NoFloats;
    if !Check(ts, RBrace) {
      BlockProduces(c, params, ts);
      if BlockAt(c, params, ts).Ok? {
        var b := BlockAt(c, params, ts).value;
        BlocksProduce(c, params, b.1);
        if BlockLoop(c, params, b.1).Ok? {
          var more := BlockLoop(c, params, b.1).value.0;
          OneMoreBlock(c, b.0, more);
        }
      }
    }
  }

  lemma OneMoreBlock(c: Context, b: Block, more: seq<Block>)
    requires NoFloats(b.instructions) ==> BlockOk(c, b)
    requires NoFloatBlocks(more) ==> BlocksOk(c, more)
    requires !NoneBare(c, b.instructions) ==> more == []
    ensures NoFloatBlocks([b] + more) ==> BlocksOk(c, [b] + more)
  {
    hide BlockOk, NoneBare, NoFloats;
    var all := [b] + more;
    if NoFloatBlocks(all) {
      assert all[0] == b && forall k :: 0 <= k < |more| ==> more[k] == all[k + 1];
      assert NoFloatBlocks(more);
      forall k | 0 <= k < |all| ensures BlockOk(c, all[k]) { assert k > 0 ==> all[k] == more[k - 1]; }
      forall k | 0 <= k < |all| - 1 ensures NoneBare(c, all[k].instructions) { assert k > 0 ==> all[k] == more[k - 1]; }
    }
  }

  // ---------------------------------------------------------------- functions and modules

  lemma {:induction false} ParamLoopProduces(ts: seq<Token>)
    requires TokensOk(ts)
    ensures ParamLoop(ts).Ok? ==> TokensOk(ParamLoop(ts).value.1)
    decreases |ts|
  {
    hide TokensOk, Any, TypeAt;
    AnyProduces(ts, Identifier);
    if ParamAt(ts).Ok? {
      var name := Any(ts, Identifier).value;
      AnyProduces(name.1, Colon);
      TypeProduces(Any(name.1, Colon).value.1);
      var rest := ParamAt(ts).value.1;
      if Check(rest, Comma) {
        AnyProduces(rest, Comma);
        AnyIs(rest, Comma);
        ParamLoopProduces(rest[1..]);
      }
    }
  }

  lemma AnyIs(ts: seq<Token>, kind: TokenKind)
    requires kind != End && Check(ts, kind)
    ensures ts != [] && Any(ts, kind) == Ok((ts[0], ts[1..]))
  {
  }

  lemma NameProduces(ts: seq<Token>)
    requires TokensOk(ts)
    ensures var r := NameAt(ts); r.Ok? ==> TokensOk(r.value.1) && IsName(r.value.0.name)
  {
    hide IsName;
  }

  lemma HeaderProduces(ts: seq<Token>)
    requires TokensOk(ts)
    ensures var r := HeaderAt(ts);
      r.Ok? ==> TokensOk(r.value.1) && IsName(r.value.0.name) && ParamsPrintable(r.value.0.params) && r.value.0.returnType < TYPE_COUNT
  {
    hide TokensOk, IsName, NameAt, Any, TypeAt, ParamLoop;
    if HeaderAt(ts).Ok? {
      NameProduces(ts);
      var head := NameAt(ts).value;
      AnyProduces(head.1, LParen);
      var open := Any(head.1, LParen).value;
      if !Check(open.1, RParen) { ParamLoopProduces(open.1); }
      var params := ParamsAt(open.1).value;
      AnyProduces(params.1, RParen);
      var close := Any(params.1, RParen).value;
      AnyProduces(close.1, Arrow);
      var arrow := Any(close.1, Arrow).value;
      TypeProduces(arrow.1);
      AnyProduces(TypeAt(arrow.1).value.1, LBrace);
    }
  }

  lemma FunctionProduces(c: Context, ts: seq<Token>)
    requires TableOk(c.table) && TokensOk(ts)
    ensures var r := FunctionAt(c, ts);
      r.Ok? ==> TokensOk(r.value.1) && (NoFloatBlocks(r.value.0.blocks) ==> FunctionOk(c, r.value.0))
  {
    hide TableOk, TokensOk, IsName, HeaderAt, BlockLoop, BlockPrintable, AllShaped, BareLast, NoFloatBlocks, ParamsPrintable, Any, NoneBare;
    if FunctionAt(c, ts).Ok? {
      HeaderProduces(ts);
      var head := HeaderAt(ts).value;
      var params := IndexMap(ParamNames(head.0.params));
      BlocksProduce(c, params, head.1);
      AnyProduces(BlockLoop(c, params, head.1).value.1, RBrace);
    }
  }

  predicate NoFloatFunctions(fs: seq<Function>) { forall k :: 0 <= k < |fs| ==> NoFloatBlocks(fs[k].blocks) }

  lemma {:induction false} FunctionsProduce(c: Context, moduleName: string, ts: seq<Token>)
    requires TableOk(c.table) && TokensOk(ts)
    ensures var r := FunctionLoop(c, moduleName, ts);
      r.Ok? && NoFloatFunctions(r.value.0) ==> AllFunctionsOk(c, moduleName, r.value.0)
    decreases |ts|
  {
    hide TableOk, TokensOk, FunctionAt, FunctionPrintable, BlocksOk, NoFloatBlocks;
    if !Check(ts, End) {
      FunctionProduces(c, ts);
      if FunctionAt(c, ts).Ok? {
        var f := FunctionAt(c, ts).value;
        FunctionsProduce(c, moduleName, f.1);
        if FunctionLoop(c, moduleName, ts).Ok? {
          OneMoreFunction(c, moduleName, f.0, FunctionLoop(c, moduleName, f.1).value.0);
        }
      }
    }
  }

  lemma OneMoreFunction(c: Context, moduleName: string, f: Function, more: seq<Function>)
    requires NoFloatBlocks(f.blocks) ==> FunctionOk(c, f)
    requires NoFloatFunctions(more) ==> AllFunctionsOk(c, moduleName, more)
    ensures var all := [f.(moduleName := moduleName)] + more; NoFloatFunctions(all) ==> AllFunctionsOk(c, moduleName, all)
  {
    hide BlocksOk, NoFloatBlocks, ParamsPrintable, AllBlocksPrintable, IsName;
    var g := f.(moduleName := moduleName);
    var all := [g] + more;
    if NoFloatFunctions(all) {
      assert all[0] == g && forall k :: 0 <= k < |more| ==> more[k] == all[k + 1];
      assert NoFloatFunctions(more);
      forall k | 0 <= k < |all| ensures FunctionOk(c, all[k]) && all[k].moduleName == moduleName {
        assert k > 0 ==> all[k] == more[k - 1];
      }
    }
  }

  lemma ModuleProduces(c: Context, source: string, strtod: string -> UInt64)
    requires TableOk(c.table)
    ensures var r := ParseModuleSpec(c, source, strtod);
      r.Ok? && NoFloatFunctions(r.value.functions) ==> ModuleOk(c, r.value)
  {
    hide TableOk, TokensOk, LexSpec, FunctionLoop, AllFunctionsOk, NoFloatFunctions, IsName, Any;
    LexProduces(source, 1, strtod);
    if ParseModuleSpec(c, source, strtod).Ok? {
      var ts := LexSpec(source, 1, strtod).value;
      WordProduces(ts, "module");
      AnyProduces(Word(ts, "module").value.1, Identifier);
      var name := Any(Word(ts, "module").value.1, Identifier).value;
      FunctionsProduce(c, name.0.text, name.1);
    }
  }

  lemma WordProduces(ts: seq<Token>, word: string)
    requires TokensOk(ts)
    ensures Word(ts, word).Ok? ==> TokensOk(Word(ts, word).value.1)
  {
    hide IsName;
  }

  // ---------------------------------------------------------------- the round trip

  // For every source text: if it parses to a module without float immediates that links on its own, then the
  // disassembly of the linked program parses again, to the same module up to parameter names and line
  // numbers, and links to the same program up to those.
  lemma TextRoundTrip(c: Context, source: string, show: UInt64 -> string, strtod: string -> UInt64, p: Program)
    requires TableOk(c.table)
    requires ParseModuleSpec(c, source, strtod).Ok? && NoFloatFunctions(ParseModuleSpec(c, source, strtod).value.functions)
    requires Linker.IsLinked([ParseModuleSpec(c, source, strtod).value], p)
    ensures var again := ParseModuleSpec(c, DisassembleSpec(c.table, show, p), strtod);
      && again.Ok? && SameUpToNames(again.value, ParseModuleSpec(c, source, strtod).value)
      && Linker.IsLinked([again.value], Program(again.value.functions, p.entryIndex))
  {
    hide *;
    var m := ParseModuleSpec(c, source, strtod).value;
    ModuleProduces(c, source, strtod);
    LinkedWhole(m, p);
    PrintedReads(c, m, p, show, strtod);
    SameLinks(m, ParseModuleSpec(c, DisassembleSpec(c.table, show, p), strtod).value, p);
  }

  lemma LinkedWhole(m: Object, p: Program)
    requires Linker.IsLinked([m], p)
    ensures p.functions == m.functions && m.functions != []
  {
    Linker.OneObject(m);
  }

  lemma SameFunctions(fs: seq<Function>, gs: seq<Function>)
    requires ErasedFunctions(gs) == ErasedFunctions(fs)
    ensures |gs| == |fs| && forall k :: 0 <= k < |fs| ==> ErasedFunction(gs[k]) == ErasedFunction(fs[k])
    ensures FunctionNames(gs) == FunctionNames(fs)
    ensures forall k :: 0 <= k < |fs| ==> gs[k].name == fs[k].name && gs[k].isExported == fs[k].isExported
  {
    assert |ErasedFunctions(gs)| == |ErasedFunctions(fs)|;
    forall k | 0 <= k < |fs|
      ensures ErasedFunction(gs[k]) == ErasedFunction(fs[k]) && gs[k].name == fs[k].name && gs[k].isExported == fs[k].isExported
    {
      assert ErasedFunctions(gs)[k] == ErasedFunctions(fs)[k];
      hide ErasedBlocks, ErasedParams;
    }
  }

  // Functions that are equal up to names link alike.
  lemma SameLinks(m: Object, n: Object, p: Program)
    requires SameUpToNames(n, m) && Linker.IsLinked([m], p)
    ensures Linker.IsLinked([n], Program(n.functions, p.entryIndex))
  {
    hide ErasedFunctions, ErasedFunction, Linker.Flatten, Linker.CallsResolve, FunctionNames;
    Linker.OneObject(m);
    Linker.OneObject(n);
    var fs, gs := m.functions, n.functions;
    SameFunctions(fs, gs);
    forall k | 0 <= k < |gs| ensures Linker.CallsResolve(gs[k], FunctionNames(gs)) {
      SameCalls(fs[k], gs[k], FunctionNames(fs));
    }
    var main :| 0 <= main < |fs| && Linker.IsMain(fs[main]) && p.entryIndex == main % 0x1_0000_0000;
    assert Linker.IsMain(gs[main]);
  }

  lemma SameCalls(f: Function, g: Function, names: seq<string>)
    requires ErasedFunction(f) == ErasedFunction(g) && Linker.CallsResolve(f, names)
    ensures Linker.CallsResolve(g, names)
  {
    assert ErasedBlocks(f.blocks) == ErasedBlocks(g.blocks);
    forall b, i | 0 <= b < |g.blocks| && 0 <= i < |g.blocks[b].instructions|
      ensures Linker.CallResolves(g.blocks[b].instructions[i], names)
    {
      assert ErasedBlocks(f.blocks)[b] == ErasedBlocks(g.blocks)[b];
      assert NoLines(f.blocks[b].instructions)[i] == NoLines(g.blocks[b].instructions)[i];
      assert Linker.CallResolves(f.blocks[b].instructions[i], names);
    }
  }
}
