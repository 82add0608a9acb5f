// Lexing whole printed instructions, blocks, functions and modules.

module TextModules {
  import opened Ast
  import opened Lexer
  import opened Opcodes
  import opened Disassembler
  import opened TextTokens

  // ---------------------------------------------------------------- instructions

  predicate InstructionPrintable(table: OpcodeTable, i: Instruction) {
    ReadsBack(table, i.opcode) && i.ty < TYPE_COUNT && i.ty2 < TYPE_COUNT && AllPrintable(i.operands)
  }

  lemma ListedPrintable(i: Instruction)
    requires AllPrintable(i.operands)
    ensures AllPrintable(Listed(i))
  {
    hide IsName;
  }

  function InstructionTokens(table: OpcodeTable, i: Instruction): seq<Token>
    requires InstructionPrintable(table, i)
  {
    ListedPrintable(i);
    [IdentToken(table[i.opcode].mnemonic)]
    + (SuffixTokens(table[i.opcode].suffix, i.ty) + (SuffixTokens(table[i.opcode].suffix2, i.ty2) + OperandTokens(Listed(i))))
  }

  lemma Seven(a: string, b: string, c: string, d: string, e: string, f: string, g: string, rest: string)
    ensures (a + b + c + d + e + f + g) + rest == a + (b + (c + (d + (e + (f + (g + rest))))))
  {
    Assoc(a + b + c + d + e + f, g, rest);
    Assoc(a + b + c + d + e, f, g + rest);
    Assoc(a + b + c + d, e, f + (g + rest));
    Assoc(a + b + c, d, e + (f + (g + rest)));
    Assoc(a + b, c, d + (e + (f + (g + rest))));
    Assoc(a, b, c + (d + (e + (f + (g + rest)))));
  }

  lemma BlankNotIdent(rest: string)
    ensures NotIdent(" " + rest) && NotIdent("\n" + rest) && NotIdent("\n\n" + rest) && NotIdent(":" + rest) && NotIdent("(" + rest)
    ensures NotIdent(")" + rest) && NotIdent("," + rest)
  {
    assert (" " + rest)[0] == ' ' && ("\n" + rest)[0] == '\n' && ("\n\n" + rest)[0] == '\n' && (":" + rest)[0] == ':';
    assert ("(" + rest)[0] == '(' && (")" + rest)[0] == ')' && ("," + rest)[0] == ',';
  }

  lemma LexInstruction(table: OpcodeTable, i: Instruction, rest: string, show: UInt64 -> string, strtod: string -> UInt64)
    requires TableOk(table) && InstructionPrintable(table, i)
    ensures LexCore(InstructionText(table, show, i) + rest, strtod) == Then(InstructionTokens(table, i), LexCore(rest, strtod))
  {
    hide LexCore, IsName, OpcodeFromName, OperandsText, Listed, OperandTokens, SuffixText, SuffixTokens, AllPrintable, NotIdent;
    ListedPrintable(i);
    var e := table[i.opcode];
    var core := LexCore(rest, strtod);
    var s1, s2, o := SuffixText(e.suffix, i.ty), SuffixText(e.suffix2, i.ty2), OperandsText(Listed(i), show);
    Seven("    ", e.mnemonic, s1, s2, " ", o, "\n", rest);
    var r := o + ("\n" + rest);
    LexOperands(Listed(i), rest, show, strtod);
    LexBlanks(r, strtod);
    BlankNotIdent(r);
    LexSuffix(e.suffix2, i.ty2, " " + r, strtod);
    LexSuffix(e.suffix, i.ty, s2 + (" " + r), strtod);
    LexName(e.mnemonic, s1 + (s2 + (" " + r)), strtod);
    LexBlanks(e.mnemonic + (s1 + (s2 + (" " + r))), strtod);
    var t1, t2, t3 := SuffixTokens(e.suffix, i.ty), SuffixTokens(e.suffix2, i.ty2), OperandTokens(Listed(i));
    ThenMore(t2, t3, core);
    ThenMore(t1, t2 + t3, core);
    ThenMore([IdentToken(e.mnemonic)], t1 + (t2 + t3), core);
  }

  predicate AllInstructionsPrintable(table: OpcodeTable, s: seq<Instruction>) {
    forall k :: 0 <= k < |s| ==> InstructionPrintable(table, s[k])
  }

  function InstructionsTokens(table: OpcodeTable, s: seq<Instruction>): seq<Token>
    requires AllInstructionsPrintable(table, s)
  {
    if s == [] then [] else InstructionTokens(table, s[0]) + InstructionsTokens(table, s[1..])
  }

  lemma TextsUnfold<T>(text: T -> string, xs: seq<T>, rest: string)
    ensures xs == [] ==> Texts(text, xs) + rest == rest
    ensures xs != [] ==> Texts(text, xs) + rest == text(xs[0]) + (Texts(text, xs[1..]) + rest)
  {
    if xs != [] { Assoc(text(xs[0]), Texts(text, xs[1..]), rest); }
  }

  lemma {:induction false} LexInstructions(table: OpcodeTable, s: seq<Instruction>, rest: string, show: UInt64 -> string, strtod: string -> UInt64)
    requires TableOk(table) && AllInstructionsPrintable(table, s)
    ensures LexCore(Texts(InstructionWriter(table, show), s) + rest, strtod) == Then(InstructionsTokens(table, s), LexCore(rest, strtod))
    decreases |s|
  {
    hide LexCore, InstructionText, InstructionTokens, InstructionPrintable, TableOk, Texts;
    TextsUnfold(InstructionWriter(table, show), s, rest);
    ThenMore([], [], LexCore(rest, strtod));
    if s != [] {
      LexInstructions(table, s[1..], rest, show, strtod);
      LexInstruction(table, s[0], Texts(InstructionWriter(table, show), s[1..]) + rest, show, strtod);
      ThenMore(InstructionTokens(table, s[0]), InstructionsTokens(table, s[1..]), LexCore(rest, strtod));
    }
  }

  // ---------------------------------------------------------------- blocks

  predicate BlockPrintable(table: OpcodeTable, b: Block) {
    IsName(b.labelName) && AllInstructionsPrintable(table, b.instructions)
  }

  function BlockTokens(table: OpcodeTable, b: Block): seq<Token>
    requires BlockPrintable(table, b)
  {
    [IdentToken(b.labelName)] + ([MarkToken(':')] + InstructionsTokens(table, b.instructions))
  }

  lemma LexBlock(table: OpcodeTable, b: Block, rest: string, show: UInt64 -> string, strtod: string -> UInt64)
    requires TableOk(table) && BlockPrintable(table, b)
    ensures LexCore(BlockText(table, show, b) + rest, strtod) == Then(BlockTokens(table, b), LexCore(rest, strtod))
  {
    hide LexCore, IsName, Texts, InstructionsTokens, AllInstructionsPrintable, TableOk, NotIdent;
    var t := Texts(InstructionWriter(table, show), b.instructions);
    var ts, core := InstructionsTokens(table, b.instructions), LexCore(rest, strtod);
    BlockUnfolds(b.labelName, t, rest);
    LexInstructions(table, b.instructions, rest, show, strtod);
    LexBlanks(t + rest, strtod);
    LexMark(':', "\n" + (t + rest), strtod);
    BlankNotIdent("\n" + (t + rest));
    LexName(b.labelName, ":" + ("\n" + (t + rest)), strtod);
    ThenMore([MarkToken(':')], ts, core);
    ThenMore([IdentToken(b.labelName)], [MarkToken(':')] + ts, core);
  }

  lemma BlockUnfolds(l: string, t: string, rest: string)
    ensures (l + ":\n" + t) + rest == l + (":" + ("\n" + (t + rest)))
  {
    Assoc(l + ":\n", t, rest);
    Assoc(l, ":\n", t + rest);
    Assoc(":", "\n", t + rest);
    assert ":" + "\n" == ":\n";
  }

  predicate AllBlocksPrintable(table: OpcodeTable, s: seq<Block>) { forall k :: 0 <= k < |s| ==> BlockPrintable(table, s[k]) }

  function BlocksTokens(table: OpcodeTable, s: seq<Block>): seq<Token>
    requires AllBlocksPrintable(table, s)
  {
    if s == [] then [] else BlockTokens(table, s[0]) + BlocksTokens(table, s[1..])
  }

  lemma {:induction false} LexBlocks(table: OpcodeTable, s: seq<Block>, rest: string, show: UInt64 -> string, strtod: string -> UInt64)
    requires TableOk(table) && AllBlocksPrintable(table, s)
    ensures LexCore(Texts(BlockWriter(table, show), s) + rest, strtod) == Then(BlocksTokens(table, s), LexCore(rest, strtod))
    decreases |s|
  {
    hide LexCore, BlockText, BlockTokens, BlockPrintable, TableOk, Texts;
    TextsUnfold(BlockWriter(table, show), s, rest);
    ThenMore([], [], LexCore(rest, strtod));
    if s != [] {
      LexBlocks(table, s[1..], rest, show, strtod);
      LexBlock(table, s[0], Texts(BlockWriter(table, show), s[1..]) + rest, show, strtod);
      ThenMore(BlockTokens(table, s[0]), BlocksTokens(table, s[1..]), LexCore(rest, strtod));
    }
  }

  // ---------------------------------------------------------------- parameters

  predicate ParamsPrintable(ps: seq<Param>) { forall k :: 0 <= k < |ps| ==> ps[k].ty < TYPE_COUNT }

  function OneParamTokens(p: Param, k: nat): seq<Token>
    requires p.ty < TYPE_COUNT
  {
    [IdentToken(ParamName(k))] + ([MarkToken(':')] + [IdentToken(TypeName(p.ty))])
  }

  function ParamsTokens(ps: seq<Param>, k: nat): seq<Token>
    requires ParamsPrintable(ps)
  {
    if ps == [] then []
    else (if k > 0 then [MarkToken(',')] else []) + (OneParamTokens(ps[0], k) + ParamsTokens(ps[1..], k + 1))
  }

  lemma ParamNameIsName(k: nat)
    ensures IsName(ParamName(k))
  {
    DecimalDigits(k);
    var d := Decimal(k);
    hide Decimal;
    forall i | 0 <= i < |ParamName(k)| ensures IsIdentChar(ParamName(k)[i]) {
      if i > 0 { assert ParamName(k)[i] == d[i - 1]; }
    }
  }

  lemma LexOneParam(p: Param, k: nat, rest: string, strtod: string -> UInt64)
    requires p.ty < TYPE_COUNT && NotIdent(rest)
    ensures LexCore((ParamName(k) + (": " + TypeText(p.ty))) + rest, strtod) == Then(OneParamTokens(p, k), LexCore(rest, strtod))
  {
    hide LexCore, IsName, NotIdent, ParamName, TypeText, TypeName;
    var core := LexCore(rest, strtod);
    var t := TypeText(p.ty) + rest;
    Assoc(ParamName(k), ": " + TypeText(p.ty), rest);
    Assoc(": ", TypeText(p.ty), rest);
    ColonBlank(t);
    LexType(p.ty, rest, strtod);
    LexBlanks(t, strtod);
    LexMark(':', " " + t, strtod);
    BlankNotIdent(" " + t);
    ParamNameIsName(k);
    LexName(ParamName(k), ":" + (" " + t), strtod);
    ThenMore([MarkToken(':')], [IdentToken(TypeName(p.ty))], core);
    ThenMore([IdentToken(ParamName(k))], [MarkToken(':')] + [IdentToken(TypeName(p.ty))], core);
  }

  lemma ColonBlank(rest: string)
    ensures ": " + rest == ":" + (" " + rest)
  {
  }

  lemma ParamsUnfold(ps: seq<Param>, k: nat, rest: string)
    requires ps != []
    ensures ParamsText(ps, k) + rest ==
      (if k > 0 then ", " else "") + ((ParamName(k) + (": " + TypeText(ps[0].ty))) + (ParamsText(ps[1..], k + 1) + rest))
  {
    var c, n, t, m := if k > 0 then ", " else "", ParamName(k), TypeText(ps[0].ty), ParamsText(ps[1..], k + 1);
    assert ParamsText(ps, k) == c + n + ": " + t + m;
    hide *;
    Assoc(c + n + ": " + t, m, rest);
    Assoc(c + n + ": ", t, m + rest);
    Assoc(c + n, ": ", t + (m + rest));
    Assoc(c, n, ": " + (t + (m + rest)));
    Assoc(": ", t, m + rest);
    Assoc(n, ": " + t, m + rest);
  }

  lemma ParamsEnd(ps: seq<Param>, k: nat, rest: string)
    requires k > 0 && NotIdent(rest)
    ensures NotIdent(ParamsText(ps, k) + rest)
  {
    if ps != [] {
      ParamsUnfold(ps, k, rest);
      assert (ParamsText(ps, k) + rest)[0] == ',';
    } else {
      assert "" + rest == rest;
    }
  }

  lemma {:induction false} LexParams(ps: seq<Param>, k: nat, rest: string, strtod: string -> UInt64)
    requires ParamsPrintable(ps) && NotIdent(rest)
    ensures LexCore(ParamsText(ps, k) + rest, strtod) == Then(ParamsTokens(ps, k), LexCore(rest, strtod))
    decreases |ps|
  {
    hide LexCore, NotIdent, ParamName, TypeText, OneParamTokens;
    var core := LexCore(rest, strtod);
    ThenMore([], [], core);
    if ps == [] {
      assert "" + rest == rest;
    } else {
      var more := ParamsText(ps[1..], k + 1) + rest;
      var one := ParamName(k) + (": " + TypeText(ps[0].ty));
      ParamsUnfold(ps, k, rest);
      ParamsEnd(ps[1..], k + 1, rest);
      LexParams(ps[1..], k + 1, rest, strtod);
      LexOneParam(ps[0], k, more, strtod);
      var ts := OneParamTokens(ps[0], k) + ParamsTokens(ps[1..], k + 1);
      ThenMore(OneParamTokens(ps[0], k), ParamsTokens(ps[1..], k + 1), core);
      if k > 0 {
        CommaBlank(one + more);
        LexBlanks(one + more, strtod);
        LexMark(',', " " + (one + more), strtod);
        ThenMore([MarkToken(',')], ts, core);
      } else {
        assert "" + (one + more) == one + more;
        assert [] + ts == ts;
      }
    }
  }

  // ---------------------------------------------------------------- functions

  predicate FunctionPrintable(table: OpcodeTable, f: Function) {
    IsName(f.name) && ParamsPrintable(f.params) && f.returnType < TYPE_COUNT && AllBlocksPrintable(table, f.blocks)
  }

  function ExportTokens(f: Function): seq<Token> { if f.isExported then [IdentToken("export")] else [] }

  // From the closing parenthesis to the closing brace.
  function TailTokens(table: OpcodeTable, f: Function): seq<Token>
    requires FunctionPrintable(table, f)
  {
    [MarkToken(')')] + ([ARROW] + ([IdentToken(TypeName(f.returnType))] + ([MarkToken('{')] +
      (BlocksTokens(table, f.blocks) + [MarkToken('}')]))))
  }

  function FunctionTokens(table: OpcodeTable, f: Function): seq<Token>
    requires FunctionPrintable(table, f)
  {
    ExportTokens(f) + ([IdentToken("func")] + ([IdentToken(f.name)] + ([MarkToken('(')] +
      (ParamsTokens(f.params, 0) + TailTokens(table, f)))))
  }

  lemma Keywords()
    ensures IsName("export") && IsName("func") && IsName("module")
  {
  }

  // ") -> type {", the blocks and "}".
  lemma LexTail(table: OpcodeTable, f: Function, rest: string, show: UInt64 -> string, strtod: string -> UInt64)
    requires TableOk(table) && FunctionPrintable(table, f)
    ensures var b := Texts(BlockWriter(table, show), f.blocks);
      LexCore(")" + (" " + ("->" + (" " + (TypeText(f.returnType) + (" " + ("{" + ("\n" + (b + ("}" + ("\n\n" + rest)))))))))), strtod)
      == Then(TailTokens(table, f), LexCore(rest, strtod))
  {
    hide LexCore, IsName, NotIdent, TypeText, TypeName, Texts, BlocksTokens, AllBlocksPrintable, ParamsPrintable, TableOk;
    var b, core := Texts(BlockWriter(table, show), f.blocks), LexCore(rest, strtod);
    var bs := BlocksTokens(table, f.blocks);
    LexBlanks(rest, strtod);
    LexMark('}', "\n\n" + rest, strtod);
    var r1 := b + ("}" + ("\n\n" + rest));
    LexBlocks(table, f.blocks, "}" + ("\n\n" + rest), show, strtod);
    ThenMore(bs, [MarkToken('}')], core);
    LexBlanks(r1, strtod);
    LexMark('{', "\n" + r1, strtod);
    ThenMore([MarkToken('{')], bs + [MarkToken('}')], core);
    var r2 := "{" + ("\n" + r1);
    LexBlanks(r2, strtod);
    BlankNotIdent(r2);
    LexType(f.returnType, " " + r2, strtod);
    var t2 := [MarkToken('{')] + (bs + [MarkToken('}')]);
    ThenMore([IdentToken(TypeName(f.returnType))], t2, core);
    var r3 := TypeText(f.returnType) + (" " + r2);
    LexBlanks(r3, strtod);
    LexArrow(" " + r3, strtod);
    var t3 := [IdentToken(TypeName(f.returnType))] + t2;
    ThenMore([ARROW], t3, core);
    LexBlanks("->" + (" " + r3), strtod);
    LexMark(')', " " + ("->" + (" " + r3)), strtod);
    ThenMore([MarkToken(')')], [ARROW] + t3, core);
  }

  lemma TailUnfolds(rt: string, b: string, rest: string)
    ensures ") -> " + (rt + (" {\n" + (b + ("}\n\n" + rest)))) ==
      ")" + (" " + ("->" + (" " + (rt + (" " + ("{" + ("\n" + (b + ("}" + ("\n\n" + rest))))))))))
  {
    Brace(rest);
    var r1 := b + ("}" + ("\n\n" + rest));
    OpenBrace(r1);
    ParenArrow(rt + (" " + ("{" + ("\n" + r1))));
  }

  lemma Brace(rest: string)
    ensures "}\n\n" + rest == "}" + ("\n\n" + rest)
  {
  }

  lemma OpenBrace(rest: string)
    ensures " {\n" + rest == " " + ("{" + ("\n" + rest))
  {
  }

  lemma ParenArrow(rest: string)
    ensures ") -> " + rest == ")" + (" " + ("->" + (" " + rest)))
  {
  }

  lemma FuncBlank(rest: string)
    ensures "func " + rest == "func" + (" " + rest)
    ensures "export " + rest == "export" + (" " + rest)
    ensures "module " + rest == "module" + (" " + rest)
  {
  }

  lemma FunctionUnfolds(e: string, name: string, p: string, rt: string, b: string, rest: string)
    ensures (e + "func " + name + "(" + p + ") -> " + rt + " {\n" + b + "}\n\n") + rest ==
      e + ("func " + (name + ("(" + (p + (") -> " + (rt + (" {\n" + (b + ("}\n\n" + rest)))))))))
  {
    hide *;
    Assoc(e + "func " + name + "(" + p + ") -> " + rt + " {\n" + b, "}\n\n", rest);
    var r1 := "}\n\n" + rest;
    Assoc(e + "func " + name + "(" + p + ") -> " + rt + " {\n", b, r1);
    var r2 := b + r1;
    Assoc(e + "func " + name + "(" + p + ") -> " + rt, " {\n", r2);
    var r3 := " {\n" + r2;
    Assoc(e + "func " + name + "(" + p + ") -> ", rt, r3);
    var r4 := rt + r3;
    Assoc(e + "func " + name + "(" + p, ") -> ", r4);
    var r5 := ") -> " + r4;
    Assoc(e + "func " + name + "(", p, r5);
    var r6 := p + r5;
    Assoc(e + "func " + name, "(", r6);
    Assoc(e + "func ", name, "(" + r6);
    Assoc(e, "func ", name + ("(" + r6));
  }

  lemma LexFunction(table: OpcodeTable, f: Function, rest: string, show: UInt64 -> string, strtod: string -> UInt64)
    requires TableOk(table) && FunctionPrintable(table, f)
    ensures LexCore(FunctionText(table, show, f) + rest, strtod) == Then(FunctionTokens(table, f), LexCore(rest, strtod))
  {
    hide LexCore, IsName, NotIdent, TypeText, Texts, TailTokens, ParamsTokens, AllBlocksPrintable, TableOk, ParamsText, ParamsPrintable;
    var e, p, rt, b := if f.isExported then "export " else "", ParamsText(f.params, 0), TypeText(f.returnType), Texts(BlockWriter(table, show), f.blocks);
    var core, tail := LexCore(rest, strtod), TailTokens(table, f);
    FunctionUnfolds(e, f.name, p, rt, b, rest);
    TailUnfolds(rt, b, rest);
    LexTail(table, f, rest, show, strtod);
    var r1 := ") -> " + (rt + (" {\n" + (b + ("}\n\n" + rest))));
    BlankNotIdent(" " + ("->" + (" " + (rt + (" " + ("{" + ("\n" + (b + ("}" + ("\n\n" + rest))))))))));
    LexParams(f.params, 0, r1, strtod);
    ThenMore(ParamsTokens(f.params, 0), tail, core);
    var t1 := ParamsTokens(f.params, 0) + tail;
    LexMark('(', p + r1, strtod);
    ThenMore([MarkToken('(')], t1, core);
    Keywords();
    BlankNotIdent(p + r1);
    LexName(f.name, "(" + (p + r1), strtod);
    ThenMore([IdentToken(f.name)], [MarkToken('(')] + t1, core);
    var r2, t2 := f.name + ("(" + (p + r1)), [IdentToken(f.name)] + ([MarkToken('(')] + t1);
    FuncBlank(r2);
    LexBlanks(r2, strtod);
    BlankNotIdent(r2);
    LexName("func", " " + r2, strtod);
    ThenMore([IdentToken("func")], t2, core);
    var r3, t3 := "func " + r2, [IdentToken("func")] + t2;
    if f.isExported {
      FuncBlank(r3);
      LexBlanks(r3, strtod);
      BlankNotIdent(r3);
      LexName("export", " " + r3, strtod);
      ThenMore([IdentToken("export")], t3, core);
    } else {
      assert "" + r3 == r3;
      assert [] + t3 == t3;
    }
  }

  predicate AllFunctionsPrintable(table: OpcodeTable, s: seq<Function>) { forall k :: 0 <= k < |s| ==> FunctionPrintable(table, s[k]) }

  function FunctionsTokens(table: OpcodeTable, s: seq<Function>): seq<Token>
    requires AllFunctionsPrintable(table, s)
  {
    if s == [] then [] else FunctionTokens(table, s[0]) + FunctionsTokens(table, s[1..])
  }

  lemma {:induction false} LexFunctions(table: OpcodeTable, s: seq<Function>, rest: string, show: UInt64 -> string, strtod: string -> UInt64)
    requires TableOk(table) && AllFunctionsPrintable(table, s)
    ensures LexCore(Texts(FunctionWriter(table, show), s) + rest, strtod) == Then(FunctionsTokens(table, s), LexCore(rest, strtod))
    decreases |s|
  {
    hide LexCore, FunctionText, FunctionTokens, FunctionPrintable, TableOk, Texts;
    TextsUnfold(FunctionWriter(table, show), s, rest);
    ThenMore([], [], LexCore(rest, strtod));
    if s != [] {
      LexFunctions(table, s[1..], rest, show, strtod);
      LexFunction(table, s[0], Texts(FunctionWriter(table, show), s[1..]) + rest, show, strtod);
      ThenMore(FunctionTokens(table, s[0]), FunctionsTokens(table, s[1..]), LexCore(rest, strtod));
    }
  }

  // ---------------------------------------------------------------- a module

  function ModuleTokens(table: OpcodeTable, name: string, fs: seq<Function>): seq<Token>
    requires AllFunctionsPrintable(table, fs)
  {
    [IdentToken("module")] + ([IdentToken(name)] + FunctionsTokens(table, fs))
  }

  lemma LexModule(table: OpcodeTable, name: string, fs: seq<Function>, show: UInt64 -> string, strtod: string -> UInt64)
    requires TableOk(table) && IsName(name) && AllFunctionsPrintable(table, fs)
    ensures LexCore("module " + name + "\n\n" + Texts(FunctionWriter(table, show), fs), strtod)
      == Some(ModuleTokens(table, name, fs) + [Plain(End, "")])
  {
    hide LexCore, IsName, NotIdent, Texts, FunctionsTokens, AllFunctionsPrintable, TableOk;
    var t, ts := Texts(FunctionWriter(table, show), fs), FunctionsTokens(table, fs);
    var core := LexCore("", strtod);
    assert t + "" == t;
    LexFunctions(table, fs, "", show, strtod);
    EmptyCore(strtod);
    Assoc("module " + name, "\n\n", t);
    Assoc("module ", name, "\n\n" + t);
    FuncBlank(name + ("\n\n" + t));
    LexBlanks(t, strtod);
    BlankNotIdent(t);
    LexName(name, "\n\n" + t, strtod);
    LexBlanks(name + ("\n\n" + t), strtod);
    BlankNotIdent(name + ("\n\n" + t));
    Keywords();
    LexName("module", " " + (name + ("\n\n" + t)), strtod);
    ThenMore([IdentToken(name)], ts, core);
    ThenMore([IdentToken("module")], [IdentToken(name)] + ts, core);
  }

  lemma EmptyCore(strtod: string -> UInt64)
    ensures LexCore("", strtod) == Some([Plain(End, "")])
  {
  }
}
