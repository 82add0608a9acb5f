// Parsing the tokens of printed blocks, functions and modules, and the text round trip of every module that
// has the shape of a parsed one.

module TextPrograms {
  import opened Ast
  import opened Lexer
  import opened Opcodes
  import opened Grammar
  import opened Disassembler
  import opened TextTokens
  import opened TextModules
  import opened TextParse

  // ---------------------------------------------------------------- what the text leaves out

  function NoLines(s: seq<Instruction>): (r: seq<Instruction>)
    ensures |r| == |s|
  {
    seq(|s|, k requires 0 <= k < |s| => NoLine(s[k]))
  }

  function ErasedBlock(b: Block): Block { b.(instructions := NoLines(b.instructions)) }

  function ErasedBlocks(s: seq<Block>): (r: seq<Block>)
    ensures |r| == |s|
  {
    seq(|s|, k requires 0 <= k < |s| => ErasedBlock(s[k]))
  }

  function ErasedParams(s: seq<Param>): (r: seq<Param>)
    ensures |r| == |s|
  {
    seq(|s|, k requires 0 <= k < |s| => Param("", s[k].ty))
  }

  function ErasedFunction(f: Function): Function {
    f.(params := ErasedParams(f.params), blocks := ErasedBlocks(f.blocks))
  }

  function ErasedFunctions(s: seq<Function>): (r: seq<Function>)
    ensures |r| == |s|
  {
    seq(|s|, k requires 0 <= k < |s| => ErasedFunction(s[k]))
  }

  // Two modules that differ at most in parameter names and line numbers.
  predicate SameUpToNames(a: Object, b: Object) {
    a.name == b.name && ErasedFunctions(a.functions) == ErasedFunctions(b.functions)
  }

  // ---------------------------------------------------------------- instructions of a block

  predicate AllShaped(c: Context, s: seq<Instruction>) {
    forall k :: 0 <= k < |s| ==> Shaped(c, s[k]) && InstructionPrintable(c.table, s[k])
  }

  predicate NoneBare(c: Context, s: seq<Instruction>) { forall k :: 0 <= k < |s| ==> !Bare(c, s[k]) }

  // What may follow the instructions of a block: the end of the function, or, unless the last instruction is
  // bare, another label.
  predicate FollowsBlock(c: Context, s: seq<Instruction>, rest: seq<Token>) {
    Check(rest, RBrace) || (Check(rest, Identifier) && AtLabel(rest) && NoneBare(c, s))
  }

  // Only the last instruction may be bare.
  predicate BareLast(c: Context, s: seq<Instruction>) { s == [] || NoneBare(c, s[..|s| - 1]) }

  lemma StartsIdentifier(c: Context, s: seq<Instruction>, ts: seq<Token>)
    requires s != [] && AllInstructionsPrintable(c.table, s) && Starts(ts, InstructionsTokens(c.table, s))
    ensures Check(ts, Identifier)
  {
    hide InstructionPrintable, SuffixTokens, OperandTokens, Listed;
    assert InstructionsTokens(c.table, s)[0] == InstructionTokens(c.table, s[0])[0];
    assert ts[0].(line := 0) == InstructionsTokens(c.table, s)[0];
  }

  // The first instruction and what is left behind it.
  lemma FirstInstruction(c: Context, s: seq<Instruction>, ts: seq<Token>)
    requires s != [] && AllShaped(c, s) && AllInstructionsPrintable(c.table, s) && BareLast(c, s)
    requires Starts(ts, InstructionsTokens(c.table, s)) && FollowsBlock(c, s, ts[|InstructionsTokens(c.table, s)|..])
    ensures var first, more := InstructionTokens(c.table, s[0]), InstructionsTokens(c.table, s[1..]);
      && |first| <= |ts| && Starts(ts, first) && Starts(ts[|first|..], more) && ts[|first|..][|more|..] == ts[|InstructionsTokens(c.table, s)|..]
      && FollowsBlock(c, s[1..], ts[|first|..][|more|..]) && Follows(c, s[0], ts[|first|..])
    ensures AllShaped(c, s[1..]) && BareLast(c, s[1..])
  {
    hide Shaped, InstructionPrintable, InstructionTokens, Bare, Starts;
    var first, more := InstructionTokens(c.table, s[0]), InstructionsTokens(c.table, s[1..]);
    StartsSplit(ts, first, more);
    StartsLong(ts, first);
    var rest := ts[|first|..];
    if |s| > 1 {
      assert s[1..][..|s[1..]| - 1] == s[..|s| - 1][1..];
      assert s[..|s| - 1][0] == s[0] && !Bare(c, s[0]);
      StartsIdentifier(c, s[1..], rest);
    } else {
      assert more == [] && rest[0..] == rest;
    }
  }

  lemma {:induction false} InstructionsRead(c: Context, params: map<string, nat>, s: seq<Instruction>, ts: seq<Token>)
    requires TableOk(c.table) && AllShaped(c, s) && AllInstructionsPrintable(c.table, s) && BareLast(c, s)
    requires Starts(ts, InstructionsTokens(c.table, s)) && FollowsBlock(c, s, ts[|InstructionsTokens(c.table, s)|..])
    ensures var r := InstructionLoop(c, params, ts);
      r.Ok? && r.value.1 == ts[|InstructionsTokens(c.table, s)|..] && NoLines(r.value.0) == NoLines(s)
    decreases |s|
  {
    hide TableOk, Shaped, InstructionPrintable, InstructionTokens, InstructionAt, Bare, Starts, NoLines, NoneBare, BareLast;
    if s == [] {
      assert ts[0..] == ts;
    } else {
      var first := InstructionTokens(c.table, s[0]);
      FirstInstruction(c, s, ts);
      var rest := ts[|first|..];
      NotALabel(c, s[0], ts);
      InstructionReads(c, params, s[0], ts);
      InstructionsRead(c, params, s[1..], rest);
      JoinLines(s[0].(line := ts[0].line), InstructionLoop(c, params, rest).value.0, s);
    }
  }

  lemma JoinLines(i: Instruction, r: seq<Instruction>, s: seq<Instruction>)
    requires s != [] && NoLine(i) == NoLine(s[0]) && NoLines(r) == NoLines(s[1..])
    ensures NoLines([i] + r) == NoLines(s)
  {
    assert NoLines([i] + r) == [NoLine(i)] + NoLines(r);
    assert NoLines(s) == [NoLine(s[0])] + NoLines(s[1..]);
  }

  // ---------------------------------------------------------------- blocks

  predicate BlockOk(c: Context, b: Block) { BlockPrintable(c.table, b) && AllShaped(c, b.instructions) && BareLast(c, b.instructions) }

  // A bare instruction stands at the end of the last block only.
  predicate BlocksOk(c: Context, s: seq<Block>) {
    && (forall k :: 0 <= k < |s| ==> BlockOk(c, s[k]))
    && (forall k :: 0 <= k < |s| - 1 ==> NoneBare(c, s[k].instructions))
  }

  lemma BlocksOkTail(c: Context, s: seq<Block>)
    requires s != [] && BlocksOk(c, s)
    ensures BlocksOk(c, s[1..]) && BlockOk(c, s[0]) && (|s| > 1 ==> NoneBare(c, s[0].instructions))
    ensures AllBlocksPrintable(c.table, s)
  {
    hide BlockPrintable, AllShaped, BareLast, NoneBare;
  }

  lemma BlockReads(c: Context, params: map<string, nat>, b: Block, ts: seq<Token>)
    requires TableOk(c.table) && BlockOk(c, b)
    requires Starts(ts, BlockTokens(c.table, b)) && FollowsBlock(c, b.instructions, ts[|BlockTokens(c.table, b)|..])
    ensures var r := BlockAt(c, params, ts);
      r.Ok? && r.value.1 == ts[|BlockTokens(c.table, b)|..] && ErasedBlock(r.value.0) == ErasedBlock(b)
    ensures Check(ts, Identifier) && AtLabel(ts)
  {
    hide TableOk, AllShaped, AllInstructionsPrintable, InstructionsTokens, InstructionLoop, FollowsBlock, Starts, IsName, BareLast;
    var a, m, t := [IdentToken(b.labelName)], [MarkToken(':')], InstructionsTokens(c.table, b.instructions);
    StartsSplit(ts, a, m + t);
    StartsOne(ts, IdentToken(b.labelName));
    StartsSplit(ts[1..], m, t);
    StartsOne(ts[1..], MarkToken(':'));
    assert ts[1..][1..] == ts[2..];
    assert ts[1] == ts[1..][0];
    InstructionsRead(c, params, b.instructions, ts[1..][1..]);
  }

  lemma StartsLabel(c: Context, s: seq<Block>, ts: seq<Token>)
    requires s != [] && AllBlocksPrintable(c.table, s) && Starts(ts, BlocksTokens(c.table, s))
    ensures Check(ts, Identifier) && AtLabel(ts)
  {
    hide InstructionsTokens, AllInstructionsPrintable, IsName;
    var all := BlocksTokens(c.table, s);
    assert all[0] == BlockTokens(c.table, s[0])[0] && all[1] == BlockTokens(c.table, s[0])[1];
    assert ts[0].(line := 0) == all[0] && ts[1].(line := 0) == all[1];
  }

  lemma JoinBlocks(b: Block, r: seq<Block>, s: seq<Block>)
    requires s != [] && ErasedBlock(b) == ErasedBlock(s[0]) && ErasedBlocks(r) == ErasedBlocks(s[1..])
    ensures ErasedBlocks([b] + r) == ErasedBlocks(s)
  {
    hide ErasedBlock;
    assert ErasedBlocks([b] + r) == [ErasedBlock(b)] + ErasedBlocks(r);
    assert ErasedBlocks(s) == [ErasedBlock(s[0])] + ErasedBlocks(s[1..]);
  }

  lemma {:induction false} BlocksRead(c: Context, params: map<string, nat>, s: seq<Block>, ts: seq<Token>)
    requires TableOk(c.table) && BlocksOk(c, s) && AllBlocksPrintable(c.table, s)
    requires Starts(ts, BlocksTokens(c.table, s)) && Check(ts[|BlocksTokens(c.table, s)|..], RBrace)
    ensures var r := BlockLoop(c, params, ts);
      r.Ok? && r.value.1 == ts[|BlocksTokens(c.table, s)|..] && ErasedBlocks(r.value.0) == ErasedBlocks(s)
    decreases |s|
  {
    hide TableOk, BlockOk, BlockPrintable, BlockTokens, BlockAt, BlocksOk, Starts, ErasedBlock, NoneBare;
    if s == [] {
      assert ts[0..] == ts;
    } else {
      var first, more := BlockTokens(c.table, s[0]), BlocksTokens(c.table, s[1..]);
      BlocksOkTail(c, s);
      StartsSplit(ts, first, more);
      var rest := ts[|first|..];
      if |s| > 1 { StartsLabel(c, s[1..], rest); } else { assert more == []; assert rest[0..] == rest; }
      BlockReads(c, params, s[0], ts);
      BlocksRead(c, params, s[1..], rest);
      JoinBlocks(BlockAt(c, params, ts).value.0, BlockLoop(c, params, rest).value.0, s);
    }
  }

  // ---------------------------------------------------------------- parameters

  lemma OneParamReads(p: Param, k: nat, ts: seq<Token>)
    requires p.ty < TYPE_COUNT && Starts(ts, OneParamTokens(p, k))
    ensures |OneParamTokens(p, k)| == 3 && ParamAt(ts) == Ok((Param(ParamName(k), p.ty), ts[3..]))
  {
    hide TypeName, ParamName, TypeAt, Starts;
    var a, m, t := [IdentToken(ParamName(k))], [MarkToken(':')], [IdentToken(TypeName(p.ty))];
    StartsSplit(ts, a, m + t);
    StartsOne(ts, IdentToken(ParamName(k)));
    StartsSplit(ts[1..], m, t);
    StartsOne(ts[1..], MarkToken(':'));
    TypeReads(p.ty, ts[1..][1..]);
    assert ts[1..][1..] == ts[2..] && ts[2..][1..] == ts[3..];
  }

  // The list from parameter k on, behind its comma if it has one.
  lemma {:induction false} ParamLoopReads(ps: seq<Param>, k: nat, ts: seq<Token>)
    requires ps != [] && ParamsPrintable(ps)
    requires Starts(ts, OneParamTokens(ps[0], k) + ParamsTokens(ps[1..], k + 1))
    requires Check(ts[|OneParamTokens(ps[0], k) + ParamsTokens(ps[1..], k + 1)|..], RParen)
    ensures var r := ParamLoop(ts);
      && r.Ok? && r.value.1 == ts[|OneParamTokens(ps[0], k) + ParamsTokens(ps[1..], k + 1)|..]
      && ErasedParams(r.value.0) == ErasedParams(ps)
    decreases |ps|
  {
    hide ParamAt, OneParamTokens, Starts, ParamName;
    var one, more := OneParamTokens(ps[0], k), ParamsTokens(ps[1..], k + 1);
    StartsSplit(ts, one, more);
    OneParamReads(ps[0], k, ts);
    var rest := ts[|one|..];
    if |ps| == 1 {
      assert more == [] && rest[0..] == rest;
    } else {
      var comma, next := [MarkToken(',')], OneParamTokens(ps[1], k + 1) + ParamsTokens(ps[1..][1..], k + 2);
      assert more == comma + next;
      StartsSplit(rest, comma, next);
      StartsOne(rest, MarkToken(','));
      ParamLoopReads(ps[1..], k + 1, rest[1..]);
      ErasedCons(Param(ParamName(k), ps[0].ty), ParamLoop(rest[1..]).value.0, ps);
    }
  }

  lemma ErasedCons(p: Param, r: seq<Param>, ps: seq<Param>)
    requires ps != [] && p.ty == ps[0].ty && ErasedParams(r) == ErasedParams(ps[1..])
    ensures ErasedParams([p] + r) == ErasedParams(ps)
  {
    assert ErasedParams([p] + r) == [Param("", p.ty)] + ErasedParams(r);
    assert ErasedParams(ps) == [Param("", ps[0].ty)] + ErasedParams(ps[1..]);
  }

  lemma ParamsRead(ps: seq<Param>, ts: seq<Token>)
    requires ParamsPrintable(ps) && Starts(ts, ParamsTokens(ps, 0)) && Check(ts[|ParamsTokens(ps, 0)|..], RParen)
    ensures var r := ParamsAt(ts);
      r.Ok? && r.value.1 == ts[|ParamsTokens(ps, 0)|..] && ErasedParams(r.value.0) == ErasedParams(ps)
  {
    hide Starts, ParamLoop, ParamName;
    if ps == [] {
      assert ts[0..] == ts;
    } else {
      var next := OneParamTokens(ps[0], 0) + ParamsTokens(ps[1..], 1);
      assert ParamsTokens(ps, 0) == next;
      assert ts[0].(line := 0) == next[0] by { FirstOf(ts, next); }
      ParamLoopReads(ps, 0, ts);
    }
  }

  lemma FirstOf(ts: seq<Token>, expected: seq<Token>)
    requires expected != [] && Starts(ts, expected)
    ensures ts != [] && ts[0].(line := 0) == expected[0]
  {
  }

  // ---------------------------------------------------------------- functions

  predicate FunctionOk(c: Context, f: Function) {
    FunctionPrintable(c.table, f) && BlocksOk(c, f.blocks)
  }

  lemma NameReads(f: Function, ts: seq<Token>, rest: seq<Token>)
    requires Starts(ts, ExportTokens(f) + ([IdentToken("func")] + ([IdentToken(f.name)] + rest)))
    ensures |ts| >= |ExportTokens(f)| + 2
    ensures NameAt(ts) == Ok((Function(f.name, "", f.isExported, [], VOID, []), ts[|ExportTokens(f)| + 2..]))
    ensures Starts(ts[|ExportTokens(f)| + 2..], rest) && Check(ts, Identifier)
  {
    hide Starts;
    var a, b := [IdentToken("func")], [IdentToken(f.name)];
    StartsSplit(ts, ExportTokens(f), a + (b + rest));
    var us := if f.isExported then ts[1..] else ts;
    if f.isExported { StartsOne(ts, IdentToken("export")); } else { assert ts[0..] == ts; }
    StartsSplit(us, a, b + rest);
    StartsOne(us, IdentToken("func"));
    StartsSplit(us[1..], b, rest);
    StartsOne(us[1..], IdentToken(f.name));
    assert us[1..][1..] == ts[|ExportTokens(f)| + 2..];
    assert "func" != "export";
  }

  // ") -> type {".
  lemma ReturnReads(f: Function, ts: seq<Token>, rest: seq<Token>)
    requires f.returnType < TYPE_COUNT
    requires Starts(ts, [MarkToken(')')] + ([ARROW] + ([IdentToken(TypeName(f.returnType))] + ([MarkToken('{')] + rest))))
    ensures |ts| >= 4 && Any(ts, RParen) == Ok((ts[0], ts[1..])) && Any(ts[1..], Arrow) == Ok((ts[1], ts[2..]))
    ensures TypeAt(ts[2..]) == Ok((f.returnType, ts[3..])) && Any(ts[3..], LBrace) == Ok((ts[3], ts[4..]))
    ensures Starts(ts[4..], rest) && Check(ts, RParen)
  {
    hide Starts, TypeName, TypeAt, Any, Check;
    var t := [IdentToken(TypeName(f.returnType))];
    StartsSplit(ts, [MarkToken(')')], [ARROW] + (t + ([MarkToken('{')] + rest)));
    StartsOne(ts, MarkToken(')'));
    assert ts[1..][1..] == ts[2..] && ts[2..][1..] == ts[3..] && ts[3..][1..] == ts[4..];
    StartsSplit(ts[1..], [ARROW], t + ([MarkToken('{')] + rest));
    StartsOne(ts[1..], ARROW);
    StartsSplit(ts[2..], t, [MarkToken('{')] + rest);
    TypeReads(f.returnType, ts[2..]);
    StartsSplit(ts[3..], [MarkToken('{')], rest);
    StartsOne(ts[3..], MarkToken('{'));
  }

  lemma DropDrop(ts: seq<Token>, a: nat, b: nat)
    requires a + b <= |ts|
    ensures b <= |ts[a..]| && ts[a..][b..] == ts[a + b..]
  {
  }

  // The opening parenthesis, the parameters and what is left.
  lemma ListReads(ps: seq<Param>, us: seq<Token>, tail: seq<Token>)
    requires ParamsPrintable(ps) && Starts(us, [MarkToken('(')] + (ParamsTokens(ps, 0) + tail))
    requires Check(us[1..][|ParamsTokens(ps, 0)|..], RParen)
    ensures Any(us, LParen) == Ok((us[0], us[1..]))
    ensures var r := ParamsAt(us[1..]);
      r.Ok? && r.value.1 == us[1..][|ParamsTokens(ps, 0)|..] && ErasedParams(r.value.0) == ErasedParams(ps)
  {
    hide Starts, ParamsAt, ParamsTokens, ParamsPrintable;
    StartsSplit(us, [MarkToken('(')], ParamsTokens(ps, 0) + tail);
    StartsOne(us, MarkToken('('));
    StartsSplit(us[1..], ParamsTokens(ps, 0), tail);
    ParamsRead(ps, us[1..]);
  }

  lemma ListSplits(ps: seq<Param>, us: seq<Token>, tail: seq<Token>)
    requires ParamsPrintable(ps) && Starts(us, [MarkToken('(')] + (ParamsTokens(ps, 0) + tail))
    ensures 1 + |ParamsTokens(ps, 0)| <= |us| && Starts(us[1..][|ParamsTokens(ps, 0)|..], tail)
  {
    hide Starts, ParamsTokens, ParamsPrintable;
    StartsSplit(us, [MarkToken('(')], ParamsTokens(ps, 0) + tail);
    StartsSplit(us[1..], ParamsTokens(ps, 0), tail);
    StartsLong(us[1..], ParamsTokens(ps, 0));
    StartsLong(us, [MarkToken('(')]);
  }

  lemma StartsLong(ts: seq<Token>, expected: seq<Token>)
    requires Starts(ts, expected)
    ensures |expected| <= |ts|
  {
  }

  lemma HeaderReads(c: Context, f: Function, ts: seq<Token>)
    requires FunctionPrintable(c.table, f) && Starts(ts, FunctionTokens(c.table, f))
    ensures var n, r := |ExportTokens(f)| + 3 + |ParamsTokens(f.params, 0)| + 4, HeaderAt(ts);
      && n <= |ts| && r.Ok? && r.value.1 == ts[n..] && Starts(ts[n..], BlocksTokens(c.table, f.blocks) + [MarkToken('}')])
      && r.value.0 == Function(f.name, "", f.isExported, r.value.0.params, f.returnType, [])
      && ErasedParams(r.value.0.params) == ErasedParams(f.params)
    ensures Check(ts, Identifier)
  {
    hide Starts, NameAt, ParamsAt, TypeAt, TypeName, ParamsTokens, BlocksTokens, ExportTokens, Any, ParamsPrintable, AllBlocksPrintable, IsName,
      ErasedParams, Check;
    var e, p, tail := |ExportTokens(f)| + 2, |ParamsTokens(f.params, 0)|, TailTokens(c.table, f);
    NameReads(f, ts, [MarkToken('(')] + (ParamsTokens(f.params, 0) + tail));
    var us := ts[e..];
    ListSplits(f.params, us, tail);
    var vs := us[1..][p..];
    ReturnReads(f, vs, BlocksTokens(c.table, f.blocks) + [MarkToken('}')]);
    ListReads(f.params, us, tail);
    DropDrop(us, 1, p);
    DropDrop(us, 1 + p, 4);
    DropDrop(ts, e, 1 + p + 4);
  }

  lemma FunctionReads(c: Context, f: Function, ts: seq<Token>)
    requires TableOk(c.table) && FunctionOk(c, f) && Starts(ts, FunctionTokens(c.table, f))
    ensures var r := FunctionAt(c, ts);
      r.Ok? && r.value.1 == ts[|FunctionTokens(c.table, f)|..] && ErasedFunction(r.value.0) == ErasedFunction(f).(moduleName := "")
    ensures Check(ts, Identifier)
  {
    hide TableOk, BlocksOk, Starts, HeaderAt, BlockLoop, ParamsTokens, BlocksTokens, ExportTokens, ParamsPrintable, AllBlocksPrintable, IsName,
      TypeName, ErasedParams, ErasedBlocks;
    HeaderReads(c, f, ts);
    var n, bs := |ExportTokens(f)| + 3 + |ParamsTokens(f.params, 0)| + 4, BlocksTokens(c.table, f.blocks);
    StartsSplit(ts[n..], bs, [MarkToken('}')]);
    var us := ts[n..][|bs|..];
    StartsOne(us, MarkToken('}'));
    BlocksRead(c, IndexMap(ParamNames(HeaderAt(ts).value.0.params)), f.blocks, ts[n..]);
    assert us[1..] == ts[|FunctionTokens(c.table, f)|..];
  }

  predicate AllFunctionsOk(c: Context, moduleName: string, fs: seq<Function>) {
    forall k :: 0 <= k < |fs| ==> FunctionOk(c, fs[k]) && fs[k].moduleName == moduleName
  }

  lemma JoinFunctions(f: Function, r: seq<Function>, s: seq<Function>)
    requires s != [] && ErasedFunction(f) == ErasedFunction(s[0]) && ErasedFunctions(r) == ErasedFunctions(s[1..])
    ensures ErasedFunctions([f] + r) == ErasedFunctions(s)
  {
    hide ErasedFunction;
    assert ErasedFunctions([f] + r) == [ErasedFunction(f)] + ErasedFunctions(r);
    assert ErasedFunctions(s) == [ErasedFunction(s[0])] + ErasedFunctions(s[1..]);
  }

  lemma {:induction false} FunctionsRead(c: Context, moduleName: string, fs: seq<Function>, ts: seq<Token>)
    requires TableOk(c.table) && AllFunctionsOk(c, moduleName, fs) && AllFunctionsPrintable(c.table, fs)
    requires Starts(ts, FunctionsTokens(c.table, fs)) && Check(ts[|FunctionsTokens(c.table, fs)|..], End)
    ensures var r := FunctionLoop(c, moduleName, ts);
      r.Ok? && ErasedFunctions(r.value.0) == ErasedFunctions(fs)
    decreases |fs|
  {
    hide TableOk, FunctionOk, FunctionPrintable, FunctionTokens, FunctionAt, Starts, ErasedParams, ErasedBlocks;
    if fs == [] {
      assert ts[0..] == ts;
    } else {
      StartsSplit(ts, FunctionTokens(c.table, fs[0]), FunctionsTokens(c.table, fs[1..]));
      FunctionReads(c, fs[0], ts);
      var f, rest := FunctionAt(c, ts).value.0, FunctionAt(c, ts).value.1;
      FunctionsRead(c, moduleName, fs[1..], rest);
      JoinFunctions(f.(moduleName := moduleName), FunctionLoop(c, moduleName, rest).value.0, fs);
    }
  }

  // ---------------------------------------------------------------- modules

  predicate ModuleOk(c: Context, m: Object) { IsName(m.name) && AllFunctionsOk(c, m.name, m.functions) }

  lemma ModuleParses(c: Context, m: Object, ts: seq<Token>)
    requires TableOk(c.table) && ModuleOk(c, m) && AllFunctionsPrintable(c.table, m.functions)
    requires Starts(ts, ModuleTokens(c.table, m.name, m.functions) + [Plain(End, "")])
    ensures ParseSpec(c, ts).Ok? && SameUpToNames(ParseSpec(c, ts).value, m)
  {
    hide TableOk, AllFunctionsOk, AllFunctionsPrintable, FunctionsTokens, FunctionLoop, Starts, IsName, ErasedFunctions;
    var a, b, fs, end := [IdentToken("module")], [IdentToken(m.name)], FunctionsTokens(c.table, m.functions), [Plain(End, "")];
    StartsSplit(ts, a + (b + fs), end);
    StartsSplit(ts, a, b + fs);
    StartsOne(ts, IdentToken("module"));
    StartsSplit(ts[1..], b, fs);
    StartsOne(ts[1..], IdentToken(m.name));
    var us := ts[1..][1..];
    assert us[|fs|..] == ts[|a + (b + fs)|..];
    StartsOne(us[|fs|..], Plain(End, ""));
    FunctionsRead(c, m.name, m.functions, us);
  }

  lemma {:induction false} OneModule(fs: seq<Function>, m: string)
    requires fs != [] && forall k :: 0 <= k < |fs| ==> fs[k].moduleName == m
    ensures ModuleOrder(fs) == [m] && OfModule(fs, m) == fs
  {
    var front, last := fs[..|fs| - 1], fs[|fs| - 1];
    assert fs == front + [last];
    if front == [] {
      assert ModuleOrder(front) == [] && OfModule(front, m) == [];
    } else {
      OneModule(front, m);
    }
  }

  lemma StripStarts(ts: seq<Token>, expected: seq<Token>)
    requires Strip(ts) == expected
    ensures Starts(ts, expected)
  {
  }

  lemma PrintedModule(table: OpcodeTable, show: UInt64 -> string, m: Object, p: Program)
    requires m.functions != [] && p.functions == m.functions
    requires forall k :: 0 <= k < |m.functions| ==> m.functions[k].moduleName == m.name
    ensures DisassembleSpec(table, show, p) == "module " + m.name + "\n\n" + Texts(FunctionWriter(table, show), m.functions)
  {
    hide Texts, ModuleOrder, OfModule;
    OneModule(m.functions, m.name);
    OneText(ModuleWriter(table, show, m.functions), m.name);
  }

  lemma OneText<T>(text: T -> string, x: T)
    ensures Texts(text, [x]) == text(x)
  {
    assert [x][1..] == [];
    assert text(x) + "" == text(x);
  }

  // Lexing and parsing the disassembly of a module that has the shape of a parsed one gives it back, up to
  // parameter names and line numbers.
  lemma PrintedReads(c: Context, m: Object, p: Program, show: UInt64 -> string, strtod: string -> UInt64)
    requires TableOk(c.table) && ModuleOk(c, m) && m.functions != [] && p.functions == m.functions
    ensures var r := ParseModuleSpec(c, DisassembleSpec(c.table, show, p), strtod);
      r.Ok? && SameUpToNames(r.value, m)
  {
    AllPrintableFunctions(c, m);
    hide TableOk, ModuleOk, FunctionOk, Starts, DisassembleSpec, ParseSpec, SameUpToNames, LexSpec, LexCore, Strip, ModuleTokens, Texts, IsName;
    PrintedModule(c.table, show, m, p);
    var text := DisassembleSpec(c.table, show, p);
    LexModule(c.table, m.name, m.functions, show, strtod);
    StripIsCore(text, 1, strtod);
    var ts := LexSpec(text, 1, strtod).value;
    StripStarts(ts, ModuleTokens(c.table, m.name, m.functions) + [Plain(End, "")]);
    ModuleParses(c, m, ts);
  }

  lemma AllPrintableFunctions(c: Context, m: Object)
    requires ModuleOk(c, m)
    ensures IsName(m.name) && AllFunctionsPrintable(c.table, m.functions)
    ensures forall k :: 0 <= k < |m.functions| ==> m.functions[k].moduleName == m.name
  {
    hide FunctionPrintable, BlocksOk, IsName;
  }
}
