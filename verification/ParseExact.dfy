// What the parser accepts, said without the parser: a module parses only from the words that its instructions,
// blocks and functions are written with, in their order, with every separator in its place.

module ParseExact {
  import opened Ast
  import opened Lexer
  import opened Opcodes
  import opened Grammar
  import opened ParamRefs

  // ---------------------------------------------------------------- words

  // What a token stands for: a name, a register, a number, a mark, or a `$name` without a parameter.
  datatype Lexeme = Name(text: string) | RegisterOf(r: UInt32) | Integer(i: Int64) | Float(f: UInt64) | Mark(kind: TokenKind) | Unbound

  function Meaning(ps: seq<Param>, t: Token): Lexeme {
    match t.kind
    case Identifier => Name(t.text)
    case Reg => RegisterOf(t.intValue % 0x1_0000_0000)
    case IntLiteral => Integer(t.intValue)
    case FloatLiteral => Float(t.floatValue)
    case ParamRef =>
      (match LastNamed(ps, t.text)
       case Some(j) => RegisterOf(j % 0x1_0000_0000)
       case None => Unbound)
    case _ => Mark(t.kind)
  }

  // The token list starts with tokens that mean `ls`, and `rest` is what follows them.
  predicate Reads(ps: seq<Param>, ts: seq<Token>, ls: seq<Lexeme>, rest: seq<Token>) {
    |ls| <= |ts| && rest == ts[|ls|..] && forall k :: 0 <= k < |ls| ==> Meaning(ps, ts[k]) == ls[k]
  }

  lemma ReadsNone(ps: seq<Param>, ts: seq<Token>)
    ensures Reads(ps, ts, [], ts)
  {
  }

  lemma ReadsRest(ps: seq<Param>, ts: seq<Token>, ls: seq<Lexeme>, rest: seq<Token>)
    requires Reads(ps, ts, ls, rest)
    ensures |ls| <= |ts| && rest == ts[|ls|..]
  {
  }

  lemma ReadsThen(ps: seq<Param>, ts: seq<Token>, a: seq<Lexeme>, mid: seq<Token>, b: seq<Lexeme>, rest: seq<Token>)
    requires Reads(ps, ts, a, mid) && Reads(ps, mid, b, rest)
    ensures Reads(ps, ts, a + b, rest)
  {
    hide Meaning;
    forall k | 0 <= k < |a + b| ensures Meaning(ps, ts[k]) == (a + b)[k] {
      if k >= |a| { assert ts[k] == mid[k - |a|]; }
    }
  }

  // ---------------------------------------------------------------- what a program is written with

  function OperandLexeme(op: Operand): Lexeme {
    match op
    case Register(r) => RegisterOf(r)
    case ImmediateInt(v) => Integer(v)
    case ImmediateFloat(v) => Float(v)
    case Label(name) => Name(name)
    case Symbol(name) => Name(name)
  }

  function MoreLexemes(ops: seq<Operand>): seq<Lexeme> {
    if ops == [] then [] else [Mark(Comma)] + ([OperandLexeme(ops[0])] + MoreLexemes(ops[1..]))
  }

  // Operands with commas between them.
  function ListLexemes(ops: seq<Operand>): seq<Lexeme> {
    if ops == [] then [] else [OperandLexeme(ops[0])] + MoreLexemes(ops[1..])
  }

  function TypeWord(t: Byte): string { if t < TYPE_COUNT then TYPE_NAMES[t] else "" }

  function SuffixLexemes(takes: bool, t: Byte): seq<Lexeme> { if takes then [Mark(Dot)] + [Name(TypeWord(t))] else [] }

  function MnemonicLexemes(table: OpcodeTable, i: Instruction): seq<Lexeme> {
    if i.opcode >= |table| then []
    else
      var e := table[i.opcode];
      [Name(e.mnemonic)] + (SuffixLexemes(e.suffix, i.ty) + SuffixLexemes(e.suffix2, i.ty2))
  }

  // The operands as they are listed: the destination first, but behind the function's name in a call.
  function Operands(i: Instruction): seq<Operand> {
    if !i.hasDest then i.operands
    else if i.opcode == CALL && i.operands != [] then [i.operands[0], Register(i.dest)] + i.operands[1..]
    else [Register(i.dest)] + i.operands
  }

  function InstructionLexemes(table: OpcodeTable, i: Instruction): seq<Lexeme> {
    MnemonicLexemes(table, i) + ListLexemes(Operands(i))
  }

  function InstructionsLexemes(table: OpcodeTable, s: seq<Instruction>): seq<Lexeme> {
    if s == [] then [] else InstructionLexemes(table, s[0]) + InstructionsLexemes(table, s[1..])
  }

  function BlocksLexemes(table: OpcodeTable, s: seq<Block>): seq<Lexeme> {
    if s == [] then [] else BlockLexemes(table, s[0]) + BlocksLexemes(table, s[1..])
  }

  function BlockLexemes(table: OpcodeTable, b: Block): seq<Lexeme> {
    [Name(b.labelName)] + ([Mark(Colon)] + InstructionsLexemes(table, b.instructions))
  }

  function ParamLexemes(p: Param): seq<Lexeme> { [Name(p.name)] + ([Mark(Colon)] + [Name(TypeWord(p.ty))]) }

  function ParamsLexemes(ps: seq<Param>): seq<Lexeme> {
    if ps == [] then []
    else if |ps| == 1 then ParamLexemes(ps[0])
    else ParamLexemes(ps[0]) + ([Mark(Comma)] + ParamsLexemes(ps[1..]))
  }

  function NameLexemes(f: Function): seq<Lexeme> {
    (if f.isExported then [Name("export")] else []) + ([Name("func")] + [Name(f.name)])
  }

  // Parameters, result type and opening brace.
  function SignatureLexemes(ps: seq<Param>, returnType: Byte): seq<Lexeme> {
    [Mark(LParen)] + (ParamsLexemes(ps) + ([Mark(RParen)] + ([Mark(Arrow)] + ([Name(TypeWord(returnType))] + [Mark(LBrace)]))))
  }

  function HeaderLexemes(f: Function): seq<Lexeme> { NameLexemes(f) + SignatureLexemes(f.params, f.returnType) }

  function FunctionLexemes(table: OpcodeTable, f: Function): seq<Lexeme> {
    HeaderLexemes(f) + (BlocksLexemes(table, f.blocks) + [Mark(RBrace)])
  }

  // ---------------------------------------------------------------- words that are read

  lemma AnyReads(ps: seq<Param>, ts: seq<Token>, kind: TokenKind)
    requires kind != End && Any(ts, kind).Ok?
    ensures var (t, rest) := Any(ts, kind).value; Reads(ps, ts, [Meaning(ps, t)], rest) && t.kind == kind && t == Cur(ts)
  {
    hide Meaning;
  }

  lemma WordReads(ps: seq<Param>, ts: seq<Token>, word: string)
    requires Word(ts, word).Ok?
    ensures Reads(ps, ts, [Name(word)], Word(ts, word).value.1)
  {
    hide LastNamed;
  }

  lemma TypeReadsName(ps: seq<Param>, ts: seq<Token>)
    requires TypeAt(ts).Ok?
    ensures Reads(ps, ts, [Name(TypeWord(TypeAt(ts).value.0))], TypeAt(ts).value.1)
  {
    hide TypeFromName, Any, Reads;
    AnyReads(ps, ts, Identifier);
  }

  // An operand is a register, a number, a name, or the register of a known parameter, and nothing else.
  lemma OperandExactly(ps: seq<Param>, ts: seq<Token>)
    ensures OperandAt(Names(ps), ts).Ok? <==> ts != [] && !Meaning(ps, ts[0]).Mark? && Meaning(ps, ts[0]) != Unbound
    ensures OperandAt(Names(ps), ts).Ok? ==>
      && OperandLexeme(OperandAt(Names(ps), ts).value.0) == Meaning(ps, ts[0]) && !OperandAt(Names(ps), ts).value.0.Label?
      && OperandAt(Names(ps), ts).value.1 == ts[1..]
  {
    hide LastNamed, Names;
    if Check(ts, ParamRef) { ParamRefReads(ps, ts); }
  }

  lemma OperandReads(ps: seq<Param>, ts: seq<Token>)
    requires OperandAt(Names(ps), ts).Ok?
    ensures var (op, rest) := OperandAt(Names(ps), ts).value; Reads(ps, ts, [OperandLexeme(op)], rest)
  {
    OperandExactly(ps, ts);
    hide OperandAt, Meaning, Names, OperandLexeme;
  }

  // ---------------------------------------------------------------- operands

  function SoFar(i: Instruction): seq<Operand> { (if i.hasDest then [Register(i.dest)] else []) + i.operands }

  // Whether the loop goes on, and with which instruction it does.
  predicate GoesOn(first: bool, ts: seq<Token>) { if first then OperandStart(Cur(ts)) else Check(ts, Comma) }

  function Next(destWanted: bool, i: Instruction, op: Operand): Instruction
    requires destWanted && !i.hasDest ==> op.Register?
  {
    if destWanted && !i.hasDest then i.(hasDest := true, dest := op.reg) else i.(operands := i.operands + [op])
  }

  lemma LoopUnfolds(ps: seq<Param>, destWanted: bool, first: bool, i: Instruction, ts: seq<Token>)
    requires OperandLoop(Names(ps), destWanted, first, i, ts).Ok?
    ensures !GoesOn(first, ts) ==> OperandLoop(Names(ps), destWanted, first, i, ts).value == (i, ts)
    ensures GoesOn(first, ts) ==>
      && (!first ==> ts != [])
      && var us := if first then ts else ts[1..];
      && us != [] && OperandAt(Names(ps), us).Ok? && OperandAt(Names(ps), us).value.1 == us[1..]
      && var op := OperandAt(Names(ps), us).value.0;
      && (destWanted && !i.hasDest ==> op.Register?)
      && OperandLoop(Names(ps), destWanted, first, i, ts) == OperandLoop(Names(ps), destWanted, false, Next(destWanted, i, op), us[1..])
  {
    hide Names, OperandAt, OperandStart;
  }

  lemma NextSoFar(destWanted: bool, i: Instruction, op: Operand, others: seq<Operand>)
    requires destWanted && !i.hasDest ==> op.Register? && i.operands == []
    ensures SoFar(Next(destWanted, i, op)) + others == SoFar(i) + ([op] + others)
  {
    assert SoFar(Next(destWanted, i, op)) == SoFar(i) + [op];
    assert (SoFar(i) + [op]) + others == SoFar(i) + ([op] + others);
  }

  lemma OneMore(op: Operand, others: seq<Operand>)
    ensures ListLexemes([op] + others) == [OperandLexeme(op)] + MoreLexemes(others)
    ensures MoreLexemes([op] + others) == [Mark(Comma)] + ([OperandLexeme(op)] + MoreLexemes(others))
  {
    hide OperandLexeme;
    assert ([op] + others)[1..] == others;
  }

  // The same instruction but for its destination and operands.
  predicate SameBut(j: Instruction, i: Instruction) { j == i.(hasDest := j.hasDest, dest := j.dest, operands := j.operands) }

  lemma {:induction false} OperandLoopReads(ps: seq<Param>, destWanted: bool, first: bool, i: Instruction, ts: seq<Token>) returns (more: seq<Operand>)
    requires OperandLoop(Names(ps), destWanted, first, i, ts).Ok?
    requires destWanted && !i.hasDest ==> i.operands == []
    ensures var (j, rest) := OperandLoop(Names(ps), destWanted, first, i, ts).value;
      && SoFar(j) == SoFar(i) + more && Reads(ps, ts, if first then ListLexemes(more) else MoreLexemes(more), rest)
      && SameBut(j, i) && (!destWanted ==> j.hasDest == i.hasDest)
    decreases |ts|
  {
    hide Names, OperandAt, OperandLoop, OperandLexeme, Reads, SoFar, GoesOn, ListLexemes, MoreLexemes;
    LoopUnfolds(ps, destWanted, first, i, ts);
    var (j, end) := OperandLoop(Names(ps), destWanted, first, i, ts).value;
    if GoesOn(first, ts) {
      if !first { CommaReads(ps, ts); }
      var us := if first then ts else ts[1..];
      OperandReads(ps, us);
      var op := OperandAt(Names(ps), us).value.0;
      var others := OperandLoopReads(ps, destWanted, false, Next(destWanted, i, op), us[1..]);
      more := [op] + others;
      NextSoFar(destWanted, i, op, others);
      OneMore(op, others);
      ReadsThen(ps, us, [OperandLexeme(op)], us[1..], MoreLexemes(others), end);
      if !first { ReadsThen(ps, ts, [Mark(Comma)], us, [OperandLexeme(op)] + MoreLexemes(others), end); }
    } else {
      more := [];
      ReadsNone(ps, ts);
      NoMore();
      assert SoFar(i) + more == SoFar(i);
    }
  }

  lemma NoMore()
    ensures ListLexemes([]) == [] && MoreLexemes([]) == []
  {
  }

  lemma CommaReads(ps: seq<Param>, ts: seq<Token>)
    requires Check(ts, Comma) || GoesOn(false, ts)
    ensures ts != [] && Reads(ps, ts, [Mark(Comma)], ts[1..])
  {
  }

  lemma CallOperands(i: Instruction, ts: seq<Token>)
    requires CallShape(i, ts).Ok? && (i.opcode == CALL ==> !i.hasDest)
    ensures var (j, rest) := CallShape(i, ts).value;
      Operands(j) == SoFar(i) && rest == ts && SameBut(j, i)
  {
    if i.opcode == CALL && |i.operands| > 1 {
      assert i.operands == [i.operands[0], i.operands[1]] + i.operands[2..];
    }
  }

  // ---------------------------------------------------------------- instructions

  lemma SuffixReads(ps: seq<Param>, takes: bool, otherwise: Byte, ts: seq<Token>)
    requires SuffixAt(takes, otherwise, ts).Ok?
    ensures var (t, rest) := SuffixAt(takes, otherwise, ts).value;
      Reads(ps, ts, SuffixLexemes(takes, t), rest) && (!takes ==> t == otherwise)
  {
    hide TypeAt, Any, Reads, TypeWord;
    if takes {
      AnyReads(ps, ts, Dot);
      var dot := Any(ts, Dot).value;
      TypeReadsName(ps, dot.1);
      var ty := TypeAt(dot.1).value;
      ReadsThen(ps, ts, [Mark(Dot)], dot.1, [Name(TypeWord(ty.0))], ty.1);
    } else {
      ReadsNone(ps, ts);
    }
  }

  lemma MnemonicReads(c: Context, ps: seq<Param>, ts: seq<Token>)
    requires TableOk(c.table) && MnemonicAt(c, ts).Ok?
    ensures var (i, rest) := MnemonicAt(c, ts).value;
      && i.opcode < |c.table| && Reads(ps, ts, MnemonicLexemes(c.table, i), rest)
      && !i.hasDest && i.operands == [] && i.line == Cur(ts).line
  {
    hide OpcodeFromName, SuffixAt, Any, TypeExtension, Enabled, Reads, SuffixLexemes;
    AnyReads(ps, ts, Identifier);
    var m := Any(ts, Identifier).value;
    var (i, rest) := MnemonicAt(c, ts).value;
    var word := [Name(m.0.text)];
    if m.0.text == "ret" && !Check(m.1, Dot) {
      NoSuffix(i.ty);
      NoSuffix(i.ty2);
      assert word + ([] + []) == word;
    } else {
      var e := c.table[OpcodeFromName(c.table, m.0.text, 0).value];
      SuffixReads(ps, e.suffix, I32, m.1);
      var ty := SuffixAt(e.suffix, I32, m.1).value;
      SuffixReads(ps, e.suffix2, ty.0, ty.1);
      ReadsThen(ps, m.1, SuffixLexemes(e.suffix, i.ty), ty.1, SuffixLexemes(e.suffix2, i.ty2), rest);
      ReadsThen(ps, ts, word, m.1, SuffixLexemes(e.suffix, i.ty) + SuffixLexemes(e.suffix2, i.ty2), rest);
    }
  }

  lemma NoSuffix(t: Byte)
    ensures SuffixLexemes(false, t) == []
  {
  }

  // An instruction is read from its mnemonic, its suffixes and its operands with commas between them; its line is
  // that of the mnemonic.
  lemma InstructionReadsOnly(c: Context, ps: seq<Param>, ts: seq<Token>)
    requires TableOk(c.table) && InstructionAt(c, Names(ps), ts).Ok?
    ensures var (i, rest) := InstructionAt(c, Names(ps), ts).value;
      Reads(ps, ts, InstructionLexemes(c.table, i), rest) && i.line == Cur(ts).line
  {
    hide MnemonicAt, OperandLoop, Names, Reads, MnemonicLexemes, CallShape, Operands, OpcodeFromName;
    MnemonicReads(c, ps, ts);
    var m := MnemonicAt(c, ts).value;
    var (i, rest) := InstructionAt(c, Names(ps), ts).value;
    if TakesNone(c, m.0.opcode) {
      NoOperands(i);
      ReadsNone(ps, rest);
      ReadsThen(ps, ts, MnemonicLexemes(c.table, i), rest, [], rest);
    } else {
      var more := OperandLoopReads(ps, WantsDest(c, m.0.opcode), true, m.0, m.1);
      var j := OperandLoop(Names(ps), WantsDest(c, m.0.opcode), true, m.0, m.1).value;
      assert SoFar(m.0) + more == more;
      CallOperands(j.0, j.1);
      SameMnemonic(c.table, m.0, i);
      ReadsThen(ps, ts, MnemonicLexemes(c.table, i), m.1, ListLexemes(more), rest);
    }
  }

  lemma NoOperands(i: Instruction)
    requires !i.hasDest && i.operands == []
    ensures ListLexemes(Operands(i)) == []
  {
  }

  lemma SameMnemonic(table: OpcodeTable, i: Instruction, j: Instruction)
    requires i.opcode == j.opcode && i.ty == j.ty && i.ty2 == j.ty2
    ensures MnemonicLexemes(table, i) == MnemonicLexemes(table, j)
  {
  }

  lemma {:induction false} InstructionsReadOnly(c: Context, ps: seq<Param>, ts: seq<Token>)
    requires TableOk(c.table) && InstructionLoop(c, Names(ps), ts).Ok?
    ensures var (s, rest) := InstructionLoop(c, Names(ps), ts).value; Reads(ps, ts, InstructionsLexemes(c.table, s), rest)
    decreases |ts|
  {
    hide InstructionAt, Names, Reads, InstructionLexemes, TableOk, AtLabel;
    if Check(ts, Identifier) && !AtLabel(ts) {
      InstructionReadsOnly(c, ps, ts);
      var i := InstructionAt(c, Names(ps), ts).value;
      InstructionsReadOnly(c, ps, i.1);
      var more := InstructionLoop(c, Names(ps), i.1).value;
      assert ([i.0] + more.0)[1..] == more.0;
      ReadsThen(ps, ts, InstructionLexemes(c.table, i.0), i.1, InstructionsLexemes(c.table, more.0), more.1);
    } else {
      ReadsNone(ps, ts);
    }
  }

  // ---------------------------------------------------------------- blocks

  lemma BlockReadsOnly(c: Context, ps: seq<Param>, ts: seq<Token>)
    requires TableOk(c.table) && BlockAt(c, Names(ps), ts).Ok?
    ensures var (b, rest) := BlockAt(c, Names(ps), ts).value; Reads(ps, ts, BlockLexemes(c.table, b), rest)
  {
    hide InstructionLoop, Names, Reads, InstructionsLexemes, TableOk, Any;
    AnyReads(ps, ts, Identifier);
    var labelName := Any(ts, Identifier).value;
    AnyReads(ps, labelName.1, Colon);
    var colon := Any(labelName.1, Colon).value;
    InstructionsReadOnly(c, ps, colon.1);
    var s := InstructionLoop(c, Names(ps), colon.1).value;
    ReadsThen(ps, labelName.1, [Mark(Colon)], colon.1, InstructionsLexemes(c.table, s.0), s.1);
    ReadsThen(ps, ts, [Name(labelName.0.text)], labelName.1, [Mark(Colon)] + InstructionsLexemes(c.table, s.0), s.1);
  }

  lemma {:induction false} BlocksReadOnly(c: Context, ps: seq<Param>, ts: seq<Token>)
    requires TableOk(c.table) && BlockLoop(c, Names(ps), ts).Ok?
    ensures var (s, rest) := BlockLoop(c, Names(ps), ts).value; Reads(ps, ts, BlocksLexemes(c.table, s), rest) && Check(rest, RBrace)
    decreases |ts|
  {
    hide BlockAt, Names, Reads, BlockLexemes, TableOk;
    if !Check(ts, RBrace) {
      BlockReadsOnly(c, ps, ts);
      var b := BlockAt(c, Names(ps), ts).value;
      BlocksReadOnly(c, ps, b.1);
      var more := BlockLoop(c, Names(ps), b.1).value;
      assert ([b.0] + more.0)[1..] == more.0;
      ReadsThen(ps, ts, BlockLexemes(c.table, b.0), b.1, BlocksLexemes(c.table, more.0), more.1);
    } else {
      ReadsNone(ps, ts);
    }
  }

  // ---------------------------------------------------------------- functions

  lemma ParamReads(ps: seq<Param>, ts: seq<Token>)
    requires ParamAt(ts).Ok?
    ensures var (p, rest) := ParamAt(ts).value; Reads(ps, ts, ParamLexemes(p), rest)
  {
    hide Any, TypeAt, Reads, TypeWord;
    AnyReads(ps, ts, Identifier);
    var name := Any(ts, Identifier).value;
    AnyReads(ps, name.1, Colon);
    var colon := Any(name.1, Colon).value;
    TypeReadsName(ps, colon.1);
    var ty := TypeAt(colon.1).value;
    ReadsThen(ps, name.1, [Mark(Colon)], colon.1, [Name(TypeWord(ty.0))], ty.1);
    ReadsThen(ps, ts, [Name(name.0.text)], name.1, [Mark(Colon)] + [Name(TypeWord(ty.0))], ty.1);
  }

  lemma {:induction false} ParamLoopReads(ps: seq<Param>, ts: seq<Token>)
    requires ParamLoop(ts).Ok?
    ensures var (qs, rest) := ParamLoop(ts).value; qs != [] && Reads(ps, ts, ParamsLexemes(qs), rest)
    decreases |ts|
  {
    hide ParamAt, Reads, ParamLexemes;
    ParamReads(ps, ts);
    var p := ParamAt(ts).value;
    if Check(p.1, Comma) {
      CommaReads(ps, p.1);
      ParamLoopReads(ps, p.1[1..]);
      var more := ParamLoop(p.1[1..]).value;
      assert ([p.0] + more.0)[1..] == more.0;
      ReadsThen(ps, p.1, [Mark(Comma)], p.1[1..], ParamsLexemes(more.0), more.1);
      ReadsThen(ps, ts, ParamLexemes(p.0), p.1, [Mark(Comma)] + ParamsLexemes(more.0), more.1);
    }
  }

  lemma NameReads(ps: seq<Param>, ts: seq<Token>)
    requires NameAt(ts).Ok?
    ensures var (f, rest) := NameAt(ts).value;
      Reads(ps, ts, NameLexemes(f), rest) && f == Function(f.name, "", f.isExported, [], VOID, [])
  {
    hide Word, Any, Reads;
    var isExported := CheckWord(ts, "export");
    if isExported { ExportReads(ps, ts); } else { ReadsNone(ps, ts); }
    var us := if isExported then ts[1..] else ts;
    WordReads(ps, us, "func");
    var word := Word(us, "func").value;
    AnyReads(ps, word.1, Identifier);
    var name := Any(word.1, Identifier).value;
    ReadsThen(ps, us, [Name("func")], word.1, [Name(name.0.text)], name.1);
    ReadsThen(ps, ts, if isExported then [Name("export")] else [], us, [Name("func")] + [Name(name.0.text)], name.1);
  }

  lemma ExportReads(ps: seq<Param>, ts: seq<Token>)
    requires CheckWord(ts, "export")
    ensures Reads(ps, ts, [Name("export")], ts[1..])
  {
    hide LastNamed;
  }

  lemma HeaderReads(ps: seq<Param>, ts: seq<Token>)
    requires HeaderAt(ts).Ok?
    ensures var (f, rest) := HeaderAt(ts).value; Reads(ps, ts, HeaderLexemes(f), rest) && f.blocks == [] && f.moduleName == ""
  {
    hide NameAt, Any, TypeAt, ParamLoop, Reads, ParamsLexemes, NameLexemes, TypeWord;
    NameReads(ps, ts);
    var head := NameAt(ts).value;
    AnyReads(ps, head.1, LParen);
    var open := Any(head.1, LParen).value;
    ParamsRead(ps, open.1);
    var params := ParamsAt(open.1).value;
    AnyReads(ps, params.1, RParen);
    var close := Any(params.1, RParen).value;
    AnyReads(ps, close.1, Arrow);
    var arrow := Any(close.1, Arrow).value;
    TypeReadsName(ps, arrow.1);
    var ty := TypeAt(arrow.1).value;
    AnyReads(ps, ty.1, LBrace);
    var brace := Any(ty.1, LBrace).value;
    var t1 := [Name(TypeWord(ty.0))] + [Mark(LBrace)];
    ReadsThen(ps, arrow.1, [Name(TypeWord(ty.0))], ty.1, [Mark(LBrace)], brace.1);
    ReadsThen(ps, close.1, [Mark(Arrow)], arrow.1, t1, brace.1);
    ReadsThen(ps, params.1, [Mark(RParen)], close.1, [Mark(Arrow)] + t1, brace.1);
    ReadsThen(ps, open.1, ParamsLexemes(params.0), params.1, [Mark(RParen)] + ([Mark(Arrow)] + t1), brace.1);
    ReadsThen(ps, head.1, [Mark(LParen)], open.1, ParamsLexemes(params.0) + ([Mark(RParen)] + ([Mark(Arrow)] + t1)), brace.1);
    SameName(head.0, HeaderAt(ts).value.0);
    ReadsThen(ps, ts, NameLexemes(head.0), head.1, SignatureLexemes(params.0, ty.0), brace.1);
  }

  lemma SameName(f: Function, g: Function)
    requires f.name == g.name && f.isExported == g.isExported
    ensures NameLexemes(f) == NameLexemes(g)
  {
  }

  lemma ParamsRead(ps: seq<Param>, ts: seq<Token>)
    requires ParamsAt(ts).Ok?
    ensures var (qs, rest) := ParamsAt(ts).value; Reads(ps, ts, ParamsLexemes(qs), rest)
  {
    hide Reads, ParamLoop;
    if Check(ts, RParen) { ReadsNone(ps, ts); } else { ParamLoopReads(ps, ts); }
  }

  // A function is read from its own words and from no others: `$name` means the register of its last parameter of
  // that name.
  lemma FunctionReadsOnly(c: Context, ts: seq<Token>)
    requires TableOk(c.table) && FunctionAt(c, ts).Ok?
    ensures var (f, rest) := FunctionAt(c, ts).value; Reads(f.params, ts, FunctionLexemes(c.table, f), rest) && f.moduleName == ""
  {
    hide HeaderAt, BlockLoop, Any, Reads, NameLexemes, SignatureLexemes, BlocksLexemes, TableOk;
    var (f, rest) := FunctionAt(c, ts).value;
    var head := HeaderAt(ts).value;
    var ps := f.params;
    HeaderReads(ps, ts);
    BlocksReadOnly(c, ps, head.1);
    var blocks := BlockLoop(c, Names(ps), head.1).value;
    AnyReads(ps, blocks.1, RBrace);
    SameName(head.0, f);
    ReadsThen(ps, head.1, BlocksLexemes(c.table, f.blocks), blocks.1, [Mark(RBrace)], rest);
    ReadsThen(ps, ts, HeaderLexemes(f), head.1, BlocksLexemes(c.table, f.blocks) + [Mark(RBrace)], rest);
  }

  // ---------------------------------------------------------------- modules

  // The tokens are those of the functions, one after the other, and then the end.
  predicate FunctionsRead(table: OpcodeTable, moduleName: string, ts: seq<Token>, fs: seq<Function>) {
    if fs == [] then Check(ts, End)
    else
      var ls := FunctionLexemes(table, fs[0]);
      && |ls| <= |ts| && Reads(fs[0].params, ts, ls, ts[|ls|..]) && fs[0].moduleName == moduleName
      && FunctionsRead(table, moduleName, ts[|ls|..], fs[1..])
  }

  lemma {:induction false} FunctionsReadOnly(c: Context, moduleName: string, ts: seq<Token>)
    requires TableOk(c.table) && FunctionLoop(c, moduleName, ts).Ok?
    ensures FunctionsRead(c.table, moduleName, ts, FunctionLoop(c, moduleName, ts).value.0)
    decreases |ts|
  {
    hide FunctionAt, TableOk, FunctionLexemes;
    if !Check(ts, End) {
      FunctionReadsOnly(c, ts);
      var f := FunctionAt(c, ts).value;
      FunctionsReadOnly(c, moduleName, f.1);
      var more := FunctionLoop(c, moduleName, f.1).value.0;
      var g := f.0.(moduleName := moduleName);
      SameFunctionLexemes(c.table, f.0, g);
      assert ([g] + more)[1..] == more;
    }
  }

  lemma SameFunctionLexemes(table: OpcodeTable, f: Function, g: Function)
    requires g == f.(moduleName := g.moduleName)
    ensures FunctionLexemes(table, f) == FunctionLexemes(table, g)
  {
  }

  // A source text that parses consists, blanks and comments apart, of `module`, the name and the words of the
  // functions of the module it gives.
  lemma ModuleReadsOnly(c: Context, source: string, strtod: string -> UInt64)
    requires TableOk(c.table) && ParseModuleSpec(c, source, strtod).Ok?
    ensures LexSpec(source, 1, strtod).Ok?
    ensures var ts, m := LexSpec(source, 1, strtod).value, ParseModuleSpec(c, source, strtod).value;
      && |ts| >= 2 && Reads([], ts, [Name("module"), Name(m.name)], ts[2..])
      && FunctionsRead(c.table, m.name, ts[2..], m.functions)
  {
    hide LexSpec, Word, Any, FunctionLoop, FunctionsRead, TableOk, Reads;
    var ts := LexSpec(source, 1, strtod).value;
    WordReads([], ts, "module");
    var word := Word(ts, "module").value;
    AnyReads([], word.1, Identifier);
    var name := Any(word.1, Identifier).value;
    ReadsThen([], ts, [Name("module")], word.1, [Name(name.0.text)], name.1);
    assert [Name("module")] + [Name(name.0.text)] == [Name("module"), Name(name.0.text)];
    FunctionsReadOnly(c, name.0.text, name.1);
    ReadsRest([], ts, [Name("module"), Name(name.0.text)], name.1);
  }
}
