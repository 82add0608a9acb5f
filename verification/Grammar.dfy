// What the parser of src/frontend/parser.cpp makes of a token list: one function for each of its methods and
// loops. The Parser object itself is in Parser.dfy.

module Grammar {
  import opened Ast
  import opened Lexer
  import opened Opcodes

  datatype Reason =
    | UnexpectedToken(text: string) | ExpectedWord(text: string) | UnknownType(text: string) | TypeNeedsExtension(extension: nat)
    | UnknownInstruction(text: string) | NeedsExtension(extension: nat) | ExpectedDestination | CallNeedsName
    | CallDestination | UnknownParameter(text: string) | ExpectedOperand | Lexical(lexError: LexError)

  datatype ParseError = ParseError(reason: Reason, line: nat)

  // What was read, and the tokens behind it.
  type Rest<T> = Result<(T, seq<Token>), ParseError>

  // The opcode table and the enabled extensions; Core, number 0, always is.
  datatype Context = Context(table: OpcodeTable, enabled: set<nat>)

  predicate Enabled(c: Context, extension: nat) { extension == 0 || extension in c.enabled }

  function Cur(ts: seq<Token>): Token { if ts == [] then Plain(End, "") else ts[0] }

  predicate Check(ts: seq<Token>, kind: TokenKind) { Cur(ts).kind == kind }

  predicate CheckWord(ts: seq<Token>, word: string) { Cur(ts).kind == Identifier && Cur(ts).text == word }

  function Fail<T>(reason: Reason, ts: seq<Token>): (r: Rest<T>)
    ensures r.Err?
  {
    Err(ParseError(reason, Cur(ts).line))
  }

  function Any(ts: seq<Token>, kind: TokenKind): (r: Rest<Token>)
    requires kind != End
    ensures r.Ok? <==> Check(ts, kind)
    ensures r.Ok? ==> |ts| > 0 && r.value == (ts[0], ts[1..])
  {
    if Check(ts, kind) then Ok((ts[0], ts[1..])) else Fail(UnexpectedToken(Cur(ts).text), ts)
  }

  function Word(ts: seq<Token>, word: string): (r: Rest<Token>)
    ensures r.Ok? <==> CheckWord(ts, word)
    ensures r.Ok? ==> |ts| > 0 && r.value == (ts[0], ts[1..])
  {
    if CheckWord(ts, word) then Ok((ts[0], ts[1..])) else Fail(ExpectedWord(word), ts)
  }

  function TypeAt(ts: seq<Token>): (r: Rest<Byte>)
    ensures r.Ok? ==> |r.value.1| < |ts| && r.value.0 < TYPE_COUNT
  {
    var t :- Any(ts, Identifier);
    match TypeFromName(t.0.text, 0)
    case None => Fail(UnknownType(t.0.text), t.1)
    case Some(ty) => Ok((ty, t.1))
  }

  function ParamAt(ts: seq<Token>): (r: Rest<Param>)
    ensures r.Ok? ==> |r.value.1| < |ts| && r.value.0.ty < TYPE_COUNT
  {
    var name :- Any(ts, Identifier);
    var colon :- Any(name.1, Colon);
    var ty :- TypeAt(colon.1);
    Ok((Param(name.0.text, ty.0), ty.1))
  }

  function ParamLoop(ts: seq<Token>): (r: Rest<seq<Param>>)
    ensures r.Ok? ==> |r.value.1| < |ts|
    ensures r.Ok? ==> forall i :: 0 <= i < |r.value.0| ==> r.value.0[i].ty < TYPE_COUNT
    decreases |ts|
  {
    var p :- ParamAt(ts);
    if !Check(p.1, Comma) then Ok(([p.0], p.1))
    else
      var more :- ParamLoop(p.1[1..]);
      Ok(([p.0] + more.0, more.1))
  }

  function ParamsAt(ts: seq<Token>): (r: Rest<seq<Param>>)
    ensures r.Ok? ==> |r.value.1| <= |ts|
    ensures r.Ok? ==> forall i :: 0 <= i < |r.value.0| ==> r.value.0[i].ty < TYPE_COUNT
  {
    if Check(ts, RParen) then Ok(([], ts)) else ParamLoop(ts)
  }

  // The parameter map of a function: the last of several parameters with one name.
  function ParamNames(ps: seq<Param>): (names: seq<string>)
    ensures |names| == |ps| && forall i :: 0 <= i < |ps| ==> names[i] == ps[i].name
  {
    seq(|ps|, i requires 0 <= i < |ps| => ps[i].name)
  }

  function ToUInt32(v: int): UInt32 { v % 0x1_0000_0000 }

  predicate OperandStart(t: Token) {
    t.kind == Reg || t.kind == IntLiteral || t.kind == FloatLiteral || t.kind == Identifier || t.kind == ParamRef
  }

  function OperandAt(params: map<string, nat>, ts: seq<Token>): (r: Rest<Operand>)
    ensures r.Ok? ==> |ts| > 0 && OperandStart(ts[0]) && r.value.1 == ts[1..]
  {
    var t := Cur(ts);
    match t.kind
    case Reg => Ok((Register(ToUInt32(t.intValue)), ts[1..]))
    case IntLiteral => Ok((ImmediateInt(t.intValue), ts[1..]))
    case FloatLiteral => Ok((ImmediateFloat(t.floatValue), ts[1..]))
    case Identifier => Ok((Symbol(t.text), ts[1..]))
    case ParamRef =>
      if t.text in params then Ok((Register(ToUInt32(params[t.text])), ts[1..])) else Fail(UnknownParameter(t.text), ts[1..])
    case _ => Fail(ExpectedOperand, ts)
  }

  // The operand loop: the instruction so far, and whether an operand was read.
  function OperandLoop(params: map<string, nat>, destWanted: bool, first: bool, i: Instruction, ts: seq<Token>): (r: Rest<Instruction>)
    ensures r.Ok? ==> |r.value.1| <= |ts|
    decreases |ts|
  {
    if !(if first then OperandStart(Cur(ts)) else Check(ts, Comma)) then Ok((i, ts))
    else
      var op :- OperandAt(params, if first then ts else ts[1..]);
      if destWanted && !i.hasDest then
        if op.0.Register? then OperandLoop(params, destWanted, false, i.(hasDest := true, dest := op.0.reg), op.1)
        else Fail(ExpectedDestination, op.1)
      else OperandLoop(params, destWanted, false, i.(operands := i.operands + [op.0]), op.1)
  }

  // A call names its function first and its destination, if any, second.
  function CallShape(i: Instruction, ts: seq<Token>): Rest<Instruction> {
    if i.opcode != CALL then Ok((i, ts))
    else if i.operands == [] || !i.operands[0].Symbol? then Fail(CallNeedsName, ts)
    else if |i.operands| == 1 then Ok((i, ts))
    else if !i.operands[1].Register? then Fail(CallDestination, ts)
    else Ok((i.(hasDest := true, dest := i.operands[1].reg, operands := [i.operands[0]] + i.operands[2..]), ts))
  }

  // A type suffix where the opcode takes one, and otherwise what stands for it.
  function SuffixAt(takes: bool, otherwise: Byte, ts: seq<Token>): (r: Rest<Byte>)
    ensures r.Ok? ==> |r.value.1| <= |ts| && (r.value.0 < TYPE_COUNT || r.value.0 == otherwise)
  {
    if !takes then Ok((otherwise, ts))
    else
      var dot :- Any(ts, Dot);
      TypeAt(dot.1)
  }

  // Mnemonic and suffixes: an instruction without operands.
  function MnemonicAt(c: Context, ts: seq<Token>): (r: Rest<Instruction>)
    ensures r.Ok? ==> |r.value.1| < |ts| && Cur(ts).kind == Identifier
    ensures r.Ok? ==> r.value.0.opcode == RETVOID || r.value.0.opcode < |c.table|
  {
    var m :- Any(ts, Identifier);
    if m.0.text == "ret" && !Check(m.1, Dot) then Ok((Instruction(RETVOID, I32, I32, false, 0, [], m.0.line), m.1))
    else
      match OpcodeFromName(c.table, m.0.text, 0)
      case None => Fail(UnknownInstruction(m.0.text), m.1)
      case Some(op) =>
        if !Enabled(c, c.table[op].extension) then Fail(NeedsExtension(c.table[op].extension), m.1)
        else
          var ty :- SuffixAt(c.table[op].suffix, I32, m.1);
          var ty2 :- SuffixAt(c.table[op].suffix2, ty.0, ty.1);
          if !Enabled(c, TypeExtension(ty.0)) then Fail(TypeNeedsExtension(TypeExtension(ty.0)), ty2.1)
          else if !Enabled(c, TypeExtension(ty2.0)) then Fail(TypeNeedsExtension(TypeExtension(ty2.0)), ty2.1)
          else Ok((Instruction(op, ty.0, ty2.0, false, 0, [], m.0.line), ty2.1))
  }

  // An opcode that takes no operands: `ret` without a type, or one flagged so.
  predicate TakesNone(c: Context, opcode: UInt16) {
    opcode == RETVOID || (opcode < |c.table| && c.table[opcode].noOps)
  }

  predicate WantsDest(c: Context, opcode: UInt16) { opcode < |c.table| && c.table[opcode].dest }

  function InstructionAt(c: Context, params: map<string, nat>, ts: seq<Token>): (r: Rest<Instruction>)
    ensures r.Ok? ==> |r.value.1| < |ts| && Cur(ts).kind == Identifier
  {
    var m :- MnemonicAt(c, ts);
    if TakesNone(c, m.0.opcode) then Ok(m)
    else
      var i :- OperandLoop(params, WantsDest(c, m.0.opcode), true, m.0, m.1);
      CallShape(i.0, i.1)
  }

  predicate AtLabel(ts: seq<Token>) { |ts| > 1 && ts[1].kind == Colon }

  function InstructionLoop(c: Context, params: map<string, nat>, ts: seq<Token>): (r: Rest<seq<Instruction>>)
    ensures r.Ok? ==> |r.value.1| <= |ts|
    decreases |ts|
  {
    if !(Check(ts, Identifier) && !AtLabel(ts)) then Ok(([], ts))
    else
      var i :- InstructionAt(c, params, ts);
      var more :- InstructionLoop(c, params, i.1);
      Ok(([i.0] + more.0, more.1))
  }

  function BlockAt(c: Context, params: map<string, nat>, ts: seq<Token>): (r: Rest<Block>)
    ensures r.Ok? ==> |r.value.1| < |ts|
  {
    var labelName :- Any(ts, Identifier);
    var colon :- Any(labelName.1, Colon);
    var instructions :- InstructionLoop(c, params, colon.1);
    Ok((Block(labelName.0.text, instructions.0), instructions.1))
  }

  function BlockLoop(c: Context, params: map<string, nat>, ts: seq<Token>): (r: Rest<seq<Block>>)
    ensures r.Ok? ==> |r.value.1| <= |ts|
    decreases |ts|
  {
    if Check(ts, RBrace) then Ok(([], ts))
    else
      var b :- BlockAt(c, params, ts);
      var more :- BlockLoop(c, params, b.1);
      Ok(([b.0] + more.0, more.1))
  }

  // `export`, if it is there, `func` and the name.
  function NameAt(ts: seq<Token>): (r: Rest<Function>)
    ensures r.Ok? ==> |r.value.1| < |ts|
  {
    var isExported := CheckWord(ts, "export");
    var word :- Word(if isExported then ts[1..] else ts, "func");
    var name :- Any(word.1, Identifier);
    Ok((Function(name.0.text, "", isExported, [], VOID, []), name.1))
  }

  // Everything up to and with the opening brace.
  function HeaderAt(ts: seq<Token>): (r: Rest<Function>)
    ensures r.Ok? ==> |r.value.1| < |ts|
  {
    var head :- NameAt(ts);
    var open :- Any(head.1, LParen);
    var params :- ParamsAt(open.1);
    var close :- Any(params.1, RParen);
    var arrow :- Any(close.1, Arrow);
    var returnType :- TypeAt(arrow.1);
    var brace :- Any(returnType.1, LBrace);
    Ok((head.0.(params := params.0, returnType := returnType.0), brace.1))
  }

  function FunctionAt(c: Context, ts: seq<Token>): (r: Rest<Function>)
    ensures r.Ok? ==> |r.value.1| < |ts|
  {
    var head :- HeaderAt(ts);
    var blocks :- BlockLoop(c, IndexMap(ParamNames(head.0.params)), head.1);
    var brace :- Any(blocks.1, RBrace);
    Ok((head.0.(blocks := blocks.0), brace.1))
  }

  function FunctionLoop(c: Context, moduleName: string, ts: seq<Token>): Rest<seq<Function>>
    decreases |ts|
  {
    if Check(ts, End) then Ok(([], ts))
    else
      var f :- FunctionAt(c, ts);
      var more :- FunctionLoop(c, moduleName, f.1);
      Ok(([f.0.(moduleName := moduleName)] + more.0, more.1))
  }

  function ParseSpec(c: Context, ts: seq<Token>): Result<Object, ParseError> {
    var word :- Word(ts, "module");
    var name :- Any(word.1, Identifier);
    var functions :- FunctionLoop(c, name.0.text, name.1);
    Ok(Object(name.0.text, functions.0))
  }

  function ErrorLine(e: LexError): nat { e.line }

  function ParseModuleSpec(c: Context, source: string, strtod: string -> UInt64): Result<Object, ParseError> {
    match LexSpec(source, 1, strtod)
    case Err(e) => Err(ParseError(Lexical(e), ErrorLine(e)))
    case Ok(ts) => ParseSpec(c, ts)
  }
}
