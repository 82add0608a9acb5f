// The Parser object of src/frontend/parser.cpp: a position in the token list, moved over by methods that do
// what Grammar says.

module Parser {
  import opened Ast
  import opened Lexer
  import opened Opcodes
  import opened Grammar

  // A method that reads did what the specification says.
  ghost predicate Agrees<T>(spec: Rest<T>, r: Result<T, ParseError>, left: seq<Token>) {
    match spec
    case Ok(v) => r == Ok(v.0) && left == v.1
    case Err(e) => r == Err(e)
  }

  // The end token, and only it, closes a token list.
  predicate Closed(ts: seq<Token>) {
    ts != [] && ts[|ts| - 1].kind == End && forall i :: 0 <= i < |ts| - 1 ==> ts[i].kind != End
  }

  // What is read when xs has been read already.
  ghost function After<T>(xs: seq<T>, r: Rest<seq<T>>): Rest<seq<T>> {
    match r
    case Ok(v) => Ok((xs + v.0, v.1))
    case Err(e) => Err(e)
  }

  lemma AfterMore<T>(xs: seq<T>, x: T, r: Rest<seq<T>>)
    ensures After(xs, After([x], r)) == After(xs + [x], r)
    ensures After([], r) == r
  {
    if r.Ok? {
      assert xs + ([x] + r.value.0) == (xs + [x]) + r.value.0;
      assert [] + r.value.0 == r.value.0;
    }
  }

  lemma AfterEnd<T>(xs: seq<T>, ts: seq<Token>)
    ensures After(xs, Ok(([], ts))) == Ok((xs, ts))
  {
    assert xs + [] == xs;
  }

  class Parser {
    const tokens: seq<Token>
    const c: Context
    var pos: nat
    var currentParams: map<string, nat>

    ghost predicate Valid()
      reads this
    {
      Closed(tokens) && pos < |tokens|
    }

    // The tokens from the current one on.
    ghost function Left(): seq<Token>
      reads this
      requires Valid()
    {
      tokens[pos..]
    }

    constructor (tokens: seq<Token>, c: Context)
      requires Closed(tokens)
      ensures Valid() && this.tokens == tokens && this.c == c && Left() == tokens
    {
      this.tokens := tokens;
      this.c := c;
      pos := 0;
      currentParams := map[];
    }

    function Current(): (t: Token)
      reads this
      requires Valid()
      ensures t == Cur(Left())
    {
      tokens[pos]
    }

    // Stays at the end token.
    method Advance() returns (t: Token)
      requires Valid()
      modifies this`pos
      ensures Valid() && t == Cur(old(Left()))
      ensures old(Current()).kind != End ==> Left() == old(Left())[1..]
    {
      t := tokens[pos];
      if pos + 1 < |tokens| {
        assert tokens[pos..][1..] == tokens[pos + 1..];
        pos := pos + 1;
      }
    }

    method ExpectAny(kind: TokenKind) returns (r: Result<Token, ParseError>)
      requires Valid() && kind != End
      modifies this`pos
      ensures Valid() && Agrees(Any(old(Left()), kind), r, Left())
    {
      if Current().kind != kind { return Err(ParseError(UnexpectedToken(Current().text), Current().line)); }
      var t := Advance();
      r := Ok(t);
    }

    method ExpectIdent(word: string) returns (r: Result<Token, ParseError>)
      requires Valid()
      modifies this`pos
      ensures Valid() && Agrees(Word(old(Left()), word), r, Left())
    {
      if !(Current().kind == Identifier && Current().text == word) { return Err(ParseError(ExpectedWord(word), Current().line)); }
      var t := Advance();
      r := Ok(t);
    }

    method ExpectType() returns (r: Result<Byte, ParseError>)
      requires Valid()
      modifies this`pos
      ensures Valid() && Agrees(TypeAt(old(Left())), r, Left())
    {
      var t :- ExpectAny(Identifier);
      match TypeFromName(t.text, 0)
      case None => r := Err(ParseError(UnknownType(t.text), Current().line));
      case Some(ty) => r := Ok(ty);
    }

    // The parameter list up to, but without, the closing parenthesis.
    method ParseParams() returns (r: Result<seq<Param>, ParseError>)
      requires Valid()
      modifies this`pos
      ensures Valid() && Agrees(ParamsAt(old(Left())), r, Left())
    {
      hide Any, TypeAt, Check;
      ghost var spec := ParamsAt(Left());
      var params: seq<Param> := [];
      if Current().kind == RParen {
        CheckIs(Left(), RParen);
        return Ok([]);
      }
      CheckIs(Left(), RParen);
      AfterMore(params, Param("", 0), ParamLoop(Left()));
      var going := true;
      while going
        invariant Valid()
        invariant going ==> spec == After(params, ParamLoop(Left()))
        invariant !going ==> spec == Ok((params, Left()))
        decreases going, |tokens| - pos
      {
        ghost var was := Left();
        var name :- ExpectAny(Identifier);
        var _ :- ExpectAny(Colon);
        var ty :- ExpectType();
        ghost var rest := Left();
        ParamStep(was, Param(name.text, ty), rest);
        CheckIs(rest, Comma);
        if Current().kind != Comma {
          going := false;
        } else {
          AfterMore(params, Param(name.text, ty), ParamLoop(rest[1..]));
          var _ := Advance();
        }
        params := params + [Param(name.text, ty)];
      }
      r := Ok(params);
    }

    method ParseOperand() returns (r: Result<Operand, ParseError>)
      requires Valid()
      modifies this`pos
      ensures Valid() && Agrees(OperandAt(currentParams, old(Left())), r, Left())
    {
      var t := Current();
      match t.kind
      case Reg =>
        var _ := Advance();
        r := Ok(Register(ToUInt32(t.intValue)));
      case IntLiteral =>
        var _ := Advance();
        r := Ok(ImmediateInt(t.intValue));
      case FloatLiteral =>
        var _ := Advance();
        r := Ok(ImmediateFloat(t.floatValue));
      case Identifier =>
        var _ := Advance();
        r := Ok(Symbol(t.text));
      case ParamRef =>
        var _ := Advance();
        if t.text in currentParams {
          r := Ok(Register(ToUInt32(currentParams[t.text])));
        } else {
          r := Err(ParseError(UnknownParameter(t.text), Current().line));
        }
      case _ =>
        r := Err(ParseError(ExpectedOperand, t.line));
    }

    // A type suffix where the opcode takes one.
    method ParseSuffix(takes: bool, otherwise: Byte) returns (r: Result<Byte, ParseError>)
      requires Valid()
      modifies this`pos
      ensures Valid() && Agrees(SuffixAt(takes, otherwise, old(Left())), r, Left())
    {
      hide Any, TypeAt;
      if takes {
        var _ :- ExpectAny(Dot);
        r := ExpectType();
      } else {
        r := Ok(otherwise);
      }
    }

    method ParseMnemonic() returns (r: Result<Instruction, ParseError>)
      requires Valid()
      modifies this`pos
      ensures Valid() && Agrees(MnemonicAt(c, old(Left())), r, Left())
    {
      hide Any, SuffixAt, OpcodeFromName;
      var m :- ExpectAny(Identifier);
      if m.text == "ret" && Current().kind != Dot {
        return Ok(Instruction(RETVOID, I32, I32, false, 0, [], m.line));
      }
      var found := OpcodeFromName(c.table, m.text, 0);
      if found.None? { return Err(ParseError(UnknownInstruction(m.text), Current().line)); }
      var op := found.value;
      if !Enabled(c, c.table[op].extension) { return Err(ParseError(NeedsExtension(c.table[op].extension), Current().line)); }
      var ty :- ParseSuffix(c.table[op].suffix, I32);
      var ty2 :- ParseSuffix(c.table[op].suffix2, ty);
      if !Enabled(c, TypeExtension(ty)) { return Err(ParseError(TypeNeedsExtension(TypeExtension(ty)), Current().line)); }
      if !Enabled(c, TypeExtension(ty2)) { return Err(ParseError(TypeNeedsExtension(TypeExtension(ty2)), Current().line)); }
      r := Ok(Instruction(op, ty, ty2, false, 0, [], m.line));
    }

    method ParseOperands(destIsRegister: bool, start: Instruction) returns (r: Result<Instruction, ParseError>)
      requires Valid()
      modifies this`pos
      ensures Valid() && Agrees(OperandLoop(currentParams, destIsRegister, true, start, old(Left())), r, Left())
    {
      hide OperandAt, OperandLoop, Check;
      ghost var spec := OperandLoop(currentParams, destIsRegister, true, start, Left());
      var instr, first := start, true;
      CheckIs(Left(), Comma);
      while if first then OperandStart(Current()) else Current().kind == Comma
        invariant Valid()
        invariant spec == OperandLoop(currentParams, destIsRegister, first, instr, Left())
        decreases |tokens| - pos
      {
        ghost var was := Left();
        CheckIs(was, Comma);
        OperandStep(currentParams, destIsRegister, first, instr, was);
        if !first { var _ := Advance(); }
        first := false;
        var op :- ParseOperand();
        if destIsRegister && !instr.hasDest {
          if !op.Register? { return Err(ParseError(ExpectedDestination, Current().line)); }
          instr := instr.(hasDest := true, dest := op.reg);
        } else {
          instr := instr.(operands := instr.operands + [op]);
        }
      }
      CheckIs(Left(), Comma);
      OperandsDone(currentParams, destIsRegister, first, instr, Left());
      r := Ok(instr);
    }

    method ParseInstruction() returns (r: Result<Instruction, ParseError>)
      requires Valid()
      modifies this`pos
      ensures Valid() && Agrees(InstructionAt(c, currentParams, old(Left())), r, Left())
    {
      hide MnemonicAt, OperandLoop;
      var instr :- ParseMnemonic();
      if TakesNone(c, instr.opcode) { return Ok(instr); }
      instr :- ParseOperands(WantsDest(c, instr.opcode), instr);
      if instr.opcode == CALL {
        if instr.operands == [] || !instr.operands[0].Symbol? { return Err(ParseError(CallNeedsName, Current().line)); }
        if |instr.operands| >= 2 {
          if !instr.operands[1].Register? { return Err(ParseError(CallDestination, Current().line)); }
          assert instr.operands[..1] == [instr.operands[0]];
          instr := instr.(hasDest := true, dest := instr.operands[1].reg, operands := instr.operands[..1] + instr.operands[2..]);
        }
      }
      r := Ok(instr);
    }

    function IsBlockTerminator(): (b: bool)
      reads this
      requires Valid()
      ensures b == AtLabel(Left())
    {
      pos + 1 < |tokens| && tokens[pos + 1].kind == Colon
    }

    method ParseBlock() returns (r: Result<Block, ParseError>)
      requires Valid()
      modifies this`pos
      ensures Valid() && Agrees(BlockAt(c, currentParams, old(Left())), r, Left())
    {
      hide Any, InstructionAt, InstructionLoop, Check;
      var labelName :- ExpectAny(Identifier);
      var _ :- ExpectAny(Colon);
      ghost var spec := InstructionLoop(c, currentParams, Left());
      var instructions: seq<Instruction> := [];
      AfterMore(instructions, Instruction(0, 0, 0, false, 0, [], 0), spec);
      CheckIs(Left(), Identifier);
      while Current().kind == Identifier && !IsBlockTerminator()
        invariant Valid()
        invariant spec == After(instructions, InstructionLoop(c, currentParams, Left()))
        decreases |tokens| - pos
      {
        CheckIs(Left(), Identifier);
        InstructionStep(c, currentParams, Left());
        var instr :- ParseInstruction();
        AfterMore(instructions, instr, InstructionLoop(c, currentParams, Left()));
        instructions := instructions + [instr];
      }
      CheckIs(Left(), Identifier);
      InstructionsDone(c, currentParams, Left());
      AfterEnd(instructions, Left());
      r := Ok(Block(labelName.text, instructions));
    }

    method ParseBlocks() returns (r: Result<seq<Block>, ParseError>)
      requires Valid()
      modifies this`pos
      ensures Valid() && Agrees(BlockLoop(c, currentParams, old(Left())), r, Left())
    {
      hide BlockAt, BlockLoop, Check;
      ghost var spec := BlockLoop(c, currentParams, Left());
      var blocks: seq<Block> := [];
      AfterMore(blocks, Block("", []), spec);
      while Current().kind != RBrace
        invariant Valid()
        invariant spec == After(blocks, BlockLoop(c, currentParams, Left()))
        decreases |tokens| - pos
      {
        CheckIs(Left(), RBrace);
        BlockStep(c, currentParams, Left());
        var b :- ParseBlock();
        AfterMore(blocks, b, BlockLoop(c, currentParams, Left()));
        blocks := blocks + [b];
      }
      CheckIs(Left(), RBrace);
      BlocksDone(c, currentParams, Left());
      AfterEnd(blocks, Left());
      r := Ok(blocks);
    }

    method ParseName() returns (r: Result<Function, ParseError>)
      requires Valid()
      modifies this`pos
      ensures Valid() && Agrees(NameAt(old(Left())), r, Left())
    {
      hide Any, Word, CheckWord;
      var isExported := Current().kind == Identifier && Current().text == "export";
      CheckWordIs(Left(), "export");
      if isExported { var _ := Advance(); }
      var _ :- ExpectIdent("func");
      var name :- ExpectAny(Identifier);
      r := Ok(Function(name.text, "", isExported, [], VOID, []));
    }

    method ParseHeader() returns (r: Result<Function, ParseError>)
      requires Valid()
      modifies this`pos
      ensures Valid() && Agrees(HeaderAt(old(Left())), r, Left())
    {
      hide Any, NameAt, ParamsAt, TypeAt;
      var head :- ParseName();
      var _ :- ExpectAny(LParen);
      var params :- ParseParams();
      var _ :- ExpectAny(RParen);
      var _ :- ExpectAny(Arrow);
      var returnType :- ExpectType();
      var _ :- ExpectAny(LBrace);
      r := Ok(head.(params := params, returnType := returnType));
    }

    method ParseFunction() returns (r: Result<Function, ParseError>)
      requires Valid()
      modifies this
      ensures Valid() && Agrees(FunctionAt(c, old(Left())), r, Left())
    {
      hide Any, HeaderAt, BlockLoop;
      var fn :- ParseHeader();
      ghost var names := ParamNames(fn.params);
      currentParams := map[];
      for i := 0 to |fn.params|
        invariant Valid()
        invariant currentParams == IndexMap(names[..i])
        modifies this`currentParams
      {
        currentParams := currentParams[fn.params[i].name := i];
        assert names[..i + 1][..i] == names[..i] && names[..i + 1][i] == fn.params[i].name;
      }
      assert names[..|names|] == names;
      var blocks :- ParseBlocks();
      var _ :- ExpectAny(RBrace);
      currentParams := map[];
      r := Ok(fn.(blocks := blocks));
    }

    method Parse() returns (r: Result<Object, ParseError>)
      requires Valid()
      modifies this
      ensures Valid() && r == ParseSpec(c, old(Left()))
    {
      hide Any, Word, FunctionAt, FunctionLoop, Check;
      var _ :- ExpectIdent("module");
      var name :- ExpectAny(Identifier);
      ghost var spec := FunctionLoop(c, name.text, Left());
      var functions: seq<Function> := [];
      AfterMore(functions, Function("", "", false, [], 0, []), spec);
      while Current().kind != End
        invariant Valid()
        invariant spec == After(functions, FunctionLoop(c, name.text, Left()))
        decreases |tokens| - pos
      {
        CheckIs(Left(), End);
        FunctionStep(c, name.text, Left());
        var fn :- ParseFunction();
        AfterMore(functions, fn.(moduleName := name.text), FunctionLoop(c, name.text, Left()));
        functions := functions + [fn.(moduleName := name.text)];
      }
      CheckIs(Left(), End);
      FunctionsDone(c, name.text, Left());
      AfterEnd(functions, Left());
      r := Ok(Object(name.text, functions));
    }
  }

  // ---------------------------------------------------------------- one round of each loop

  lemma CheckIs(ts: seq<Token>, kind: TokenKind)
    ensures Check(ts, kind) <==> Cur(ts).kind == kind
  {
  }

  lemma CheckWordIs(ts: seq<Token>, word: string)
    ensures CheckWord(ts, word) <==> Cur(ts).kind == Identifier && Cur(ts).text == word
  {
  }

  lemma ParamStep(ts: seq<Token>, p: Param, rest: seq<Token>)
    requires Grammar.ParamAt(ts) == Ok((p, rest))
    ensures ParamLoop(ts) == if !Check(rest, Comma) then Ok(([p], rest)) else After([p], ParamLoop(rest[1..]))
  {
  }

  lemma OperandStep(params: map<string, nat>, destWanted: bool, first: bool, i: Instruction, ts: seq<Token>)
    requires if first then OperandStart(Cur(ts)) else Check(ts, Comma)
    ensures var o := OperandAt(params, if first then ts else ts[1..]);
      OperandLoop(params, destWanted, first, i, ts) ==
        if o.Err? then Err(o.error)
        else if destWanted && !i.hasDest then
          if o.value.0.Register? then OperandLoop(params, destWanted, false, i.(hasDest := true, dest := o.value.0.reg), o.value.1)
          else Fail(ExpectedDestination, o.value.1)
        else OperandLoop(params, destWanted, false, i.(operands := i.operands + [o.value.0]), o.value.1)
  {
  }

  lemma OperandsDone(params: map<string, nat>, destWanted: bool, first: bool, i: Instruction, ts: seq<Token>)
    requires !(if first then OperandStart(Cur(ts)) else Check(ts, Comma))
    ensures OperandLoop(params, destWanted, first, i, ts) == Ok((i, ts))
  {
  }

  lemma InstructionStep(c: Context, params: map<string, nat>, ts: seq<Token>)
    requires Check(ts, Identifier) && !AtLabel(ts)
    ensures var i := InstructionAt(c, params, ts);
      InstructionLoop(c, params, ts) == if i.Err? then Err(i.error) else After([i.value.0], InstructionLoop(c, params, i.value.1))
  {
    hide InstructionAt;
  }

  lemma InstructionsDone(c: Context, params: map<string, nat>, ts: seq<Token>)
    requires !(Check(ts, Identifier) && !AtLabel(ts))
    ensures InstructionLoop(c, params, ts) == Ok(([], ts))
  {
  }

  lemma BlockStep(c: Context, params: map<string, nat>, ts: seq<Token>)
    requires !Check(ts, RBrace)
    ensures var b := BlockAt(c, params, ts);
      BlockLoop(c, params, ts) == if b.Err? then Err(b.error) else After([b.value.0], BlockLoop(c, params, b.value.1))
  {
    hide BlockAt;
  }

  lemma BlocksDone(c: Context, params: map<string, nat>, ts: seq<Token>)
    requires Check(ts, RBrace)
    ensures BlockLoop(c, params, ts) == Ok(([], ts))
  {
  }

  lemma FunctionStep(c: Context, moduleName: string, ts: seq<Token>)
    requires !Check(ts, End)
    ensures var f := FunctionAt(c, ts);
      FunctionLoop(c, moduleName, ts) ==
        if f.Err? then Err(f.error) else After([f.value.0.(moduleName := moduleName)], FunctionLoop(c, moduleName, f.value.1))
  {
    hide FunctionAt;
  }

  lemma FunctionsDone(c: Context, moduleName: string, ts: seq<Token>)
    requires Check(ts, End)
    ensures FunctionLoop(c, moduleName, ts) == Ok(([], ts))
  {
  }

  // ---------------------------------------------------------------- parseModule

  lemma {:induction false} LexCloses(s: string, line: nat, strtod: string -> UInt64)
    ensures LexSpec(s, line, strtod).Ok? ==> Closed(LexSpec(s, line, strtod).value)
    decreases |s|
  {
    hide Front;
    if s != "" {
      FrontKind(s, strtod);
      match Front(s, strtod)
      case Blank(n) => LexCloses(s[n..], if s[0] == '\n' then line + 1 else line, strtod);
      case Piece(t, n) => LexCloses(s[n..], line, strtod);
      case Unknown(e) =>
    }
  }

  lemma FrontKind(s: string, strtod: string -> UInt64)
    requires s != ""
    ensures Front(s, strtod).Piece? ==> Front(s, strtod).token.kind != End
  {
    hide Run, NumberEnd, Strtoll, HasFraction;
  }

  method ParseModule(c: Context, source: string, strtod: string -> UInt64) returns (r: Result<Object, ParseError>)
    ensures r == ParseModuleSpec(c, source, strtod)
  {
    hide LexSpec, ParseSpec;
    LexCloses(source, 1, strtod);
    var tokens := Lex(source, strtod);
    if tokens.Err? { return Err(ParseError(Lexical(tokens.error), ErrorLine(tokens.error))); }
    var parser := new Parser(tokens.value, c);
    r := parser.Parse();
  }
}
