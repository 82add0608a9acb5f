// What `$name` stands for: the register of the last parameter with that name (src/frontend/parser.cpp:241-248,
// whose map is filled by ParseFunction). A body parses as if every `$name` were written as that register.

module ParamRefs {
  import opened Ast
  import opened Lexer
  import opened Opcodes
  import opened Grammar

  // The index of the last parameter called s.
  function LastNamed(ps: seq<Param>, s: string): (r: Option<nat>)
    ensures r == None <==> forall k :: 0 <= k < |ps| ==> ps[k].name != s
    ensures r.Some? ==> r.value < |ps| && ps[r.value].name == s && forall k :: r.value < k < |ps| ==> ps[k].name != s
  {
    if ps == [] then None
    else if ps[|ps| - 1].name == s then Some(|ps| - 1)
    else LastNamed(ps[..|ps| - 1], s)
  }

  function Names(ps: seq<Param>): map<string, nat> { IndexMap(ParamNames(ps)) }

  lemma NamesGiveLast(ps: seq<Param>, s: string)
    ensures s in Names(ps) <==> LastNamed(ps, s).Some?
    ensures s in Names(ps) ==> Names(ps)[s] == LastNamed(ps, s).value
  {
    IndexMapIsLast(ParamNames(ps));
    hide IndexMap;
    if LastNamed(ps, s).Some? { assert ParamNames(ps)[LastNamed(ps, s).value] == s; }
  }

  // A `$name` reads as the register of the last parameter with that name, and is an error if there is none.
  lemma ParamRefReads(ps: seq<Param>, ts: seq<Token>)
    requires Check(ts, ParamRef)
    ensures OperandAt(Names(ps), ts) ==
      match LastNamed(ps, ts[0].text)
      case Some(j) => Ok((Register(j % 0x1_0000_0000), ts[1..]))
      case None => Err(ParseError(UnknownParameter(ts[0].text), Cur(ts[1..]).line))
  {
    NamesGiveLast(ps, ts[0].text);
    hide Names, LastNamed;
  }

  // ---------------------------------------------------------------- writing registers for names

  function Replaced(ps: seq<Param>, t: Token): Token {
    if t.kind != ParamRef then t
    else
      match LastNamed(ps, t.text)
      case Some(j) => t.(kind := Reg, intValue := j % 0x1_0000_0000)
      case None => t
  }

  function ReplacedAll(ps: seq<Param>, ts: seq<Token>): (us: seq<Token>)
    ensures |us| == |ts| && forall k :: 0 <= k < |ts| ==> us[k] == Replaced(ps, ts[k])
  {
    seq(|ts|, k requires 0 <= k < |ts| => Replaced(ps, ts[k]))
  }

  // A result whose remaining tokens are rewritten.
  function Moved<T>(ps: seq<Param>, r: Rest<T>): Rest<T> {
    match r
    case Ok(v) => Ok((v.0, ReplacedAll(ps, v.1)))
    case Err(e) => Err(e)
  }

  lemma ReplacedTail(ps: seq<Param>, ts: seq<Token>)
    requires ts != []
    ensures ReplacedAll(ps, ts) != [] && ReplacedAll(ps, ts)[0] == Replaced(ps, ts[0])
    ensures ReplacedAll(ps, ts)[1..] == ReplacedAll(ps, ts[1..])
  {
  }

  // The tests of the parser cannot tell the two apart.
  lemma ReplacedLooks(ps: seq<Param>, ts: seq<Token>)
    ensures var us := ReplacedAll(ps, ts);
      && (ts == [] <==> us == [])
      && Cur(us).text == Cur(ts).text && Cur(us).line == Cur(ts).line
      && OperandStart(Cur(us)) == OperandStart(Cur(ts))
      && AtLabel(us) == AtLabel(ts)
    ensures forall kind :: kind != Reg && kind != ParamRef ==> Check(ReplacedAll(ps, ts), kind) == Check(ts, kind)
  {
    hide LastNamed;
  }

  lemma AnyMoved(ps: seq<Param>, ts: seq<Token>, kind: TokenKind)
    requires kind != End && kind != Reg && kind != ParamRef
    ensures Any(ReplacedAll(ps, ts), kind) == Moved(ps, Any(ts, kind))
  {
    hide LastNamed;
    ReplacedLooks(ps, ts);
    if Check(ts, kind) { ReplacedTail(ps, ts); }
  }

  lemma TypeMoved(ps: seq<Param>, ts: seq<Token>)
    ensures TypeAt(ReplacedAll(ps, ts)) == Moved(ps, TypeAt(ts))
  {
    hide LastNamed, TypeFromName, Any, ReplacedAll;
    AnyMoved(ps, ts, Identifier);
    if Any(ts, Identifier).Ok? { ReplacedLooks(ps, Any(ts, Identifier).value.1); }
  }

  lemma OperandMoved(ps: seq<Param>, ts: seq<Token>)
    ensures OperandAt(map[], ReplacedAll(ps, ts)) == Moved(ps, OperandAt(Names(ps), ts))
  {
    hide LastNamed, Names, ReplacedAll;
    ReplacedLooks(ps, ts);
    if ts != [] {
      ReplacedTail(ps, ts);
      ReplacedLooks(ps, ts[1..]);
      if Check(ts, ParamRef) { ParamRefReads(ps, ts); }
    }
  }

  lemma {:induction false} OperandLoopMoved(ps: seq<Param>, destWanted: bool, first: bool, i: Instruction, ts: seq<Token>)
    ensures OperandLoop(map[], destWanted, first, i, ReplacedAll(ps, ts)) == Moved(ps, OperandLoop(Names(ps), destWanted, first, i, ts))
    decreases |ts|
  {
    hide Names, OperandAt, ReplacedAll, LastNamed, OperandStart;
    ReplacedLooks(ps, ts);
    if if first then OperandStart(Cur(ts)) else Check(ts, Comma) {
      if !first { ReplacedTail(ps, ts); }
      var us := if first then ts else ts[1..];
      OperandMoved(ps, us);
      if OperandAt(Names(ps), us).Ok? {
        var op := OperandAt(Names(ps), us).value;
        ReplacedLooks(ps, op.1);
        if destWanted && !i.hasDest {
          if op.0.Register? { OperandLoopMoved(ps, destWanted, false, i.(hasDest := true, dest := op.0.reg), op.1); }
        } else {
          OperandLoopMoved(ps, destWanted, false, i.(operands := i.operands + [op.0]), op.1);
        }
      }
    }
  }

  lemma SuffixMoved(ps: seq<Param>, takes: bool, otherwise: Byte, ts: seq<Token>)
    ensures SuffixAt(takes, otherwise, ReplacedAll(ps, ts)) == Moved(ps, SuffixAt(takes, otherwise, ts))
  {
    hide TypeAt, Any, ReplacedAll;
    if takes {
      AnyMoved(ps, ts, Dot);
      if Any(ts, Dot).Ok? { TypeMoved(ps, Any(ts, Dot).value.1); }
    }
  }

  lemma MnemonicMoved(c: Context, ps: seq<Param>, ts: seq<Token>)
    ensures MnemonicAt(c, ReplacedAll(ps, ts)) == Moved(ps, MnemonicAt(c, ts))
  {
    hide SuffixAt, ReplacedAll, OpcodeFromName, Enabled, TypeExtension, Any;
    AnyMoved(ps, ts, Identifier);
    if Any(ts, Identifier).Ok? {
      var m := Any(ts, Identifier).value;
      ReplacedLooks(ps, m.1);
      if !(m.0.text == "ret" && !Check(m.1, Dot)) && OpcodeFromName(c.table, m.0.text, 0).Some? {
        var op := OpcodeFromName(c.table, m.0.text, 0).value;
        SuffixMoved(ps, c.table[op].suffix, I32, m.1);
        if SuffixAt(c.table[op].suffix, I32, m.1).Ok? {
          var ty := SuffixAt(c.table[op].suffix, I32, m.1).value;
          SuffixMoved(ps, c.table[op].suffix2, ty.0, ty.1);
          if SuffixAt(c.table[op].suffix2, ty.0, ty.1).Ok? { ReplacedLooks(ps, SuffixAt(c.table[op].suffix2, ty.0, ty.1).value.1); }
        }
      }
    }
  }

  lemma InstructionMoved(c: Context, ps: seq<Param>, ts: seq<Token>)
    ensures InstructionAt(c, map[], ReplacedAll(ps, ts)) == Moved(ps, InstructionAt(c, Names(ps), ts))
  {
    hide MnemonicAt, OperandLoop, ReplacedAll, Names, TakesNone, WantsDest;
    MnemonicMoved(c, ps, ts);
    if MnemonicAt(c, ts).Ok? {
      var m := MnemonicAt(c, ts).value;
      OperandLoopMoved(ps, WantsDest(c, m.0.opcode), true, m.0, m.1);
      if OperandLoop(Names(ps), WantsDest(c, m.0.opcode), true, m.0, m.1).Ok? {
        ReplacedLooks(ps, OperandLoop(Names(ps), WantsDest(c, m.0.opcode), true, m.0, m.1).value.1);
      }
    }
  }

  lemma {:induction false} InstructionLoopMoved(c: Context, ps: seq<Param>, ts: seq<Token>)
    ensures InstructionLoop(c, map[], ReplacedAll(ps, ts)) == Moved(ps, InstructionLoop(c, Names(ps), ts))
    decreases |ts|
  {
    hide InstructionAt, ReplacedAll, Names, AtLabel;
    ReplacedLooks(ps, ts);
    if Check(ts, Identifier) && !AtLabel(ts) {
      InstructionMoved(c, ps, ts);
      if InstructionAt(c, Names(ps), ts).Ok? { InstructionLoopMoved(c, ps, InstructionAt(c, Names(ps), ts).value.1); }
    }
  }

  lemma BlockMoved(c: Context, ps: seq<Param>, ts: seq<Token>)
    ensures BlockAt(c, map[], ReplacedAll(ps, ts)) == Moved(ps, BlockAt(c, Names(ps), ts))
  {
    hide InstructionLoop, ReplacedAll, Names, Any;
    AnyMoved(ps, ts, Identifier);
    if Any(ts, Identifier).Ok? {
      var labelName := Any(ts, Identifier).value;
      AnyMoved(ps, labelName.1, Colon);
      if Any(labelName.1, Colon).Ok? { InstructionLoopMoved(c, ps, Any(labelName.1, Colon).value.1); }
    }
  }

  // The body of a function parses as if every `$name` in it were written as the register it stands for.
  lemma {:induction false} BodyMoved(c: Context, ps: seq<Param>, ts: seq<Token>)
    ensures BlockLoop(c, map[], ReplacedAll(ps, ts)) == Moved(ps, BlockLoop(c, Names(ps), ts))
    decreases |ts|
  {
    hide BlockAt, ReplacedAll, Names;
    ReplacedLooks(ps, ts);
    if !Check(ts, RBrace) {
      BlockMoved(c, ps, ts);
      if BlockAt(c, Names(ps), ts).Ok? { BodyMoved(c, ps, BlockAt(c, Names(ps), ts).value.1); }
    }
  }

  // A function whose header reads as `f` has the blocks that its body gives once every `$name` is written as the
  // register of the last parameter of f with that name; no name is looked up any more.
  lemma NamesAreRegisters(c: Context, ts: seq<Token>)
    requires HeaderAt(ts).Ok?
    ensures var (f, body) := HeaderAt(ts).value;
      var plain := BlockLoop(c, map[], ReplacedAll(f.params, body));
      && (FunctionAt(c, ts).Ok? <==> plain.Ok? && Check(plain.value.1, RBrace))
      && (FunctionAt(c, ts).Ok? ==> FunctionAt(c, ts).value.0 == f.(blocks := plain.value.0))
      && (FunctionAt(c, ts).Ok? ==> ReplacedAll(f.params, FunctionAt(c, ts).value.1) == plain.value.1[1..])
      && (plain.Err? ==> FunctionAt(c, ts) == Err(plain.error))
  {
    hide HeaderAt, BlockLoop, ReplacedAll;
    var (f, body) := HeaderAt(ts).value;
    BodyMoved(c, f.params, body);
    var blocks := BlockLoop(c, Names(f.params), body);
    if blocks.Ok? {
      ReplacedLooks(f.params, blocks.value.1);
      if Check(blocks.value.1, RBrace) { ReplacedTail(f.params, blocks.value.1); }
    }
  }
}
