// Parsing the tokens of a printed program: the instructions come back, whatever lines the tokens are on.

module TextParse {
  import opened Ast
  import opened Lexer
  import opened Opcodes
  import opened Grammar
  import opened Disassembler
  import opened TextTokens
  import opened TextModules

  // The token list starts with these tokens, up to their lines.
  predicate Starts(ts: seq<Token>, expected: seq<Token>) {
    |expected| <= |ts| && forall k :: 0 <= k < |expected| ==> ts[k].(line := 0) == expected[k]
  }

  lemma StartsSplit(ts: seq<Token>, a: seq<Token>, b: seq<Token>)
    requires Starts(ts, a + b)
    ensures Starts(ts, a) && Starts(ts[|a|..], b) && ts[|a|..][|b|..] == ts[|a + b|..]
  {
    forall k | 0 <= k < |a| ensures ts[k].(line := 0) == a[k] { assert (a + b)[k] == a[k]; }
    forall k | 0 <= k < |b| ensures ts[|a|..][k].(line := 0) == b[k] { assert (a + b)[|a| + k] == b[k]; }
  }

  lemma StartsOne(ts: seq<Token>, t: Token)
    requires Starts(ts, [t])
    ensures ts != [] && ts[0].(line := 0) == t && Cur(ts).kind == t.kind && Cur(ts).text == t.text
    ensures t.kind != End ==> Any(ts, t.kind) == Ok((ts[0], ts[1..]))
  {
    assert ts[0].(line := 0) == [t][0];
  }

  // ---------------------------------------------------------------- types and mnemonics

  // Types are told apart by their first letter, their length and their last letter.
  function TypeKey(s: string): int
    requires s != ""
  {
    s[0] as int * 10000 + |s| * 1000 + s[|s| - 1] as int
  }

  const TYPE_KEYS: seq<int> :=
    [1052056, 1172056, 1053054, 1173054, 1053050, 1173050, 1053052, 1173052, 1054056, 1174056, 1023050, 1023052, 1184100, 1123114, 1184056, 1184054, 1184050]

  lemma TypeKeyIs(t: nat)
    requires t < 17
    ensures |TYPE_NAMES[t]| >= 2 && TypeKey(TYPE_NAMES[t]) == TYPE_KEYS[t]
  {
    if t < 8 {
      if t < 4 { if t < 2 { assert t == 0 || t == 1; } else { assert t == 2 || t == 3; } }
      else { if t < 6 { assert t == 4 || t == 5; } else { assert t == 6 || t == 7; } }
    } else if t < 12 {
      if t < 10 { assert t == 8 || t == 9; } else { assert t == 10 || t == 11; }
    } else {
      assert t == 12 || t == 13 || t == 14 || t == 15 || t == 16;
    }
  }

  lemma TypeKeysDiffer(t: nat, u: nat)
    requires t < 17 && u < 17 && t != u
    ensures TYPE_KEYS[t] != TYPE_KEYS[u]
  {
  }

  lemma TypeFound(t: Byte)
    requires t < TYPE_COUNT
    ensures TypeFromName(TypeName(t), 0) == Some(t)
  {
    var r := TypeFromName(TypeName(t), 0);
    assert TYPE_NAMES[t] == TypeName(t);
    if r.Some? && r.value != t {
      TypeKeyIs(t);
      TypeKeyIs(r.value);
      TypeKeysDiffer(t, r.value);
    }
  }

  lemma TypeReads(t: Byte, ts: seq<Token>)
    requires t < TYPE_COUNT && Starts(ts, [IdentToken(TypeName(t))])
    ensures ts != [] && TypeAt(ts) == Ok((t, ts[1..]))
  {
    hide TypeName, TypeFromName;
    StartsOne(ts, IdentToken(TypeName(t)));
    TypeFound(t);
  }

  lemma SuffixReads(takes: bool, t: Byte, otherwise: Byte, ts: seq<Token>)
    requires t < TYPE_COUNT && Starts(ts, SuffixTokens(takes, t)) && (!takes ==> t == otherwise)
    ensures SuffixAt(takes, otherwise, ts) == Ok((t, ts[|SuffixTokens(takes, t)|..]))
  {
    hide TypeName, TypeAt;
    if takes {
      var a, b := [MarkToken('.')], [IdentToken(TypeName(t))];
      assert SuffixTokens(takes, t) == a + b;
      StartsSplit(ts, a, b);
      StartsOne(ts, MarkToken('.'));
      TypeReads(t, ts[1..]);
    }
  }

  lemma OpcodeFound(table: OpcodeTable, op: UInt16)
    requires TableOk(table) && ReadsBack(table, op) && op != RETVOID
    ensures OpcodeFromName(table, table[op].mnemonic, 0) == Some(op)
    ensures table[op].mnemonic == "ret" <==> op == RET
  {
    hide OpcodeFromName, IsName;
  }

  // ---------------------------------------------------------------- instructions

  // What the parser gives an instruction, apart from its operands' own form.
  predicate Shaped(c: Context, i: Instruction) {
    && i.opcode < |c.table| && i.ty < TYPE_COUNT && i.ty2 < TYPE_COUNT
    && var e := c.table[i.opcode];
    && (!e.suffix ==> i.ty == I32) && (!e.suffix2 ==> i.ty2 == i.ty) && (!i.hasDest ==> i.dest == 0)
    && (i.opcode != RETVOID ==> Enabled(c, e.extension) && Enabled(c, TypeExtension(i.ty)) && Enabled(c, TypeExtension(i.ty2)))
    && if e.noOps then i.operands == [] && !i.hasDest
       else if i.opcode == CALL then i.operands != [] && i.operands[0].Symbol? && (i.hasDest || |i.operands| == 1)
       else if e.dest then i.hasDest || i.operands == []
       else !i.hasDest
  }

  // An instruction that could have operands but has none: it must not stand before another identifier.
  predicate Bare(c: Context, i: Instruction) {
    !TakesNone(c, i.opcode) && !i.hasDest && i.operands == []
  }

  function NoLine(i: Instruction): Instruction { i.(line := 0) }

  // What may follow an instruction.
  predicate Follows(c: Context, i: Instruction, rest: seq<Token>) {
    Check(rest, RBrace) || (Check(rest, Identifier) && !Bare(c, i))
  }

  lemma OperandReads(params: map<string, nat>, op: Operand, ts: seq<Token>)
    requires Printable(op) && Starts(ts, [OperandToken(op)])
    ensures ts != [] && OperandAt(params, ts) == Ok((op, ts[1..])) && OperandStart(Cur(ts))
  {
    hide IsName, RegisterText, SignedDecimal;
    StartsOne(ts, OperandToken(op));
  }

  lemma LoopDone(params: map<string, nat>, destWanted: bool, i: Instruction, ts: seq<Token>)
    requires !Check(ts, Comma)
    ensures OperandLoop(params, destWanted, false, i, ts) == Ok((i, ts))
  {
  }

  lemma LoopContinues(params: map<string, nat>, destWanted: bool, i: Instruction, ts: seq<Token>, op: Operand)
    requires Check(ts, Comma) && ts != [] && ts[1..] != [] && OperandAt(params, ts[1..]) == Ok((op, ts[1..][1..]))
    requires destWanted ==> i.hasDest
    ensures OperandLoop(params, destWanted, false, i, ts)
         == OperandLoop(params, destWanted, false, i.(operands := i.operands + [op]), ts[1..][1..])
  {
    hide OperandAt;
  }

  lemma {:induction false} MoreReads(params: map<string, nat>, destWanted: bool, i: Instruction, ops: seq<Operand>, ts: seq<Token>)
    requires AllPrintable(ops) && Starts(ts, MoreTokens(ops)) && (destWanted ==> i.hasDest)
    requires !Check(ts[|MoreTokens(ops)|..], Comma)
    ensures OperandLoop(params, destWanted, false, i, ts) == Ok((i.(operands := i.operands + ops), ts[|MoreTokens(ops)|..]))
    decreases |ops|
  {
    hide OperandAt, Printable, OperandToken, Starts, OperandLoop;
    if ops == [] {
      LoopDone(params, destWanted, i, ts);
      assert i.operands + ops == i.operands && ts[0..] == ts;
    } else {
      var a, b, rest := [MarkToken(',')], [OperandToken(ops[0])], MoreTokens(ops[1..]);
      assert MoreTokens(ops) == a + (b + rest) by { assert [MarkToken(','), OperandToken(ops[0])] == a + b; }
      StartsSplit(ts, a, b + rest);
      StartsSplit(ts[1..], b, rest);
      StartsOne(ts, MarkToken(','));
      OperandReads(params, ops[0], ts[1..]);
      LoopContinues(params, destWanted, i, ts, ops[0]);
      var next := i.(operands := i.operands + [ops[0]]);
      MoreReads(params, destWanted, next, ops[1..], ts[1..][1..]);
      assert (i.operands + [ops[0]]) + ops[1..] == i.operands + ops;
    }
  }

  // The operand loop, on the listed operands of an instruction whose mnemonic gave `m`.
  lemma ListedReads(params: map<string, nat>, destWanted: bool, m: Instruction, ops: seq<Operand>, ts: seq<Token>)
    requires AllPrintable(ops) && Starts(ts, OperandTokens(ops)) && !m.hasDest && m.operands == []
    requires !Check(ts[|OperandTokens(ops)|..], Comma) && (ops == [] ==> !OperandStart(Cur(ts)))
    requires destWanted && ops != [] ==> ops[0].Register?
    ensures OperandLoop(params, destWanted, true, m, ts) ==
      Ok((if destWanted && ops != [] then m.(hasDest := true, dest := ops[0].reg, operands := ops[1..]) else m.(operands := ops),
          ts[|OperandTokens(ops)|..]))
  {
    hide OperandAt, Printable, OperandToken, Starts, OperandLoop;
    if ops == [] {
      LoopEnds(params, destWanted, m, ts);
      assert ts[0..] == ts;
    } else {
      var a, rest := [OperandToken(ops[0])], MoreTokens(ops[1..]);
      StartsSplit(ts, a, rest);
      OperandReads(params, ops[0], ts);
      LoopStarts(params, destWanted, m, ts, ops[0]);
      if destWanted {
        MoreReads(params, destWanted, m.(hasDest := true, dest := ops[0].reg), ops[1..], ts[1..]);
        assert [] + ops[1..] == ops[1..];
      } else {
        MoreReads(params, destWanted, m.(operands := [] + [ops[0]]), ops[1..], ts[1..]);
        assert [] + [ops[0]] + ops[1..] == ops;
      }
    }
  }

  lemma LoopEnds(params: map<string, nat>, destWanted: bool, m: Instruction, ts: seq<Token>)
    requires !OperandStart(Cur(ts))
    ensures OperandLoop(params, destWanted, true, m, ts) == Ok((m, ts))
  {
  }

  lemma LoopStarts(params: map<string, nat>, destWanted: bool, m: Instruction, ts: seq<Token>, op: Operand)
    requires ts != [] && OperandStart(Cur(ts)) && OperandAt(params, ts) == Ok((op, ts[1..])) && !m.hasDest && m.operands == []
    requires destWanted ==> op.Register?
    ensures OperandLoop(params, destWanted, true, m, ts) ==
      if destWanted then OperandLoop(params, destWanted, false, m.(hasDest := true, dest := op.reg), ts[1..])
      else OperandLoop(params, destWanted, false, m.(operands := [] + [op]), ts[1..])
  {
  }

  function MnemonicTokens(table: OpcodeTable, i: Instruction): seq<Token>
    requires InstructionPrintable(table, i)
  {
    [IdentToken(table[i.opcode].mnemonic)] + (SuffixTokens(table[i.opcode].suffix, i.ty) + SuffixTokens(table[i.opcode].suffix2, i.ty2))
  }

  lemma MnemonicReads(c: Context, i: Instruction, ts: seq<Token>)
    requires TableOk(c.table) && Shaped(c, i) && InstructionPrintable(c.table, i) && Starts(ts, MnemonicTokens(c.table, i))
    requires i.opcode == RETVOID ==> !Check(ts[1..], Dot)
    ensures ts != []
    ensures MnemonicAt(c, ts) ==
      Ok((Instruction(i.opcode, i.ty, i.ty2, false, 0, [], ts[0].line), ts[|MnemonicTokens(c.table, i)|..]))
  {
    hide AllPrintable, IsName, SuffixAt, OpcodeFromName, SuffixTokens, Starts, Enabled;
    var e := c.table[i.opcode];
    var a, s1, s2 := [IdentToken(e.mnemonic)], SuffixTokens(e.suffix, i.ty), SuffixTokens(e.suffix2, i.ty2);
    StartsSplit(ts, a, s1 + s2);
    StartsOne(ts, IdentToken(e.mnemonic));
    StartsSplit(ts[1..], s1, s2);
    if i.opcode == RETVOID {
      NoSuffix(i.ty, i.ty2);
      assert s1 + s2 == [];
    } else {
      OpcodeFound(c.table, i.opcode);
      if i.opcode == RET { DotFirst(ts[1..], i.ty); }
      SuffixReads(e.suffix, i.ty, I32, ts[1..]);
      SuffixReads(e.suffix2, i.ty2, i.ty, ts[1..][|s1|..]);
    }
  }

  lemma NoSuffix(t: Byte, u: Byte)
    requires t < TYPE_COUNT && u < TYPE_COUNT
    ensures SuffixTokens(false, t) == [] && SuffixTokens(false, u) == []
  {
  }

  lemma DotFirst(ts: seq<Token>, t: Byte)
    requires t < TYPE_COUNT && Starts(ts, SuffixTokens(true, t))
    ensures Check(ts, Dot)
  {
    hide TypeName;
    assert ts[0].(line := 0) == SuffixTokens(true, t)[0];
  }

  lemma InstructionSplits(table: OpcodeTable, i: Instruction)
    requires InstructionPrintable(table, i)
    ensures AllPrintable(Listed(i)) && InstructionTokens(table, i) == MnemonicTokens(table, i) + OperandTokens(Listed(i))
  {
    ListedPrintable(i);
    hide AllPrintable, IsName, SuffixTokens, OperandTokens, Listed;
  }

  // What the call fix-up and the destination make of the listed operands.
  lemma ListedUnlisted(c: Context, i: Instruction, line: int, rest: seq<Token>)
    requires Shaped(c, i) && !TakesNone(c, i.opcode) && TableOk(c.table)
    ensures var l, wants := Listed(i), WantsDest(c, i.opcode);
      && (wants && l != [] ==> l[0].Register?)
      && var m := Instruction(i.opcode, i.ty, i.ty2, false, 0, [], line);
         var read := if wants && l != [] then m.(hasDest := true, dest := l[0].reg, operands := l[1..]) else m.(operands := l);
         CallShape(read, rest) == Ok((i.(line := line), rest))
    ensures Listed(i) == [] <==> Bare(c, i)
  {
    hide IsName, Enabled;
    var l := Listed(i);
    if i.opcode == CALL {
      if i.hasDest {
        assert l == [i.operands[0]] + [Register(i.dest)] + i.operands[1..];
        assert [l[0]] + l[2..] == i.operands;
      } else {
        assert l == i.operands;
      }
    } else if i.hasDest {
      assert l == [Register(i.dest)] + i.operands;
      assert l[1..] == i.operands;
    } else {
      assert l == i.operands;
    }
  }

  lemma AfterMnemonic(c: Context, i: Instruction, ts: seq<Token>)
    requires InstructionPrintable(c.table, i) && Shaped(c, i) && TableOk(c.table)
    requires Starts(ts, InstructionTokens(c.table, i)) && Follows(c, i, ts[|InstructionTokens(c.table, i)|..])
    ensures i.opcode == RETVOID ==> !Check(ts[1..], Dot) && OperandTokens(Listed(i)) == []
    ensures AllPrintable(Listed(i)) && (TakesNone(c, i.opcode) ==> Listed(i) == [])
  {
    hide IsName, Enabled, Starts;
    InstructionSplits(c.table, i);
    if i.opcode == RETVOID {
      NoSuffix(i.ty, i.ty2);
      assert InstructionTokens(c.table, i) == [IdentToken(c.table[i.opcode].mnemonic)];
    }
  }

  lemma InstructionReads(c: Context, params: map<string, nat>, i: Instruction, ts: seq<Token>)
    requires TableOk(c.table) && Shaped(c, i) && InstructionPrintable(c.table, i)
    requires Starts(ts, InstructionTokens(c.table, i)) && Follows(c, i, ts[|InstructionTokens(c.table, i)|..])
    ensures ts != [] && InstructionAt(c, params, ts) == Ok((i.(line := ts[0].line), ts[|InstructionTokens(c.table, i)|..]))
  {
    hide TableOk, InstructionPrintable, Starts, MnemonicTokens, OperandTokens, MnemonicAt, OperandLoop, Listed, IsName, AllPrintable, CallShape,
      InstructionTokens, WantsDest, Enabled;
    InstructionSplits(c.table, i);
    AfterMnemonic(c, i, ts);
    var m, l := MnemonicTokens(c.table, i), Listed(i);
    StartsSplit(ts, m, OperandTokens(l));
    MnemonicReads(c, i, ts);
    var rest := ts[|m|..][|OperandTokens(l)|..];
    if TakesNone(c, i.opcode) {
      NoOperandTokens(l);
      TakesNoneIs(c, i);
    } else {
      ListedUnlisted(c, i, ts[0].line, rest);
      NoOperandTokens(l);
      ListedReads(params, WantsDest(c, i.opcode), Instruction(i.opcode, i.ty, i.ty2, false, 0, [], ts[0].line), l, ts[|m|..]);
    }
  }

  lemma NoOperandTokens(l: seq<Operand>)
    requires AllPrintable(l)
    ensures l == [] ==> OperandTokens(l) == []
  {
  }

  lemma TakesNoneIs(c: Context, i: Instruction)
    requires Shaped(c, i) && TakesNone(c, i.opcode) && TableOk(c.table)
    ensures i.operands == [] && !i.hasDest && i.dest == 0
  {
  }

  // The token behind the mnemonic is no colon, so that the instruction is not taken for a label.
  lemma NotALabel(c: Context, i: Instruction, ts: seq<Token>)
    requires InstructionPrintable(c.table, i)
    requires Starts(ts, InstructionTokens(c.table, i)) && Follows(c, i, ts[|InstructionTokens(c.table, i)|..])
    ensures Check(ts, Identifier) && !AtLabel(ts)
  {
    hide AllPrintable, IsName, Listed, TypeName, RegisterText, SignedDecimal;
    ListedPrintable(i);
    var all := InstructionTokens(c.table, i);
    assert ts[0].(line := 0) == all[0];
    if |all| > 1 {
      assert ts[1].(line := 0) == all[1];
      SecondToken(c.table, i);
    } else {
      assert ts[|all|..] == ts[1..];
    }
  }

  lemma SecondToken(table: OpcodeTable, i: Instruction)
    requires InstructionPrintable(table, i) && |InstructionTokens(table, i)| > 1
    ensures InstructionTokens(table, i)[1].kind != Colon
  {
    hide AllPrintable, IsName, Listed, TypeName, RegisterText, SignedDecimal;
    ListedPrintable(i);
    var s1, s2, o := SuffixTokens(table[i.opcode].suffix, i.ty), SuffixTokens(table[i.opcode].suffix2, i.ty2), OperandTokens(Listed(i));
    assert InstructionTokens(table, i)[1] == (s1 + (s2 + o))[0];
    if s1 == [] {
      assert s1 + (s2 + o) == s2 + o;
      if s2 == [] { assert s2 + o == o; }
    }
  }
}
