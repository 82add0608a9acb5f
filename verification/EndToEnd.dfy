// From link() to running machine code: what a linked program must be, beyond the domain of the backend, for
// the correctness theorem to apply; a program that is so; and one run of it that the theorem rightly excludes.

module EndToEnd {
  import opened Ast
  import opened Arm64Machine
  import opened Arm64Encoder
  import opened Codegen
  import opened NativeLayout
  import opened NativeEffects
  import opened CompileExact
  import opened Simulation
  import opened CompilerCorrectness
  import opened Linker
  import Arm64Words
  import I = Interpreter
  import Relocation

  // ---------------------------------------------------------------- which linked programs compile

  predicate AllAccepted(fs: seq<Function>)
    requires AllWellShaped(fs)
  {
    forall f :: 0 <= f < |fs| ==> IsSupported(fs[f]) && AllEncodable(fs[f]) && JumpsResolve(fs[f])
  }

  // A linked program compiles exactly when each of its functions is accepted.
  lemma LinkedCompilesExactly(objects: seq<Object>, p: Program)
    requires IsLinked(objects, p) && AllWellShaped(p.functions)
    ensures Linkable(p) && (CompileProgramSpec(p).Ok? <==> AllAccepted(p.functions))
    ensures CompileProgramSpec(p).Ok? ==> Ready(p) && |CompileProgramSpec(p).value.code| == 4 * FnStart(p, |p.functions|)
  {
    LinkedIsLinkable(objects, p);
    EachCompiles(p.functions);
    FirstFailureNone(p.functions);
    hide CompileSpec, FunctionShaped, IsLinked, AllAccepted, FirstFailure, LinkSpec, DistinctNames;
    if FirstFailure(p.functions) == None {
      assert Ready(p);
      NativeLinkCannotFail(objects, p);
      LinkedLength(p);
    }
  }

  lemma EachCompiles(fs: seq<Function>)
    requires AllWellShaped(fs)
    ensures (forall f :: 0 <= f < |fs| ==> CompileSpec(fs[f]).Ok?) <==> AllAccepted(fs)
  {
    hide CompileSpec, FunctionShaped, IsSupported, AllEncodable, JumpsResolve;
    forall f | 0 <= f < |fs|
      ensures CompileSpec(fs[f]).Ok? <==> IsSupported(fs[f]) && AllEncodable(fs[f]) && JumpsResolve(fs[f])
    {
      CompilesExactly(fs[f]);
    }
  }

  lemma LinkedLength(p: Program)
    requires Ready(p) && LinkSpec(p).Ok?
    ensures |LinkSpec(p).value.code| == 4 * FnStart(p, |p.functions|)
  {
    hide Ready, LinkedUpto, FnStart, Starts, FirstMissingFrom, Arm64Words.Bytes;
    BytesLength(LinkedUpto(p, |p.functions|));
  }

  lemma {:induction false} BytesLength(ws: seq<nat>)
    ensures |Arm64Words.Bytes(ws)| == 4 * |ws|
  {
    if ws != [] { BytesLength(ws[..|ws| - 1]); }
  }

  // No more words than these, whatever the instructions.
  function MaxWords(fs: seq<Function>): nat {
    if fs == [] then 0 else MaxWords(fs[..|fs| - 1]) + MaxLength(fs[|fs| - 1])
  }

  lemma ListingBound(p: Program, f: nat)
    requires Ready(p) && f < |p.functions|
    ensures |Listing(p, f)| <= MaxLength(p.functions[f])
  {
    hide *;
    Relocation.ListingEmittable(p, f);
    FunctionComes(p.functions[f]);
  }

  lemma {:induction false} StartBound(p: Program, n: nat)
    requires Ready(p) && n <= |p.functions|
    ensures FnStart(p, n) <= MaxWords(p.functions[..n])
  {
    hide Ready, Listing, MaxLength;
    if n > 0 {
      StartBound(p, n - 1);
      ListingBound(p, n - 1);
      assert p.functions[..n][..n - 1] == p.functions[..n - 1];
    }
  }

  // The conditions of the correctness theorem in terms of the source program alone.
  lemma LinkedIsCompilable(objects: seq<Object>, p: Program)
    requires IsLinked(objects, p) && AllWellShaped(p.functions) && AllAccepted(p.functions) && InDomain(p)
    requires MaxWords(p.functions) < 0x4_0000
    ensures Compilable(p)
  {
    hide *;
    LinkedCompilesExactly(objects, p);
    StartBound(p, |p.functions|);
    assert p.functions[..|p.functions|] == p.functions;
    SmallProgramsFit(p);
    CompilableIs(p);
  }

  lemma CompilableIs(p: Program)
    requires Linkable(p) && InDomain(p) && CompileProgramSpec(p).Ok? && Ready(p) && AllFit(p)
    requires |CompileProgramSpec(p).value.code| < 0x10_0000
    ensures Compilable(p)
  {
    hide CompileProgramSpec, Ready, AllFit, InDomain, Linkable;
  }

  // ---------------------------------------------------------------- a program

  // main calls pick(7); pick returns its argument if it is above 3, and else 0; leak returns a register that
  // nothing was written to.
  const WITNESS: Program := Program([MAIN, PICK, LEAK], 0)

  const MAIN: Function := Function("main", "m", true, [], I64, [Block("entry", MAIN_CODE)])
  const PICK: Function := Function("pick", "m", false, [Param("x", I64)], I64, [Block("entry", PICK_CODE), Block("big", BIG_CODE)])
  const LEAK: Function := Function("leak", "m", false, [], I64, [Block("entry", LEAK_CODE)])

  const MAIN_CODE: seq<Instruction> := [CALL_PICK, RETURN]
  const PICK_CODE: seq<Instruction> := [COMPARE, BRANCH, RETURN_ZERO]
  const BIG_CODE: seq<Instruction> := [RETURN]
  const LEAK_CODE: seq<Instruction> := [RETURN]

  const CALL_PICK: Instruction := Instruction(CALL, 0, 0, true, 0, [Symbol("pick"), ImmediateInt(7)], 0)
  const RETURN: Instruction := Instruction(RET, I64, I64, false, 0, [Register(0)], 0)
  const COMPARE: Instruction := Instruction(CMP, I64, I64, false, 0, [Register(0), ImmediateInt(3)], 0)
  const BRANCH: Instruction := Instruction(BGT, 0, 0, false, 0, [Symbol("big")], 0)
  const RETURN_ZERO: Instruction := Instruction(RET, I64, I64, false, 0, [ImmediateInt(0)], 0)

  predicate Known(i: Instruction) { i == CALL_PICK || i == RETURN || i == COMPARE || i == BRANCH || i == RETURN_ZERO }

  predicate AllKnown(codes: seq<seq<Instruction>>) {
    forall b, i :: 0 <= b < |codes| && 0 <= i < |codes[b]| ==> Known(codes[b][i])
  }

  lemma KnownAccepted(i: Instruction)
    requires Known(i)
    ensures Emittable(i) && InstrInDomain(i) && CallResolves(i, ["main", "pick", "leak"])
  {
    assert CALL_PICK.operands[1] == ImmediateInt(7);
    assert COMPARE.operands[0] == Register(0) && COMPARE.operands[1] == ImmediateInt(3);
  }

  predicate BlocksOf(fn: Function, codes: seq<seq<Instruction>>) {
    |fn.blocks| == |codes| && forall b :: 0 <= b < |codes| ==> fn.blocks[b].instructions == codes[b]
  }

  lemma FunctionAccepted(fn: Function, codes: seq<seq<Instruction>>)
    requires BlocksOf(fn, codes) && |fn.params| <= 8
    requires AllKnown(codes)
    ensures FunctionShaped(fn) && IsSupported(fn) && AllEncodable(fn) && FunctionInDomain(fn)
    ensures CallsResolve(fn, ["main", "pick", "leak"])
  {
    hide InstrSupported, Encodable, WellShaped, InstrInDomain, CallResolves, Known;
    forall b, i | 0 <= b < |fn.blocks| && 0 <= i < |fn.blocks[b].instructions|
      ensures Emittable(fn.blocks[b].instructions[i]) && InstrInDomain(fn.blocks[b].instructions[i])
      ensures CallResolves(fn.blocks[b].instructions[i], ["main", "pick", "leak"])
    {
      assert Known(codes[b][i]);
      KnownAccepted(fn.blocks[b].instructions[i]);
    }
  }

  lemma WitnessShape()
    ensures |WITNESS.functions| == 3
    ensures WITNESS.functions[0] == MAIN && WITNESS.functions[1] == PICK && WITNESS.functions[2] == LEAK
    ensures FunctionNames(WITNESS.functions) == ["main", "pick", "leak"]
    ensures BlocksOf(MAIN, [MAIN_CODE]) && BlocksOf(PICK, [PICK_CODE, BIG_CODE]) && BlocksOf(LEAK, [LEAK_CODE])
  {
    assert FunctionNames(WITNESS.functions) == ["main", "pick", "leak"];
  }

  // Only pick branches, and it branches to a block of its own.
  lemma JumpsAreResolved()
    ensures JumpsResolve(MAIN) && JumpsResolve(PICK) && JumpsResolve(LEAK)
    ensures Relocation.HasBlock(PICK, "big") && Relocation.TargetBlock(PICK, "big") == 1
  {
    var labels := BlockLabels(PICK.blocks);
    assert labels == ["entry", "big"];
    IndexMapIsLast(labels);
    assert labels[1] == "big" && "big" in labels;
    assert labels[0] != "big" by { assert |labels[0]| != |labels[1]|; }
    hide IndexMap;
    assert !IsJump(CALL) && !IsJump(RET) && !IsJump(CMP);
  }

  lemma WitnessAccepted()
    ensures |WITNESS.functions| == 3 && InDomain(WITNESS) && AllWellShaped(WITNESS.functions) && AllAccepted(WITNESS.functions)
    ensures AllCallsResolve(WITNESS.functions)
  {
    hide *;
    WitnessShape();
    FunctionAccepted(MAIN, [MAIN_CODE]) by { CodesAreKnown(); }
    FunctionAccepted(PICK, [PICK_CODE, BIG_CODE]) by { CodesAreKnown(); }
    FunctionAccepted(LEAK, [LEAK_CODE]) by { CodesAreKnown(); }
    JumpsAreResolved();
    FromThree(WITNESS);
  }

  lemma CodesAreKnown()
    ensures |MAIN.params| <= 8 && |PICK.params| <= 8 && |LEAK.params| <= 8
    ensures AllKnown([MAIN_CODE]) && AllKnown([PICK_CODE, BIG_CODE]) && AllKnown([LEAK_CODE])
  {
  }

  lemma FromThree(p: Program)
    requires |p.functions| == 3 && FunctionNames(p.functions) == ["main", "pick", "leak"]
    requires forall f :: f == p.functions[0] || f == p.functions[1] || f == p.functions[2] ==>
      FunctionShaped(f) && IsSupported(f) && AllEncodable(f) && FunctionInDomain(f) && JumpsResolve(f)
      && CallsResolve(f, ["main", "pick", "leak"])
    ensures InDomain(p) && AllWellShaped(p.functions) && AllAccepted(p.functions) && AllCallsResolve(p.functions)
  {
    hide FunctionShaped, IsSupported, AllEncodable, FunctionInDomain, JumpsResolve, CallsResolve;
  }

  lemma WitnessIsLinked()
    ensures IsLinked([Object("m", WITNESS.functions)], WITNESS)
  {
    WitnessShape();
    WitnessAccepted();
    assert IsMain(WITNESS.functions[0]);
    NamesDiffer(WITNESS.functions);
    hide AllCallsResolve, FunctionNames, BlocksOf, DistinctNames;
    OneObject(Object("m", WITNESS.functions));
  }

  lemma NamesDiffer(fs: seq<Function>)
    requires FunctionNames(fs) == ["main", "pick", "leak"]
    ensures DistinctNames(fs)
  {
    var names := FunctionNames(fs);
    assert |fs| == 3;
    assert names[0][0] == 'm' && names[1][0] == 'p' && names[2][0] == 'l';
    forall i, j | 0 <= i < j < 3 ensures fs[i].name != fs[j].name { assert fs[i].name == names[i] && fs[j].name == names[j]; }
  }

  // The conditions of the correctness theorem can be met together.
  lemma WitnessIsCompilable()
    ensures Compilable(WITNESS)
  {
    hide *;
    WitnessIsLinked();
    WitnessAccepted();
    assert MaxWords(WITNESS.functions) < 0x4_0000 by { WitnessIsSmall(); }
    LinkedIsCompilable([Object("m", WITNESS.functions)], WITNESS);
  }

  lemma WitnessIsSmall()
    ensures MaxWords(WITNESS.functions) < 0x4_0000
  {
    WitnessShape();
    var fs := WITNESS.functions;
    LengthBound(MAIN);
    LengthBound(PICK);
    LengthBound(LEAK);
    hide MaxLength, MAIN, PICK, LEAK, FunctionNames, BlocksOf;
    assert fs[..2][..1] == fs[..1] && fs[..1][..0] == [];
    assert MaxWords(fs[..1]) == MaxWords(fs[..0]) + MaxLength(fs[0]);
    assert MaxWords(fs[..2]) == MaxWords(fs[..1]) + MaxLength(fs[1]);
    assert fs == fs[..2] + [fs[2]];
  }

  lemma LengthBound(fn: Function)
    requires |fn.blocks| <= 2 && forall b :: 0 <= b < |fn.blocks| ==> |fn.blocks[b].instructions| <= 3
    ensures MaxLength(fn) <= 214
  {
    if |fn.blocks| == 1 {
      assert fn.blocks[..0] == [];
    } else if |fn.blocks| == 2 {
      var front := fn.blocks[..1];
      assert front[..0] == [] && InstrCount(front) == InstrCount([]) + |front[0].instructions|;
    }
  }

  // ---------------------------------------------------------------- a run of it

  function Num(n: Int64): I.Value { I.Value(I64, n) }

  lemma PickSteps(fr: I.Frame)
    requires I.ReadOperand(fr, Register(0)) == Some(Num(7))
    ensures I.StepInstr(WITNESS, PICK, COMPARE, fr) == I.Next(fr.(cmpFlag := 1)) && I.InstrClean(COMPARE, fr, false)
    ensures I.StepInstr(WITNESS, PICK, BRANCH, fr.(cmpFlag := 1)) == I.Goto(1) && I.InstrClean(BRANCH, fr.(cmpFlag := 1), true)
    ensures I.StepInstr(WITNESS, PICK, RETURN, fr.(cmpFlag := 1)) == I.Done(Num(7)) && I.InstrClean(RETURN, fr.(cmpFlag := 1), true)
  {
    JumpsAreResolved();
    hide IndexMap;
  }

  lemma PickRuns()
    ensures |WITNESS.functions| == 3 && I.Call(WITNESS, 1, [Num(7)], 4) == I.Returned(Num(7)) && I.CleanCall(WITNESS, 1, [Num(7)], 4)
  {
    WitnessShape();
    var p := WITNESS;
    var fr := I.ArgFrame([Num(7)]);
    var above := fr.(cmpFlag := 1);
    PickSteps(fr);
    hide I.StepInstr, I.InstrClean, FunctionNames;
    assert PICK_CODE[0] == COMPARE && PICK_CODE[1] == BRANCH && BIG_CODE[0] == RETURN;
    assert I.Exec(p, 1, 1, 0, above, 2) == I.Returned(Num(7)) && I.CleanFrom(p, 1, 1, 0, above, true, 2);
    assert I.Exec(p, 1, 0, 1, above, 3) == I.Returned(Num(7)) && I.CleanFrom(p, 1, 0, 1, above, true, 3);
    assert I.Exec(p, 1, 0, 0, fr, 4) == I.Returned(Num(7)) && I.CleanFrom(p, 1, 0, 0, fr, false, 4);
  }

  lemma MainSteps(fr: I.Frame)
    ensures I.StepInstr(WITNESS, MAIN, CALL_PICK, fr) == I.Invoke(1, [Num(7)]) && I.InstrClean(CALL_PICK, fr, false)
    ensures var after := I.AfterCall(fr, CALL_PICK, Num(7));
      I.StepInstr(WITNESS, MAIN, RETURN, after) == I.Done(Num(7)) && I.InstrClean(RETURN, after, false)
  {
    WitnessShape();
    PickIsSecond();
    var ops := CALL_PICK.operands[1..];
    assert ops == [ImmediateInt(7)] && ops[..0] == [];
    assert I.ReadArgs(fr, ops) == Some([] + [Num(7)]);
    hide IndexMap, FunctionNames;
  }

  lemma PickIsSecond()
    ensures "pick" in IndexMap(["main", "pick", "leak"]) && IndexMap(["main", "pick", "leak"])["pick"] == 1
  {
    var names := ["main", "pick", "leak"];
    IndexMapIsLast(names);
    assert names[1] == "pick" && names[0][0] == 'm' && names[2][0] == 'l';
    hide IndexMap;
  }

  lemma MainRuns()
    ensures |WITNESS.functions| == 3 && I.Call(WITNESS, 0, [], 5) == I.Returned(Num(7)) && I.CleanCall(WITNESS, 0, [], 5)
  {
    WitnessShape();
    var p := WITNESS;
    var fr := I.ArgFrame([]);
    var after := I.AfterCall(fr, CALL_PICK, Num(7));
    MainSteps(fr);
    PickRuns();
    hide I.StepInstr, I.InstrClean, I.Call, I.CleanCall, FunctionNames, I.AfterCall;
    assert MAIN_CODE[0] == CALL_PICK && MAIN_CODE[1] == RETURN;
    assert I.Exec(p, 0, 0, 1, after, 4) == I.Returned(Num(7)) && I.CleanFrom(p, 0, 0, 1, after, false, 4);
    assert I.Exec(p, 0, 0, 0, fr, 5) == I.Returned(Num(7)) && I.CleanFrom(p, 0, 0, 0, fr, false, 5);
    CallIs(p, 0, [], 5);
  }

  lemma CallIs(p: Program, f: nat, args: seq<I.Value>, fuel: nat)
    requires f < |p.functions| && |args| == |p.functions[f].params| && |p.functions[f].blocks| > 0 && |args| <= 8
    requires forall a :: 0 <= a < |args| ==> args[a].ty == I64
    ensures I.Call(p, f, args, fuel) == I.Exec(p, f, 0, 0, I.ArgFrame(args), fuel)
    ensures I.CleanCall(p, f, args, fuel) <==> I.CleanFrom(p, f, 0, 0, I.ArgFrame(args), false, fuel)
  {
    hide I.Exec, I.CleanFrom, I.ArgFrame;
  }

  // The machine code of main leaves 7 in x0: through a call, a comparison and a taken branch.
  lemma MainReturnsSeven(s: State)
    requires WellFormed(s) && s.sp % 16 == 0
    requires Linkable(WITNESS) && CompileProgramSpec(WITNESS).Ok? && s.pc == CompileProgramSpec(WITNESS).value.entryOffset
    ensures exists n, t :: Run(CompileProgramSpec(WITNESS).value.code, s, n) == Some(t) && WellFormed(t) && t.pc == s.x[30] && t.x[0] == 7
  {
    WitnessIsCompilable();
    MainRuns();
    assert WITNESS.entryIndex == 0 && Unsigned(7) == 7;
    hide CompileProgramSpec, Compilable, I.Call, I.CleanCall, Run, Linkable, Keeps, SameAbove, WITNESS;
    NativeProgramIsCorrect(WITNESS, [], 5, Num(7), s);
  }

  // ---------------------------------------------------------------- outside the theorem

  lemma LeakRuns()
    ensures |WITNESS.functions| == 3 && I.Call(WITNESS, 2, [], 1) == I.Returned(I.UNWRITTEN)
    ensures I.UNWRITTEN.n == 0 && !I.CleanCall(WITNESS, 2, [], 1)
  {
    WitnessShape();
    var fr := I.ArgFrame([]);
    assert I.StepInstr(WITNESS, LEAK, RETURN, fr) == I.Done(I.UNWRITTEN) && !I.InstrClean(RETURN, fr, false);
    hide I.StepInstr, I.InstrClean, FunctionNames;
    assert LEAK_CODE[0] == RETURN;
    CallIs(WITNESS, 2, [], 1);
  }

  lemma LeakFrame()
    ensures FnFrame(LEAK) == 16
  {
    hide FrameSize, MaxReg;
    LeakSlots();
    FrameSizeBounds(1);
  }

  lemma LeakSlots()
    ensures MaxReg(LEAK) == 1
  {
    var ops := RETURN.operands;
    assert ops[..0] == [] && OperandsMax(0, ops) == 1;
    assert LEAK_CODE[..0] == [] && InstrsMax(0, LEAK_CODE) == 1;
    assert LEAK.blocks[..0] == [] && BlocksMax(0, []) == 0 && BlocksMax(0, LEAK.blocks) == InstrsMax(0, LEAK_CODE);
  }

  // leak returns 0 when interpreted; its machine code returns whatever word the stack holds 32 bytes below sp.
  lemma LeakReturnsStackWord(s: State)
    requires WellFormed(s) && s.sp % 16 == 0
    requires Ready(WITNESS) && CompileProgramSpec(WITNESS).Ok? && |WITNESS.functions| == 3 && s.pc == 4 * FnStart(WITNESS, 2)
    ensures exists n, t ::
      && Run(CompileProgramSpec(WITNESS).value.code, s, n) == Some(t) && WellFormed(t) && t.pc == s.x[30]
      && t.x[0] == Load(s.mem, s.sp - 32)
  {
    hide *;
    var p := WITNESS;
    WitnessShape();
    WitnessIsCompilable();
    Basics(p);
    Shape(s);
    var code := CompileProgramSpec(p).value.code;
    WitnessAccepted();
    CompiledInPlace(p);
    AddressOf(p, 2, 0);
    LeakStarts();
    var m, u := EntrySim(p, code, 2, [], s);
    LeakFrame();
    var e := Entry(s.sp, s.x[29], s.x[30]);
    AtMatches(p, code, 2, 0, 0, I.ArgFrame([]), false, e, u);
    FrameBelow(LEAK, e, I.ArgFrame([]), false, u);
    var n, t := UnwrittenRegisterIsGarbage(p, code, 2, 0, 0, I.ArgFrame([]), false, e, u, RETURN, 0);
    RunThen(code, s, m, u, n);
    assert Run(code, s, m + n) == Some(t);
    assert u.sp == s.sp - 32;
  }

  lemma LeakStarts()
    ensures LEAK.params == [] && |LEAK.blocks| == 1 && LEAK.blocks[0].instructions == [RETURN]
    ensures RETURN.opcode == RET && RETURN.ty == I64 && RETURN.operands == [Register(0)] && 0 !in I.ArgFrame([]).regs
  {
  }

  lemma UnwrittenIsZero()
    ensures Unsigned(I.UNWRITTEN.n) == 0
  {
  }

  lemma LoadsFive(mem: map<int, UInt64>)
    requires mem == map[32 := 5]
    ensures Load(mem, 32) == 5
  {
  }

  // So the two results differ: from a state with a 5 in that word.
  lemma LeakDiffers() returns (s: State)
    ensures WellFormed(s) && s.sp % 16 == 0 && |WITNESS.functions| == 3 && Ready(WITNESS) && CompileProgramSpec(WITNESS).Ok?
    ensures s.pc == 4 * FnStart(WITNESS, 2) && I.Call(WITNESS, 2, [], 1) == I.Returned(I.UNWRITTEN)
    ensures exists n, t ::
      && Run(CompileProgramSpec(WITNESS).value.code, s, n) == Some(t) && WellFormed(t) && t.pc == s.x[30]
      && t.x[0] != Unsigned(I.UNWRITTEN.n)
  {
    hide *;
    WitnessIsCompilable();
    WitnessShape();
    Basics(WITNESS);
    LeakRuns();
    UnwrittenIsZero();
    s := State(seq(31, _ => 0), 64, map[32 := 5], Flags(false, false, false, false), 4 * FnStart(WITNESS, 2));
    Shape(s);
    LeakReturnsStackWord(s);
    LoadsFive(s.mem);
  }
}
