// The main results about the native backend: compiled and linked code computes what the interpreter
// computes, on clean runs of programs whose registers, parameters and displacements fit.

module CompilerCorrectness {
  import opened Ast
  import opened Arm64Machine
  import opened Arm64Encoder
  import opened Codegen
  import opened Relocation
  import opened NativeLayout
  import opened NativeEffects
  import opened Simulation
  import Arm64Words
  import I = Interpreter

  // Every displacement of the program fits its field.
  ghost predicate AllFit(p: Program)
    requires Ready(p)
  {
    forall f, k :: 0 <= f < |p.functions| && 0 <= k < |Listing(p, f)| ==>
      TargetsExist(p, f, Listing(p, f)[k]) && FitsField(p, f, k)
  }

  // What a caller can check before compiling and after: registers below 510, at most 8 parameters,
  // destinations where the backend stores, displacements that fit.
  ghost predicate Compilable(p: Program) {
    && Linkable(p) && InDomain(p) && CompileProgramSpec(p).Ok? && Ready(p) && AllFit(p)
    && |CompileProgramSpec(p).value.code| < TWO64
  }

  lemma CompiledInPlace(p: Program)
    requires Compilable(p)
    ensures InPlace(p, CompileProgramSpec(p).value.code)
  {
    hide Ready, Listing, FnStart, Fetch, Meaning, FitsField, TargetsExist, CompileProgramSpec, InDomain, Linkable;
    var code := CompileProgramSpec(p).value.code;
    forall f, k | 0 <= f < |p.functions| && 0 <= k < |Listing(p, f)| ensures PlacedAt(p, code, f, k) {
      RelocationTheorem(p, f, k);
      assert FitsField(p, f, k);
    }
  }

  // Compiler correctness. Let the interpreter run function f with some arguments, cleanly, and return v.
  // Then the linked code, started at f with the arguments in x0, x1, ... and any stack, registers and
  // return address, returns: control is at the return address, v is in x0 (when there is a value), sp and
  // x29 are as at the start, and no word at or above sp has changed; and at no step in between, however deep
  // the calls, is sp above where it was at the start or such a word different.
  lemma NativeCodeIsCorrect(p: Program, f: nat, args: seq<I.Value>, fuel: nat, v: I.Value, s: State)
    requires Compilable(p) && f < |p.functions|
    requires I.Call(p, f, args, fuel) == I.Returned(v) && I.CleanCall(p, f, args, fuel)
    requires WellFormed(s) && s.sp % 16 == 0 && s.pc == 4 * FnStart(p, f)
    requires forall j :: 0 <= j < |args| && j < 8 ==> s.x[j] == Unsigned(args[j].n)
    ensures exists n, t ::
      && Run(CompileProgramSpec(p).value.code, s, n) == Some(t)
      && WellFormed(t) && t.pc == s.x[30] && t.sp == s.sp && t.x[29] == s.x[29]
      && (v.ty == I64 ==> t.x[0] == Unsigned(v.n))
      && SameAbove(s.sp, s.mem, t.mem) && Keeps(CompileProgramSpec(p).value.code, s.sp, s, n)
  {
    hide Keeps, SameAbove, Ready, FnStart, CompileProgramSpec, I.Call, I.CleanCall, Run, Load, Unsigned, AllFit, Listing, PlacedAt, FunctionInDomain;
    var code := CompileProgramSpec(p).value.code;
    CompiledInPlace(p);
    CallMeans(p, f, args, fuel, v);
    DomainAt(p, code, f);
    AddressOf(p, f, 0);
    var n, t := CallRunSim(p, code, f, args, fuel, s, v);
    assert Run(code, s, n) == Some(t);
  }

  // The program as a whole: started at the entry offset, it computes what running the program computes.
  lemma NativeProgramIsCorrect(p: Program, args: seq<I.Value>, fuel: nat, v: I.Value, s: State)
    requires Compilable(p)
    requires p.entryIndex < |p.functions| && I.Call(p, p.entryIndex, args, fuel) == I.Returned(v)
    requires I.CleanCall(p, p.entryIndex, args, fuel)
    requires WellFormed(s) && s.sp % 16 == 0 && s.pc == CompileProgramSpec(p).value.entryOffset
    requires forall j :: 0 <= j < |args| && j < 8 ==> s.x[j] == Unsigned(args[j].n)
    ensures exists n, t ::
      && Run(CompileProgramSpec(p).value.code, s, n) == Some(t)
      && WellFormed(t) && t.pc == s.x[30] && t.sp == s.sp && t.x[29] == s.x[29] && (v.ty == I64 ==> t.x[0] == Unsigned(v.n))
      && SameAbove(s.sp, s.mem, t.mem) && Keeps(CompileProgramSpec(p).value.code, s.sp, s, n)
  {
    EntryOffsetIs(p);
    hide *;
    Basics(p);
    NativeCodeIsCorrect(p, p.entryIndex, args, fuel, v, s);
  }

  lemma Basics(p: Program)
    requires Compilable(p)
    ensures Linkable(p) && Ready(p) && CompileProgramSpec(p).Ok?
  {
    hide Ready, AllFit, InDomain, CompileProgramSpec, Linkable;
  }

  lemma EntryOffsetIs(p: Program)
    requires Compilable(p)
    ensures Ready(p) && CompileProgramSpec(p).Ok? && p.entryIndex < |p.functions|
    ensures CompileProgramSpec(p).value.entryOffset == 4 * FnStart(p, p.entryIndex)
  {
    Basics(p);
    LinkableDistinct(p);
    CompiledMeansReady(p);
    FirstFailureNone(p.functions) by { LinkableShaped(p); }
    StartsFacts(p, |p.functions|);
    hide FirstMissingFrom, Starts, LinkedUpto, Arm64Words.Bytes, FnStart, Ready, CompileSpec, FirstFailure;
  }

  // ---------------------------------------------------------------- displacements of small programs

  lemma {:induction false} StartsIncrease(p: Program, f: nat, g: nat)
    requires Ready(p) && f <= g <= |p.functions|
    ensures FnStart(p, f) <= FnStart(p, g)
    decreases g
  {
    hide Ready, Listing;
    if f < g { StartsIncrease(p, f, g - 1); }
  }

  lemma StartStep(p: Program, f: nat)
    requires Ready(p) && f < |p.functions|
    ensures FnStart(p, f + 1) == FnStart(p, f) + |Listing(p, f)|
  {
    hide Ready, Listing;
  }

  lemma BlockInListing(p: Program, f: nat, b: nat)
    requires Ready(p) && f < |p.functions| && b < |p.functions[f].blocks|
    ensures FnEmittable(p.functions[f]) && BlockStart(p.functions[f], b) <= |Listing(p, f)|
  {
    ListingEmittable(p, f);
    var fn := p.functions[f];
    hide Ready, Listing, BlocksAsm, ParamsAsm, PrologueAsm, FnFrame, BlocksEmittable;
    assert BlocksEmittable(fn.blocks) by { EmittableBlocks(fn); }
    BlocksPrefix(fn.blocks, FnFrame(fn), b);
    assert fn.blocks[..|fn.blocks|] == fn.blocks;
  }

  lemma PositionBounds(p: Program, f: nat, k: nat)
    requires Ready(p) && f < |p.functions| && k < |Listing(p, f)|
    ensures FnStart(p, f) + k < FnStart(p, |p.functions|)
  {
    hide Ready, Listing, FnStart;
    StartStep(p, f);
    StartsIncrease(p, f + 1, |p.functions|);
  }

  lemma DisplacementBounds(p: Program, f: nat, k: nat)
    requires Ready(p) && f < |p.functions| && k < |Listing(p, f)| && TargetsExist(p, f, Listing(p, f)[k])
    requires FnStart(p, |p.functions|) < 0x4_0000
    ensures FitsField(p, f, k)
  {
    hide Ready, Listing, FnStart, BlockStart, FnEmittable, TargetBlock, TargetFunction, HasBlock, HasFunction;
    PositionBounds(p, f, k);
    var a := Listing(p, f)[k];
    match a {
      case Branch(t) => BlockInListing(p, f, TargetBlock(p.functions[f], t));
      case CondBranch(_, t) => BlockInListing(p, f, TargetBlock(p.functions[f], t));
      case CallTo(c) => StartsIncrease(p, TargetFunction(p, c), |p.functions|);
      case Raw(_) =>
    }
    StartStep(p, f);
    StartsIncrease(p, f + 1, |p.functions|);
  }

  // In code below one mebibyte every displacement fits.
  lemma SmallProgramsFit(p: Program)
    requires Linkable(p) && CompileProgramSpec(p).Ok? && |CompileProgramSpec(p).value.code| < 0x10_0000
    ensures Ready(p) && AllFit(p)
  {
    CompiledMeansReady(p);
    hide Ready, Listing, FnStart, CompileProgramSpec, TargetsExist, FitsField, LinkedUpto;
    forall f, k | 0 <= f < |p.functions| && 0 <= k < |Listing(p, f)|
      ensures TargetsExist(p, f, Listing(p, f)[k]) && FitsField(p, f, k)
    {
      RelocationTheorem(p, f, k);
      DisplacementBounds(p, f, k);
    }
  }

  // ---------------------------------------------------------------- outside the domain

  // A register that was never written is not zero for the machine: returning it returns whatever word the
  // stack happens to hold in its slot, where the interpreter returns zero.
  lemma UnwrittenRegisterIsGarbage(p: Program, code: seq<Byte>, f: nat, b: nat, i: nat, fr: I.Frame, flagLive: bool, e: Entry,
                                   s: State, instr: Instruction, r: UInt32) returns (n: nat, t: State)
    requires At(p, code, f, b, i, fr, flagLive, e, s) && i < |p.functions[f].blocks[b].instructions|
    requires instr == p.functions[f].blocks[b].instructions[i]
    requires instr.opcode == RET && instr.ty == I64 && instr.operands == [Register(r)] && r !in fr.regs
    ensures I.StepInstr(p, p.functions[f], instr, fr) == I.Done(I.Value(I32, 0))
    ensures WellFormed(s) && Run(code, s, n) == Some(t) && WellFormed(t) && t.pc == e.ra
    ensures t.x[0] == Load(s.mem, s.sp + 8 * r)
  {
    hide *;
    AtMatches(p, code, f, b, i, fr, flagLive, e, s);
    AtStarts(p, code, f, b, i, fr, flagLive, e, s, instr);
    UnwrittenStep(p, p.functions[f], instr, fr, r);
    n := |InstrAsm(instr, FnFrame(p.functions[f]))|;
    t := ReturnWord(code, p.functions[f], e, fr, flagLive, s, instr, r);
  }

  lemma UnwrittenStep(p: Program, fn: Function, instr: Instruction, fr: I.Frame, r: UInt32)
    requires instr.opcode == RET && instr.ty == I64 && instr.operands == [Register(r)] && r !in fr.regs
    ensures I.StepInstr(p, fn, instr, fr) == I.Done(I.Value(I32, 0))
  {
  }

  lemma ReturnWord(code: seq<Byte>, fn: Function, e: Entry, fr: I.Frame, flagLive: bool, s: State, instr: Instruction, r: UInt32)
    returns (t: State)
    requires Starts1(code, fn, e, fr, flagLive, s, instr) && instr.opcode == RET && instr.operands == [Register(r)]
    ensures WellFormed(s) && Run(code, s, |InstrAsm(instr, FnFrame(fn))|) == Some(t) && WellFormed(t) && t.pc == e.ra
    ensures t.x[0] == Load(s.mem, s.sp + 8 * r)
  {
    hide Fetch, Run, Decode, Matches, FunctionInDomain, MaxReg, FnFrame, OperandAsm, LeaveAsm, RawAt, Loaded;
    hide InstrSupported, Unsigned, FrameHolds, Load;
    MatchesShape(fn, e, fr, flagLive, s);
    var op := instr.operands[0];
    var load, leave := OperandAsm(0, op), LeaveAsm(FnFrame(fn));
    assert OperandBelow(op, MaxReg(fn));
    RawAtSplit(code, s.pc, load, leave);
    LoadOperand(code, s, 0, op);
    var v := OperandValue(s, op);
    var m := Loaded(s, 0, v, |load|);
    LoadedMatches(fn, e, fr, flagLive, s, 0, v, |load|);
    LoadedShape(s, 0, v, |load|);
    Leave(code, m, FnFrame(fn));
    t := Left(m, FnFrame(fn));
    MatchesFrame(fn, e, fr, flagLive, m);
    LeftGoes(fn, e, m);
    RunThen(code, s, |load|, m, |leave|);
  }

  lemma LeftGoes(fn: Function, e: Entry, s: State)
    requires FrameHolds(fn, e, s)
    ensures var t := Left(s, FnFrame(fn)); WellFormed(t) && t.pc == e.ra && t.x[0] == s.x[0]
  {
    hide FnFrame, Load;
  }
}
