// The native code simulates the interpreter: the correctness theorem of the backend.

module Simulation {
  import opened Ast
  import opened Arm64Machine
  import opened Arm64Words
  import opened Arm64Encoder
  import opened Codegen
  import opened Relocation
  import opened NativeLayout
  import opened CompileExact
  import opened NativeEffects
  import opened NativeArith
  import I = Interpreter

  // ---------------------------------------------------------------- code in place

  // Every word of the program lies in the code at its place and decodes to what it means.
  ghost predicate InPlace(p: Program, code: seq<Byte>) {
    && Ready(p)
    && |code| < TWO64
    && forall f, k :: 0 <= f < |p.functions| && 0 <= k < |Listing(p, f)| ==> PlacedAt(p, code, f, k)
  }

  ghost predicate PlacedAt(p: Program, code: seq<Byte>, f: nat, k: nat)
    requires Ready(p) && f < |p.functions| && k < |Listing(p, f)|
  {
    TargetsExist(p, f, Listing(p, f)[k]) && Fetch(code, 4 * (FnStart(p, f) + k)) == Meaning(p, f, k)
  }

  ghost predicate InDomain(p: Program) {
    forall f :: 0 <= f < |p.functions| ==> FunctionInDomain(p.functions[f])
  }

  // Byte address of word k of function f.
  ghost function Address(p: Program, f: nat, k: nat): int
    requires Ready(p) && f < |p.functions|
  {
    4 * (FnStart(p, f) + k)
  }

  lemma PartInPlace(p: Program, code: seq<Byte>, f: nat, at: nat, part: seq<Asm>)
    requires InPlace(p, code) && f < |p.functions| && SliceAt(Listing(p, f), at, part)
    ensures RawAt(code, Address(p, f, at), part)
  {
    hide Ready, Listing, FnStart, Fetch, Decode, Displacement;
    forall j | 0 <= j < |part| && part[j].Raw?
      ensures Fetch(code, Address(p, f, at) + 4 * j) == Decode(part[j].word % 0x1_0000_0000)
    {
      assert PlacedAt(p, code, f, at + j);
      assert Address(p, f, at) + 4 * j == 4 * (FnStart(p, f) + (at + j));
    }
  }

  // ---------------------------------------------------------------- an activation and its frame

  // What an activation must leave as it found it.
  datatype Entry = Entry(sp: int, x29: UInt64, ra: UInt64)

  ghost predicate SlotsMatch(regs: map<UInt32, I.Value>, m: nat, sp: int, mem: map<int, UInt64>) {
    forall r :: r in regs ==> r < m && (regs[r].ty == I64 ==> Load(mem, sp + 8 * r) == Unsigned(regs[r].n))
  }

  ghost predicate FrameHolds(fn: Function, e: Entry, s: State) {
    && WellFormed(s) && e.sp % 16 == 0 && s.sp == e.sp - 16 - FnFrame(fn)
    && Load(s.mem, e.sp - 16) == e.x29 && Load(s.mem, e.sp - 8) == e.ra
  }

  ghost predicate Matches(fn: Function, e: Entry, fr: I.Frame, flagLive: bool, s: State) {
    && FrameHolds(fn, e, s)
    && SlotsMatch(fr.regs, MaxReg(fn), s.sp, s.mem)
    && (flagLive ==> FlagsMatch(s.flags, fr.cmpFlag))
  }

  // The activation has returned v to its caller.
  ghost predicate Returned(e: Entry, v: I.Value, mem: map<int, UInt64>, t: State) {
    && WellFormed(t) && t.pc == e.ra && t.sp == e.sp && t.x[29] == e.x29
    && (v.ty == I64 ==> t.x[0] == Unsigned(v.n))
    && SameAbove(e.sp, mem, t.mem)
  }

  // The frame is large enough for every slot, and lies below what the caller owns.
  lemma FrameRoom(fn: Function, e: Entry, s: State)
    requires FunctionInDomain(fn) && FrameHolds(fn, e, s)
    ensures s.sp % 16 == 0 && s.sp + 8 * MaxReg(fn) <= e.sp - 16 && MaxReg(fn) <= MAX_SLOTS && FnFrame(fn) % 16 == 0
    ensures FnFrame(fn) < 4096
  {
    hide FnFrame, MaxReg, FunctionInDomain;
    FrameBounds(fn);
    MaxRegBounds(fn);
  }

  // sp is below what the caller owns.
  lemma FrameBelow(fn: Function, e: Entry, fr: I.Frame, flagLive: bool, s: State)
    requires Matches(fn, e, fr, flagLive, s)
    ensures WellFormed(s) && s.sp + 16 + FnFrame(fn) == e.sp
  {
    hide FnFrame, MaxReg, FlagsMatch, Load, SlotsMatch;
  }

  // Storing a register's slot keeps the frame and updates the register.
  lemma StoreKeeps(fn: Function, e: Entry, fr: I.Frame, flagLive: bool, s: State, r: UInt32, v: I.Value, t: State)
    requires FunctionInDomain(fn) && Matches(fn, e, fr, flagLive, s) && r < MaxReg(fn)
    requires WellFormed(t) && t.sp == s.sp && t.flags == s.flags
    requires (v.ty == I64 ==> Load(t.mem, s.sp + 8 * r) == Unsigned(v.n)) && forall a :: a != s.sp + 8 * r ==> Load(t.mem, a) == Load(s.mem, a)
    ensures Matches(fn, e, I.SetReg(fr, r, v), flagLive, t) && SameAbove(e.sp, s.mem, t.mem)
  {
    hide FnFrame, MaxReg, FunctionInDomain, Unsigned, FlagsMatch, Load;
    FrameRoom(fn, e, s);
  }

  // The machine reads a clean operand as the interpreter does.
  lemma OperandAgrees(fn: Function, e: Entry, fr: I.Frame, flagLive: bool, s: State, op: Operand)
    requires Matches(fn, e, fr, flagLive, s) && I.ReadOperand(fr, op).Some? && I.OperandClean(fr, op)
    ensures OperandOk(op) && OperandValue(s, op) == Unsigned(I.ReadOperand(fr, op).value.n)
    ensures I.ReadOperand(fr, op).value.ty == I64
    ensures op.Register? ==> op.reg < MaxReg(fn)
  {
    hide MaxReg, Unsigned, FlagsMatch, FrameHolds, Load;
  }

  // ---------------------------------------------------------------- a point of a run

  // Instruction i of block b of function f is about to run, in matching states.
  ghost predicate At(p: Program, code: seq<Byte>, f: nat, b: nat, i: nat, fr: I.Frame, flagLive: bool, e: Entry, s: State) {
    && InPlace(p, code) && InDomain(p) && I.InProgram(p, f, b, i)
    && FnEmittable(p.functions[f])
    && Matches(p.functions[f], e, fr, flagLive, s)
    && s.pc == Address(p, f, InstrStart(p.functions[f], b, i))
  }

  // What is known of the instruction at a point: it is emitted here, and in the domain.
  lemma AtInstruction(p: Program, code: seq<Byte>, f: nat, b: nat, i: nat, fr: I.Frame, flagLive: bool, e: Entry, s: State)
    requires At(p, code, f, b, i, fr, flagLive, e, s) && i < |p.functions[f].blocks[b].instructions|
    ensures var instr := p.functions[f].blocks[b].instructions[i];
      && Emittable(instr) && InstrInDomain(instr) && FunctionInDomain(p.functions[f])
      && InstrBelow(instr, MaxReg(p.functions[f]))
      && SliceAt(Listing(p, f), InstrStart(p.functions[f], b, i), InstrAsm(instr, FnFrame(p.functions[f])))
      && RawAt(code, s.pc, InstrAsm(instr, FnFrame(p.functions[f])))
      && InstrStart(p.functions[f], b, i + 1)
         == InstrStart(p.functions[f], b, i) + |InstrAsm(instr, FnFrame(p.functions[f]))|
      && s.sp % 16 == 0 && FnFrame(p.functions[f]) % 16 == 0 && FnFrame(p.functions[f]) < 4096
      && MaxReg(p.functions[f]) <= MAX_SLOTS
  {
    AtPieces(p, code, f, b, i, fr, flagLive, e, s);
    hide *;
    var fn := p.functions[f];
    InstructionSlice(fn, b, i);
    ListingEmittable(p, f);
    PartInPlace(p, code, f, InstrStart(fn, b, i), InstrAsm(fn.blocks[b].instructions[i], FnFrame(fn)));
    MaxRegBounds(fn);
    BelowAt(fn.blocks, MaxReg(fn), b, i);
    FrameRoom(fn, e, s);
  }

  lemma BelowAt(bs: seq<Block>, m: nat, b: nat, i: nat)
    requires BlocksBelow(bs, m) && b < |bs| && i < |bs[b].instructions|
    ensures InstrBelow(bs[b].instructions[i], m)
  {
    hide InstrBelow;
    assert InstrsBelow(bs[b].instructions, m);
  }

  lemma AtPieces(p: Program, code: seq<Byte>, f: nat, b: nat, i: nat, fr: I.Frame, flagLive: bool, e: Entry, s: State)
    requires At(p, code, f, b, i, fr, flagLive, e, s) && i < |p.functions[f].blocks[b].instructions|
    ensures Ready(p) && FunctionInDomain(p.functions[f]) && InstrInDomain(p.functions[f].blocks[b].instructions[i])
    ensures FrameHolds(p.functions[f], e, s) && s.pc == Address(p, f, InstrStart(p.functions[f], b, i))
    ensures InPlace(p, code) && FnEmittable(p.functions[f])
  {
    hide Ready, PlacedAt, FrameHolds, SlotsMatch, FlagsMatch, FnEmittable, InstrStart, InstrInDomain, Listing, FnStart;
  }

  // Moving on to another point of the same activation.
  lemma MoveTo(p: Program, code: seq<Byte>, f: nat, b: nat, i: nat, fr: I.Frame, flagLive: bool, e: Entry, s: State,
               b': nat, i': nat, fr': I.Frame, flagLive': bool, t: State)
    requires At(p, code, f, b, i, fr, flagLive, e, s)
    requires I.InProgram(p, f, b', i') && Matches(p.functions[f], e, fr', flagLive', t)
    requires t.pc == Address(p, f, InstrStart(p.functions[f], b', i'))
    ensures At(p, code, f, b', i', fr', flagLive', e, t)
  {
    hide InPlace, InDomain, FnEmittable, Matches, InstrStart, Address;
  }

  // ---------------------------------------------------------------- straight-line instructions

  // n steps lead from s to t, past n words, into an activation state matching fr, and stay below the caller.
  ghost predicate StepsTo(code: seq<Byte>, fn: Function, e: Entry, fr: I.Frame, flagLive: bool, s: State, n: nat, t: State)
    requires WellFormed(s)
  {
    && Run(code, s, n) == Some(t) && t.pc == s.pc + 4 * n && Matches(fn, e, fr, flagLive, t) && SameAbove(e.sp, s.mem, t.mem)
    && Keeps(code, e.sp, s, n)
  }

  // What the simulation of one instruction starts from.
  ghost predicate Starts1(code: seq<Byte>, fn: Function, e: Entry, fr: I.Frame, flagLive: bool, s: State, instr: Instruction) {
    && FunctionInDomain(fn) && Matches(fn, e, fr, flagLive, s)
    && Emittable(instr) && InstrInDomain(instr) && InstrBelow(instr, MaxReg(fn)) && MaxReg(fn) <= MAX_SLOTS
    && s.sp % 16 == 0 && FnFrame(fn) % 16 == 0 && FnFrame(fn) < 4096
    && RawAt(code, s.pc, InstrAsm(instr, FnFrame(fn)))
  }

  lemma LoadedMatches(fn: Function, e: Entry, fr: I.Frame, flagLive: bool, s: State, rd: nat, v: UInt64, n: nat)
    requires Matches(fn, e, fr, flagLive, s) && rd < 31
    ensures Matches(fn, e, fr, flagLive, Loaded(s, rd, v, n))
  {
    hide FnFrame, MaxReg, FlagsMatch, Load, SlotsMatch;
  }

  lemma StoreDestSim(code: seq<Byte>, fn: Function, e: Entry, fr: I.Frame, flagLive: bool, s: State, rt: nat, dest: UInt32, v: I.Value)
    returns (t: State)
    requires FunctionInDomain(fn) && Matches(fn, e, fr, flagLive, s) && s.sp % 16 == 0 && rt < 31
    requires dest < MaxReg(fn) <= MAX_SLOTS && (v.ty == I64 ==> s.x[rt] == Unsigned(v.n))
    requires Fetch(code, s.pc) == Decode(StrSlotWord(rt, dest) % 0x1_0000_0000)
    ensures StepsTo(code, fn, e, I.SetReg(fr, dest, v), flagLive, s, 1, t)
  {
    hide Fetch, Run, Keeps, Decode, StrSlotWord, Matches, FunctionInDomain, MaxReg, Unsigned, SameAbove, I.SetReg, Load, FrameHolds, FnFrame;
    MatchesShape(fn, e, fr, flagLive, s);
    StoreSlot(code, s, rt, dest);
    LoadStored(s.mem, s.sp + 8 * dest, s.x[rt]);
    t := Next(s.(mem := s.mem[s.sp + 8 * dest := s.x[rt]]));
    StoreKeeps(fn, e, fr, flagLive, s, dest, v, t);
    MatchesFrame(fn, e, fr, flagLive, s);
    FrameRoom(fn, e, s);
    KeepsHigher(code, s.sp + 8 * dest + 8, e.sp, s, 1);
  }

  lemma LoadStored(mem: map<int, UInt64>, a: int, v: UInt64)
    ensures Load(mem[a := v], a) == v && forall b :: b != a ==> Load(mem[a := v], b) == Load(mem, b)
  {
  }

  lemma MatchesShape(fn: Function, e: Entry, fr: I.Frame, flagLive: bool, s: State)
    requires Matches(fn, e, fr, flagLive, s)
    ensures WellFormed(s)
  {
  }

  lemma MovSim(code: seq<Byte>, fn: Function, e: Entry, fr: I.Frame, flagLive: bool, s: State, instr: Instruction) returns (t: State)
    requires Starts1(code, fn, e, fr, flagLive, s, instr) && instr.opcode == MOV
    requires I.ReadOperand(fr, instr.operands[0]).Some? && I.OperandClean(fr, instr.operands[0])
    ensures WellFormed(s)
    ensures StepsTo(code, fn, e, I.SetReg(fr, instr.dest, I.ReadOperand(fr, instr.operands[0]).value), flagLive, s,
                    |InstrAsm(instr, FnFrame(fn))|, t)
  {
    hide Fetch, Run, Keeps, Decode, StrSlotWord, Matches, FunctionInDomain, MaxReg, FnFrame, OperandAsm, RawAt, Loaded;
    hide InstrSupported, I.SetReg, I.ReadOperand, I.OperandClean, SameAbove, OperandValue, Unsigned;
    MatchesShape(fn, e, fr, flagLive, s);
    var op := instr.operands[0];
    var load, store := OperandAsm(9, op), [Raw(StrSlotWord(9, instr.dest))];
    OperandAgrees(fn, e, fr, flagLive, s, op);
    RawAtSplit(code, s.pc, load, store);
    LoadOperand(code, s, 9, op);
    var m := Loaded(s, 9, OperandValue(s, op), |load|);
    LoadedMatches(fn, e, fr, flagLive, s, 9, OperandValue(s, op), |load|);
    LoadedShape(s, 9, OperandValue(s, op), |load|);
    FirstRaw(code, m.pc, store);
    t := StoreDestSim(code, fn, e, fr, flagLive, m, 9, instr.dest, I.ReadOperand(fr, op).value);
    FrameBelow(fn, e, fr, flagLive, s);
    KeepsHigher(code, s.sp, e.sp, s, |load|);
    Then(code, e.sp, s, |load|, m, 1);
  }

  lemma LoadedShape(s: State, rd: nat, v: UInt64, n: nat)
    requires WellFormed(s) && rd < 31
    ensures var t := Loaded(s, rd, v, n);
      WellFormed(t) && t.x[rd] == v && t.pc == s.pc + 4 * n && t.sp == s.sp && t.mem == s.mem && t.flags == s.flags
      && forall r :: 0 <= r < 31 && r != rd ==> t.x[r] == s.x[r]
  {
  }

  // Both operands of a binary instruction in x9 and x10.
  lemma LoadTwo(code: seq<Byte>, fn: Function, e: Entry, fr: I.Frame, flagLive: bool, s: State, ops: seq<Operand>) returns (t: State)
    requires Matches(fn, e, fr, flagLive, s) && |ops| >= 2 && s.sp % 16 == 0 && MaxReg(fn) <= MAX_SLOTS
    requires I.ReadOperand(fr, ops[0]).Some? && I.OperandClean(fr, ops[0])
    requires I.ReadOperand(fr, ops[1]).Some? && I.OperandClean(fr, ops[1])
    requires OperandOk(ops[0]) && OperandOk(ops[1]) && RawAt(code, s.pc, TwoOperandsAsm(ops))
    ensures WellFormed(s) && StepsTo(code, fn, e, fr, flagLive, s, |TwoOperandsAsm(ops)|, t) && t.sp == s.sp
    ensures WellFormed(t) && t.mem == s.mem
    ensures t.x[9] == Unsigned(I.ReadOperand(fr, ops[0]).value.n) && t.x[10] == Unsigned(I.ReadOperand(fr, ops[1]).value.n)
  {
    hide Fetch, Run, Keeps, Decode, Matches, MaxReg, OperandAsm, RawAt, Loaded, I.ReadOperand, I.OperandClean, OperandValue, Unsigned;
    MatchesShape(fn, e, fr, flagLive, s);
    var first, second := OperandAsm(9, ops[0]), OperandAsm(10, ops[1]);
    RawAtSplit(code, s.pc, first, second);
    OperandAgrees(fn, e, fr, flagLive, s, ops[0]);
    LoadOperand(code, s, 9, ops[0]);
    var v := OperandValue(s, ops[0]);
    var m := Loaded(s, 9, v, |first|);
    LoadedMatches(fn, e, fr, flagLive, s, 9, v, |first|);
    LoadedShape(s, 9, v, |first|);
    OperandAgrees(fn, e, fr, flagLive, m, ops[1]);
    LoadOperand(code, m, 10, ops[1]);
    var w := OperandValue(m, ops[1]);
    t := Loaded(m, 10, w, |second|);
    LoadedMatches(fn, e, fr, flagLive, m, 10, w, |second|);
    LoadedShape(m, 10, w, |second|);
    Then(code, s.sp, s, |first|, m, |second|);
    FrameBelow(fn, e, fr, flagLive, s);
    KeepsHigher(code, s.sp, e.sp, s, |TwoOperandsAsm(ops)|);
  }

  lemma ArithSim(code: seq<Byte>, fn: Function, e: Entry, fr: I.Frame, flagLive: bool, s: State, instr: Instruction, r: I.Value)
    returns (t: State)
    requires Starts1(code, fn, e, fr, flagLive, s, instr) && IsArith(instr.opcode)
    requires I.ReadOperand(fr, instr.operands[0]).Some? && I.OperandClean(fr, instr.operands[0])
    requires I.ReadOperand(fr, instr.operands[1]).Some? && I.OperandClean(fr, instr.operands[1])
    requires I.Arith(instr.opcode, I.ReadOperand(fr, instr.operands[0]).value.n, I.ReadOperand(fr, instr.operands[1]).value.n) == Some(r)
    ensures WellFormed(s)
    ensures StepsTo(code, fn, e, I.SetReg(fr, instr.dest, r), flagLive, s, |InstrAsm(instr, FnFrame(fn))|, t)
  {
    hide Fetch, Run, Keeps, Decode, StrSlotWord, ArithWord, Matches, FunctionInDomain, MaxReg, FnFrame, TwoOperandsAsm, RawAt, Loaded;
    hide InstrSupported, I.SetReg, I.ReadOperand, I.OperandClean, SameAbove, Unsigned, I.Arith, MachineArith;
    var ops := instr.operands;
    var load := TwoOperandsAsm(ops);
    var tail := [Raw(ArithWord(instr.opcode)), Raw(StrSlotWord(11, instr.dest))];
    RawAtSplit(code, s.pc, load, tail);
    var m := LoadTwo(code, fn, e, fr, flagLive, s, ops);
    FirstRaw(code, m.pc, tail);
    RawAtSplit(code, m.pc, [tail[0]], [tail[1]]) by { assert tail == [tail[0]] + [tail[1]]; }
    ArithStep(code, m, instr.opcode);
    ArithAgrees(instr.opcode, I.ReadOperand(fr, ops[0]).value.n, I.ReadOperand(fr, ops[1]).value.n);
    var w := MachineArith(instr.opcode, m.x[9], m.x[10]);
    var u := Loaded(m, 11, w, 1);
    LoadedMatches(fn, e, fr, flagLive, m, 11, w, 1);
    LoadedShape(m, 11, w, 1);
    FirstRaw(code, u.pc, [tail[1]]);
    t := StoreDestSim(code, fn, e, fr, flagLive, u, 11, instr.dest, r);
    FrameBelow(fn, e, fr, flagLive, m);
    KeepsHigher(code, m.sp, e.sp, m, 1);
    Then(code, e.sp, s, |load|, m, 1);
    Then(code, e.sp, s, |load| + 1, u, 1);
    SameAboveTrans(e.sp, s.mem, m.mem, t.mem);
  }

  lemma CmpSim(code: seq<Byte>, fn: Function, e: Entry, fr: I.Frame, flagLive: bool, s: State, instr: Instruction) returns (t: State)
    requires Starts1(code, fn, e, fr, flagLive, s, instr) && instr.opcode == CMP
    requires I.ReadOperand(fr, instr.operands[0]).Some? && I.OperandClean(fr, instr.operands[0])
    requires I.ReadOperand(fr, instr.operands[1]).Some? && I.OperandClean(fr, instr.operands[1])
    ensures WellFormed(s)
    ensures StepsTo(code, fn, e, fr.(cmpFlag := I.Compare(I.ReadOperand(fr, instr.operands[0]).value.n,
                                                          I.ReadOperand(fr, instr.operands[1]).value.n)), true, s,
                    |InstrAsm(instr, FnFrame(fn))|, t)
  {
    hide Fetch, Run, Keeps, Decode, CmpWord, Matches, FunctionInDomain, MaxReg, FnFrame, TwoOperandsAsm, RawAt, Loaded;
    hide InstrSupported, I.ReadOperand, I.OperandClean, Unsigned, I.Compare, SubFlags;
    var ops := instr.operands;
    var load, tail := TwoOperandsAsm(ops), [Raw(CmpWord(9, 10))];
    RawAtSplit(code, s.pc, load, tail);
    var m := LoadTwo(code, fn, e, fr, flagLive, s, ops);
    FirstRaw(code, m.pc, tail);
    CmpStep(code, m);
    t := Next(m.(flags := SubFlags(m.x[9], m.x[10])));
    var x, y := I.ReadOperand(fr, ops[0]).value.n, I.ReadOperand(fr, ops[1]).value.n;
    CompareAgrees(x, y);
    FlagsChanged(fn, e, fr, flagLive, m, t, I.Compare(x, y));
    FrameBelow(fn, e, fr, flagLive, m);
    KeepsHigher(code, m.sp, e.sp, m, 1);
    Then(code, e.sp, s, |load|, m, 1);
  }

  lemma FlagsChanged(fn: Function, e: Entry, fr: I.Frame, flagLive: bool, s: State, t: State, flag: int)
    requires Matches(fn, e, fr, flagLive, s) && WellFormed(t) && t.sp == s.sp && t.mem == s.mem && FlagsMatch(t.flags, flag)
    ensures Matches(fn, e, fr.(cmpFlag := flag), true, t)
  {
    hide FnFrame, MaxReg, FlagsMatch, Load, SlotsMatch;
  }

  // ---------------------------------------------------------------- returning

  // Leaving the frame restores what the caller had.
  lemma LeftReturns(fn: Function, e: Entry, s: State, v: I.Value)
    requires FrameHolds(fn, e, s) && (v.ty == I64 ==> s.x[0] == Unsigned(v.n))
    ensures Returned(e, v, s.mem, Left(s, FnFrame(fn)))
  {
    hide FnFrame, Unsigned, Load;
  }

  lemma RetSim(code: seq<Byte>, fn: Function, e: Entry, fr: I.Frame, flagLive: bool, s: State, instr: Instruction) returns (t: State)
    requires Starts1(code, fn, e, fr, flagLive, s, instr) && instr.opcode == RET
    requires I.ReadOperand(fr, instr.operands[0]).Some? && I.OperandClean(fr, instr.operands[0])
    ensures WellFormed(s) && Run(code, s, |InstrAsm(instr, FnFrame(fn))|) == Some(t)
    ensures Returned(e, I.ReadOperand(fr, instr.operands[0]).value, s.mem, t) && Keeps(code, e.sp, s, |InstrAsm(instr, FnFrame(fn))|)
  {
    hide Fetch, Run, Keeps, Decode, Matches, FunctionInDomain, MaxReg, FnFrame, OperandAsm, LeaveAsm, RawAt, Loaded, Left;
    hide InstrSupported, I.ReadOperand, I.OperandClean, OperandValue, Unsigned, Returned, FrameHolds;
    MatchesShape(fn, e, fr, flagLive, s);
    var op := instr.operands[0];
    var load, leave := OperandAsm(0, op), LeaveAsm(FnFrame(fn));
    OperandAgrees(fn, e, fr, flagLive, s, op);
    RawAtSplit(code, s.pc, load, leave);
    LoadOperand(code, s, 0, op);
    var v := OperandValue(s, op);
    var m := Loaded(s, 0, v, |load|);
    LoadedMatches(fn, e, fr, flagLive, s, 0, v, |load|);
    LoadedShape(s, 0, v, |load|);
    Leave(code, m, FnFrame(fn));
    t := Left(m, FnFrame(fn));
    MatchesFrame(fn, e, fr, flagLive, m);
    LeftReturns(fn, e, m, I.ReadOperand(fr, op).value);
    FrameBelow(fn, e, fr, flagLive, s);
    KeepsHigher(code, s.sp, e.sp, s, |load|);
    Then(code, e.sp, s, |load|, m, |leave|);
  }

  lemma MatchesFrame(fn: Function, e: Entry, fr: I.Frame, flagLive: bool, s: State)
    requires Matches(fn, e, fr, flagLive, s)
    ensures FrameHolds(fn, e, s)
  {
  }

  lemma RetVoidSim(code: seq<Byte>, fn: Function, e: Entry, fr: I.Frame, flagLive: bool, s: State, instr: Instruction) returns (t: State)
    requires Starts1(code, fn, e, fr, flagLive, s, instr) && instr.opcode == RETVOID
    ensures WellFormed(s) && Run(code, s, |InstrAsm(instr, FnFrame(fn))|) == Some(t)
    ensures Returned(e, I.NO_VALUE, s.mem, t) && Keeps(code, e.sp, s, |InstrAsm(instr, FnFrame(fn))|)
  {
    hide Fetch, Run, Keeps, Decode, Matches, FunctionInDomain, MaxReg, FnFrame, LeaveAsm, RawAt, Left;
    hide InstrSupported, Unsigned, Returned, FrameHolds;
    MatchesShape(fn, e, fr, flagLive, s);
    MatchesFrame(fn, e, fr, flagLive, s);
    Leave(code, s, FnFrame(fn));
    t := Left(s, FnFrame(fn));
    LeftReturns(fn, e, s, I.NO_VALUE);
    FrameBelow(fn, e, fr, flagLive, s);
  }

  // ---------------------------------------------------------------- branches

  ghost function BranchTo(fn: Function, k: nat, a: Asm): MInstr
    requires FnEmittable(fn) && IsBranch(a) && HasBlock(fn, a.target)
  {
    var d := BlockStart(fn, TargetBlock(fn, a.target)) - k;
    if a.Branch? then B(d) else BCond(a.cond, d)
  }

  lemma WordInPlace(p: Program, code: seq<Byte>, f: nat, k: nat)
    requires InPlace(p, code) && f < |p.functions| && k < |Listing(p, f)|
    ensures Ready(p) && TargetsExist(p, f, Listing(p, f)[k]) && Fetch(code, Address(p, f, k)) == Meaning(p, f, k)
  {
    hide Ready, Listing, FnStart, Fetch, Meaning, TargetsExist;
    assert PlacedAt(p, code, f, k);
  }

  lemma BranchMeaning(p: Program, f: nat, k: nat, a: Asm)
    requires Ready(p) && f < |p.functions| && k < |Listing(p, f)| && Listing(p, f)[k] == a && IsBranch(a)
    requires TargetsExist(p, f, a) && FnEmittable(p.functions[f])
    ensures HasBlock(p.functions[f], a.target) && Meaning(p, f, k) == Some(BranchTo(p.functions[f], k, a))
  {
    hide Ready, Listing, FnStart, BlockStart, FnEmittable, HasBlock, TargetBlock, HasFunction, TargetFunction;
  }

  lemma PlacedBranch(p: Program, code: seq<Byte>, f: nat, k: nat, a: Asm)
    requires InPlace(p, code) && f < |p.functions| && k < |Listing(p, f)| && Listing(p, f)[k] == a && IsBranch(a)
    ensures FnEmittable(p.functions[f]) && HasBlock(p.functions[f], a.target)
    ensures Fetch(code, Address(p, f, k)) == Some(BranchTo(p.functions[f], k, a))
  {
    hide *;
    WordInPlace(p, code, f, k);
    ListingEmittable(p, f);
    BranchMeaning(p, f, k, a);
  }

  // The branch instruction at a point decodes to its target block.
  lemma BranchAt(p: Program, code: seq<Byte>, f: nat, b: nat, i: nat, fr: I.Frame, flagLive: bool, e: Entry, s: State, instr: Instruction)
    requires At(p, code, f, b, i, fr, flagLive, e, s) && i < |p.functions[f].blocks[b].instructions|
    requires instr == p.functions[f].blocks[b].instructions[i] && IsJump(instr.opcode)
    ensures Emittable(instr) && |instr.operands| > 0 && IsBranch(BranchAsm(instr)) && HasBlock(p.functions[f], BranchAsm(instr).target)
    ensures Fetch(code, s.pc) == Some(BranchTo(p.functions[f], InstrStart(p.functions[f], b, i), BranchAsm(instr)))
    ensures InstrStart(p.functions[f], b, i + 1) == InstrStart(p.functions[f], b, i) + 1
  {
    hide *;
    AtMatches(p, code, f, b, i, fr, flagLive, e, s);
    AtInstruction(p, code, f, b, i, fr, flagLive, e, s);
    AtPieces(p, code, f, b, i, fr, flagLive, e, s);
    var fn := p.functions[f];
    BranchListing(instr, FnFrame(fn));
    assert IsBranch(BranchAsm(instr)) by { BranchIsBranch(instr); }
    SliceOfOne(Listing(p, f), InstrStart(fn, b, i), BranchAsm(instr));
    PlacedBranch(p, code, f, InstrStart(fn, b, i), BranchAsm(instr));
  }

  lemma GotoPoint(p: Program, code: seq<Byte>, f: nat, b: nat, i: nat, fr: I.Frame, flagLive: bool, e: Entry, s: State,
                  b': nat, t: State)
    requires At(p, code, f, b, i, fr, flagLive, e, s) && b' < |p.functions[f].blocks|
    requires t == s.(pc := Address(p, f, BlockStart(p.functions[f], b')))
    ensures At(p, code, f, b', 0, fr, flagLive, e, t)
  {
    hide *;
    AtMatches(p, code, f, b, i, fr, flagLive, e, s);
    BlockEntry(p.functions[f], b');
    PcChanged(p.functions[f], e, fr, flagLive, s, t);
    assert I.InProgram(p, f, b', 0) by { StartOfBlock(p, f, b'); }
    MoveTo(p, code, f, b, i, fr, flagLive, e, s, b', 0, fr, flagLive, t);
  }

  lemma StartOfBlock(p: Program, f: nat, b: nat)
    requires f < |p.functions| && b < |p.functions[f].blocks|
    ensures I.InProgram(p, f, b, 0)
  {
  }

  lemma PcChanged(fn: Function, e: Entry, fr: I.Frame, flagLive: bool, s: State, t: State)
    requires Matches(fn, e, fr, flagLive, s) && t == s.(pc := t.pc)
    ensures Matches(fn, e, fr, flagLive, t)
  {
    hide FnFrame, MaxReg, FlagsMatch, Load, SlotsMatch;
  }

  // A branch leads to the block the interpreter resolves, or falls through as the interpreter does.
  lemma BranchSim(p: Program, code: seq<Byte>, f: nat, b: nat, i: nat, fr: I.Frame, flagLive: bool, e: Entry, s: State,
                  instr: Instruction) returns (t: State)
    requires At(p, code, f, b, i, fr, flagLive, e, s) && i < |p.functions[f].blocks[b].instructions|
    requires instr == p.functions[f].blocks[b].instructions[i]
    requires instr.opcode == JMP || (IsConditional(instr.opcode) && flagLive)
    ensures WellFormed(s) && Run(code, s, 1) == Some(t) && t.mem == s.mem && Keeps(code, e.sp, s, 1)
    ensures |instr.operands| > 0 && HasBlock(p.functions[f], OperandName(instr.operands[0]))
    ensures if instr.opcode == JMP || I.ShouldBranch(instr.opcode, fr.cmpFlag)
            then At(p, code, f, TargetBlock(p.functions[f], OperandName(instr.operands[0])), 0, fr, flagLive, e, t)
            else At(p, code, f, b, i + 1, fr, flagLive, e, t)
  {
    assert IsJump(instr.opcode);
    hide *;
    AtMatches(p, code, f, b, i, fr, flagLive, e, s);
    BranchAt(p, code, f, b, i, fr, flagLive, e, s, instr);
    BranchIsBranch(instr);
    var fn := p.functions[f];
    var k := InstrStart(fn, b, i);
    var a := BranchAsm(instr);
    var target := BlockStart(fn, TargetBlock(fn, a.target));
    var taken := instr.opcode == JMP || I.ShouldBranch(instr.opcode, fr.cmpFlag);
    if instr.opcode != JMP { BranchAgrees(instr.opcode, s.flags, fr.cmpFlag); }
    BranchStep(p, code, f, s, instr, k, fr.cmpFlag);
    t := s.(pc := Address(p, f, if taken then target else k + 1));
    FrameBelow(fn, e, fr, flagLive, s);
    Quiet(code, s, t);
    KeepsHigher(code, s.sp, e.sp, s, 1);
    if taken {
      GotoPoint(p, code, f, b, i, fr, flagLive, e, s, TargetBlock(fn, a.target), t);
    } else {
      PcChanged(fn, e, fr, flagLive, s, t);
      assert I.InProgram(p, f, b, i + 1) by { NextInBlock(p, code, f, b, i, fr, flagLive, e, s); }
      MoveTo(p, code, f, b, i, fr, flagLive, e, s, b, i + 1, fr, flagLive, t);
    }
  }

  lemma NextInBlock(p: Program, code: seq<Byte>, f: nat, b: nat, i: nat, fr: I.Frame, flagLive: bool, e: Entry, s: State)
    requires At(p, code, f, b, i, fr, flagLive, e, s) && i < |p.functions[f].blocks[b].instructions|
    ensures I.InProgram(p, f, b, i + 1)
  {
    hide InPlace, InDomain, FnEmittable, Matches, InstrStart, Address;
  }

  // The machine step of a branch.
  lemma BranchStep(p: Program, code: seq<Byte>, f: nat, s: State, instr: Instruction, k: nat, cmpFlag: int)
    requires Ready(p) && f < |p.functions| && WellFormed(s) && s.pc == Address(p, f, k)
    requires |instr.operands| > 0 && IsJump(instr.opcode)
    requires instr.opcode != JMP ==> Holds(CondCode(instr.opcode), s.flags) == I.ShouldBranch(instr.opcode, cmpFlag)
    requires FnEmittable(p.functions[f]) && HasBlock(p.functions[f], BranchAsm(instr).target)
    requires Fetch(code, s.pc) == Some(BranchTo(p.functions[f], k, BranchAsm(instr)))
    ensures var target := BlockStart(p.functions[f], TargetBlock(p.functions[f], BranchAsm(instr).target));
            Run(code, s, 1) == Some(s.(pc := Address(p, f,
              if instr.opcode == JMP || I.ShouldBranch(instr.opcode, cmpFlag) then target else k + 1)))
  {
    hide Ready, FnStart, BlockStart, FnEmittable, Fetch, Run, OperandName, TargetBlock, HasBlock, I.ShouldBranch, Holds, CondCode;
    hide ReplaceChunk, TruncDiv, SubFlags, Signed, Unsigned, WrapMul, SignedQuotient, Load;
    OneStep(code, s, BranchTo(p.functions[f], k, BranchAsm(instr)));
  }

  lemma AtMatches(p: Program, code: seq<Byte>, f: nat, b: nat, i: nat, fr: I.Frame, flagLive: bool, e: Entry, s: State)
    requires At(p, code, f, b, i, fr, flagLive, e, s)
    ensures f < |p.functions| && b < |p.functions[f].blocks| && i <= |p.functions[f].blocks[b].instructions|
    ensures Matches(p.functions[f], e, fr, flagLive, s) && WellFormed(s)
    ensures flagLive ==> FlagsMatch(s.flags, fr.cmpFlag)
    ensures s.pc == Address(p, f, InstrStart(p.functions[f], b, i)) && Ready(p) && FnEmittable(p.functions[f])
  {
    hide Ready, PlacedAt, InDomain, FnEmittable, SlotsMatch, FlagsMatch, InstrStart, FnFrame, Listing, FnStart;
  }

  // ---------------------------------------------------------------- entering a function

  lemma EnteredMemory(s: State, fs: nat)
    requires WellFormed(s)
    ensures Load(Entered(s, fs).mem, s.sp - 16) == s.x[29] && Load(Entered(s, fs).mem, s.sp - 8) == s.x[30]
    ensures SameAbove(s.sp, s.mem, Entered(s, fs).mem)
  {
    hide PrologueAsm;
  }

  // Storing the parameters touches nothing at or above a bound.
  lemma ParamsStoredBelow(m: State, n: nat, mem: map<int, UInt64>, top: int)
    requires WellFormed(m) && n <= 8 && ParamsStored(m, n, mem) && m.sp + 8 * n <= top
    ensures SameAbove(top, m.mem, mem)
  {
    hide Load;
  }

  lemma ParamsReadBack(m: State, n: nat, mem: map<int, UInt64>)
    requires WellFormed(m) && n <= 8 && ParamsStored(m, n, mem)
    ensures forall j :: 0 <= j < n ==> Load(mem, m.sp + 8 * j) == m.x[j]
  {
    hide Load;
  }

  lemma SameAt(a: int, mem: map<int, UInt64>, mem': map<int, UInt64>, x: int)
    requires SameAbove(a, mem, mem') && x >= a
    ensures Load(mem', x) == Load(mem, x)
  {
    hide Load;
  }

  lemma EnteredFrame(fn: Function, s: State, t: State, n: nat)
    requires FunctionInDomain(fn) && WellFormed(s) && s.sp % 16 == 0 && n == |fn.params| <= 8
    requires ParamsStored(Entered(s, FnFrame(fn)), n, t.mem) && WellFormed(t) && t.sp == s.sp - 16 - FnFrame(fn)
    ensures FrameHolds(fn, Entry(s.sp, s.x[29], s.x[30]), t) && SameAbove(s.sp, s.mem, t.mem)
    ensures forall j :: 0 <= j < n ==> Load(t.mem, t.sp + 8 * j) == s.x[j]
  {
    hide FnFrame, MaxReg, FunctionInDomain, Load, Entered, SameAbove, ParamsStored;
    var fs := FnFrame(fn);
    var m := Entered(s, fs);
    EnteredShape(s, fs);
    EnteredMemory(s, fs);
    FrameBounds(fn);
    MaxRegBounds(fn);
    ParamsStoredBelow(m, n, t.mem, s.sp - 16);
    ParamsReadBack(m, n, t.mem);
    SameAt(s.sp - 16, m.mem, t.mem, s.sp - 16);
    SameAt(s.sp - 16, m.mem, t.mem, s.sp - 8);
    SameAboveHigher(s.sp - 16, s.sp, m.mem, t.mem);
    SameAboveTrans(s.sp, s.mem, m.mem, t.mem);
  }

  lemma ArgsMatch(fn: Function, e: Entry, args: seq<I.Value>, t: State)
    requires FunctionInDomain(fn) && FrameHolds(fn, e, t) && |args| == |fn.params| <= 8
    requires forall j :: 0 <= j < |args| ==> Load(t.mem, t.sp + 8 * j) == Unsigned(args[j].n)
    ensures Matches(fn, e, I.ArgFrame(args), false, t)
  {
    hide FnFrame, MaxReg, FunctionInDomain, Load, FrameHolds;
    MaxRegBounds(fn);
  }

  // The prologue and the stores of the parameters build the frame of a new activation.
  lemma EntrySim(p: Program, code: seq<Byte>, g: nat, args: seq<I.Value>, s: State) returns (n: nat, t: State)
    requires InPlace(p, code) && InDomain(p) && g < |p.functions| && |p.functions[g].blocks| > 0
    requires |args| == |p.functions[g].params| <= 8
    requires WellFormed(s) && s.sp % 16 == 0 && s.pc == Address(p, g, 0)
    requires forall j :: 0 <= j < |args| ==> s.x[j] == Unsigned(args[j].n)
    ensures Run(code, s, n) == Some(t) && SameAbove(s.sp, s.mem, t.mem) && Keeps(code, s.sp, s, n)
    ensures At(p, code, g, 0, 0, I.ArgFrame(args), false, Entry(s.sp, s.x[29], s.x[30]), t)
    ensures forall a :: t.sp + 8 * |args| <= a < s.sp - 16 ==> Load(t.mem, a) == Load(s.mem, a)
  {
    hide *;
    EntryFacts(p, code, g);
    var fn := p.functions[g];
    var fs, count := FnFrame(fn), ParamCount(fn);
    Prologue(code, s, fs);
    var m := Entered(s, fs);
    EnteredShape(s, fs);
    t := StoreParams(code, m, count);
    n := |PrologueAsm(fs)| + count;
    FrameHoldsParams(fn, count);
    KeepsHigher(code, m.sp + 8 * count, s.sp, m, count);
    Then(code, s.sp, s, |PrologueAsm(fs)|, m, count);
    EnteredFrame(fn, s, t, count);
    ArgsMatch(fn, Entry(s.sp, s.x[29], s.x[30]), args, t);
    SlotsUntouched(s, fs, count, t);
    AtEntry(p, code, g, I.ArgFrame(args), Entry(s.sp, s.x[29], s.x[30]), t);
  }

  // The slots above those of the parameters are as the stack was.
  lemma SlotsUntouched(s: State, fs: nat, n: nat, t: State)
    requires WellFormed(s) && n <= 8 && ParamsStored(Entered(s, fs), n, t.mem) && t.sp == s.sp - 16 - fs
    ensures forall a :: t.sp + 8 * n <= a < s.sp - 16 ==> Load(t.mem, a) == Load(s.mem, a)
  {
    hide PrologueAsm;
  }

  lemma FrameHoldsParams(fn: Function, n: nat)
    requires FunctionInDomain(fn) && n == |fn.params|
    ensures 8 * n <= FnFrame(fn)
  {
    hide FnFrame, MaxReg, FunctionInDomain;
    FrameBounds(fn);
    MaxRegBounds(fn);
  }

  lemma AtEntry(p: Program, code: seq<Byte>, g: nat, fr: I.Frame, e: Entry, t: State)
    requires InPlace(p, code) && InDomain(p) && g < |p.functions| && |p.functions[g].blocks| > 0
    requires FnEmittable(p.functions[g]) && Matches(p.functions[g], e, fr, false, t)
    requires t.pc == Address(p, g, InstrStart(p.functions[g], 0, 0))
    ensures At(p, code, g, 0, 0, fr, false, e, t)
  {
    hide InPlace, InDomain, FnEmittable, Matches, InstrStart, Address;
  }

  lemma EnteredShape(s: State, fs: nat)
    requires WellFormed(s)
    ensures WellFormed(Entered(s, fs)) && Entered(s, fs).sp == s.sp - 16 - fs
    ensures Entered(s, fs).pc == s.pc + 4 * |PrologueAsm(fs)| && Entered(s, fs).x == s.x
  {
  }

  lemma EntryFacts(p: Program, code: seq<Byte>, g: nat)
    requires InPlace(p, code) && InDomain(p) && g < |p.functions| && |p.functions[g].blocks| > 0
    ensures var fn := p.functions[g];
      && Ready(p) && FunctionInDomain(fn) && FnEmittable(fn)
      && RawAt(code, Address(p, g, 0), PrologueAsm(FnFrame(fn)))
      && RawAt(code, Address(p, g, 0) + 4 * |PrologueAsm(FnFrame(fn))|, ParamsAsm(ParamCount(fn)))
      && |ParamsAsm(ParamCount(fn))| == ParamCount(fn) == |fn.params|
      && FnFrame(fn) % 16 == 0 && FnFrame(fn) < 4096
      && Address(p, g, InstrStart(fn, 0, 0)) == Address(p, g, 0) + 4 * (|PrologueAsm(FnFrame(fn))| + ParamCount(fn))
  {
    hide *;
    DomainAt(p, code, g);
    var fn := p.functions[g];
    ListingEmittable(p, g);
    EntrySlice(fn);
    PartInPlace(p, code, g, 0, PrologueAsm(FnFrame(fn)) + ParamsAsm(ParamCount(fn)));
    RawAtSplit(code, Address(p, g, 0), PrologueAsm(FnFrame(fn)), ParamsAsm(ParamCount(fn)));
    ParamsAreRaw(ParamCount(fn));
    FrameBounds(fn);
    BlockEntry(fn, 0);
    AddressStep(p, g, BlockStart(fn, 0));
  }

  lemma DomainAt(p: Program, code: seq<Byte>, g: nat)
    requires InPlace(p, code) && InDomain(p) && g < |p.functions|
    ensures Ready(p) && FunctionInDomain(p.functions[g]) && |p.functions[g].params| <= 8
    ensures ParamCount(p.functions[g]) == |p.functions[g].params|
  {
    hide Ready, PlacedAt, Listing;
    assert FunctionInDomain(p.functions[g]);
  }

  lemma AddressStep(p: Program, f: nat, k: nat)
    requires Ready(p) && f < |p.functions|
    ensures Address(p, f, k) == Address(p, f, 0) + 4 * k
  {
    hide Ready, FnStart;
  }

  // ---------------------------------------------------------------- calling

  lemma {:induction false} ReadArgsAt(fr: I.Frame, ops: seq<Operand>)
    requires I.ReadArgs(fr, ops).Some?
    ensures |I.ReadArgs(fr, ops).value| == |ops|
    ensures forall a :: 0 <= a < |ops| ==>
      I.ReadOperand(fr, ops[a]).Some? && I.ReadArgs(fr, ops).value[a] == I.ReadOperand(fr, ops[a]).value
  {
    hide I.ReadOperand;
    if ops != [] { ReadArgsAt(fr, ops[..|ops| - 1]); }
  }

  // The value each argument register gets.
  lemma ArgsAgree(fn: Function, e: Entry, fr: I.Frame, flagLive: bool, s: State, ops: seq<Operand>, args: seq<I.Value>)
    requires Matches(fn, e, fr, flagLive, s) && 1 <= |ops| <= 9 && MaxReg(fn) <= MAX_SLOTS
    requires I.ReadArgs(fr, ops[1..]) == Some(args) && forall a :: 1 <= a < |ops| ==> I.OperandClean(fr, ops[a])
    ensures WellFormed(s) && ArgsOk(ops, |ops| - 1) && |args| == |ops| - 1
    ensures forall a :: 1 <= a < |ops| && ops[a].Register? ==> ops[a].reg < 4096
    ensures forall a :: 1 <= a < |ops| ==> OperandValue(s, ops[a]) == Unsigned(args[a - 1].n)
  {
    hide Matches, MaxReg, I.ReadArgs, I.ReadOperand, I.OperandClean, OperandValue, Unsigned;
    MatchesShape(fn, e, fr, flagLive, s);
    ReadArgsAt(fr, ops[1..]);
    forall a | 1 <= a < |ops|
      ensures OperandOk(ops[a]) && (ops[a].Register? ==> ops[a].reg < 4096)
      ensures OperandValue(s, ops[a]) == Unsigned(args[a - 1].n)
    {
      assert ops[1..][a - 1] == ops[a];
      OperandAgrees(fn, e, fr, flagLive, s, ops[a]);
    }
  }

  lemma RegistersHold(s: State, ops: seq<Operand>, x: seq<UInt64>, args: seq<I.Value>)
    requires WellFormed(s) && 1 <= |ops| <= 9 && |x| == 31 && ArgsOk(ops, |ops| - 1) && |args| == |ops| - 1
    requires ArgsInRegisters(s, ops, |ops| - 1, x)
    requires forall a :: 1 <= a < |ops| ==> OperandValue(s, ops[a]) == Unsigned(args[a - 1].n)
    ensures forall j :: 0 <= j < |args| ==> x[j] == Unsigned(args[j].n)
    ensures x[29] == s.x[29]
  {
    hide OperandValue, Unsigned;
    forall j | 0 <= j < |args| ensures x[j] == Unsigned(args[j].n) {
      assert x[(j + 1) - 1] == OperandValue(s, ops[j + 1]);
    }
  }

  function CallPart(instr: Instruction): seq<Asm>
    requires |instr.operands| > 0
  {
    [CallTo(OperandName(instr.operands[0]))] + StoreDest(instr)
  }

  lemma CallListing(instr: Instruction, fs: nat)
    requires Emittable(instr) && instr.opcode == CALL && |instr.operands| <= 9
    ensures |instr.operands| > 0 && ArgsOk(instr.operands, |instr.operands| - 1)
    ensures InstrAsm(instr, fs) == ArgsAsm(instr.operands, |instr.operands| - 1) + CallPart(instr)
  {
    hide ArgsAsm;
  }

  lemma CallMeaning(p: Program, f: nat, k: nat, c: string)
    requires Ready(p) && f < |p.functions| && k < |Listing(p, f)| && Listing(p, f)[k] == CallTo(c)
    requires TargetsExist(p, f, CallTo(c))
    ensures HasFunction(p, c) && Meaning(p, f, k) == Some(BL(FnStart(p, TargetFunction(p, c)) - (FnStart(p, f) + k)))
  {
    hide Ready, Listing, FnStart, BlockStart, FnEmittable, HasBlock, TargetBlock, HasFunction, TargetFunction;
  }

  lemma PlacedCall(p: Program, code: seq<Byte>, f: nat, k: nat, c: string)
    requires InPlace(p, code) && f < |p.functions| && k < |Listing(p, f)| && Listing(p, f)[k] == CallTo(c)
    ensures HasFunction(p, c) && 0 <= Address(p, f, k + 1) < 0x1_0000_0000_0000_0000
    ensures Fetch(code, Address(p, f, k)) == Some(BL(FnStart(p, TargetFunction(p, c)) - (FnStart(p, f) + k)))
  {
    hide *;
    WordInPlace(p, code, f, k);
    CallMeaning(p, f, k, c);
    FetchInRange(p, code, f, k);
  }

  lemma FetchInRange(p: Program, code: seq<Byte>, f: nat, k: nat)
    requires InPlace(p, code) && f < |p.functions| && Fetch(code, Address(p, f, k)).Some?
    ensures 0 <= Address(p, f, k + 1) < 0x1_0000_0000_0000_0000
  {
    hide Ready, PlacedAt, FnStart, Decode, Listing;
  }

  // bl: the return address goes to x30.
  lemma CallStep(code: seq<Byte>, s: State, d: int)
    requires WellFormed(s) && Fetch(code, s.pc) == Some(BL(d)) && 0 <= s.pc + 4 < 0x1_0000_0000_0000_0000
    ensures Run(code, s, 1) == Some(s.(x := s.x[30 := s.pc + 4], pc := s.pc + 4 * d))
  {
    hide Fetch, Run, Keeps, Decode, ReplaceChunk, TruncDiv, SubFlags, Holds, Signed, Unsigned, WrapMul, SignedQuotient, Load;
    OneStep(code, s, BL(d));
  }

  // Loading the arguments and bl: the callee is entered with its arguments, and returns to the word after.
  lemma CallSim(p: Program, code: seq<Byte>, f: nat, b: nat, i: nat, fr: I.Frame, flagLive: bool, e: Entry, s: State,
                instr: Instruction, args: seq<I.Value>) returns (n: nat, t: State)
    requires At(p, code, f, b, i, fr, flagLive, e, s) && i < |p.functions[f].blocks[b].instructions|
    requires instr == p.functions[f].blocks[b].instructions[i] && instr.opcode == CALL && 1 <= |instr.operands| <= 9
    requires I.ReadArgs(fr, instr.operands[1..]) == Some(args)
    requires forall a :: 1 <= a < |instr.operands| ==> I.OperandClean(fr, instr.operands[a])
    ensures WellFormed(s) && Run(code, s, n) == Some(t) && WellFormed(t) && t.sp == s.sp && t.mem == s.mem && Keeps(code, e.sp, s, n)
    ensures s.sp % 16 == 0 && |args| == |instr.operands| - 1
    ensures HasFunction(p, OperandName(instr.operands[0])) && Ready(p)
    ensures t.pc == Address(p, TargetFunction(p, OperandName(instr.operands[0])), 0)
    ensures forall j :: 0 <= j < |args| ==> t.x[j] == Unsigned(args[j].n)
    ensures t.x[30] == s.pc + 4 * n && RawAt(code, s.pc + 4 * n, StoreDest(instr))
    ensures s.pc + 4 * n + 4 * |StoreDest(instr)| == Address(p, f, InstrStart(p.functions[f], b, i + 1))
  {
    hide *;
    AtMatches(p, code, f, b, i, fr, flagLive, e, s);
    AtInstruction(p, code, f, b, i, fr, flagLive, e, s);
    AtPieces(p, code, f, b, i, fr, flagLive, e, s);
    var fn := p.functions[f];
    var ops := instr.operands;
    var k := InstrStart(fn, b, i);
    CallListing(instr, FnFrame(fn));
    ArgsAgree(fn, e, fr, flagLive, s, ops, args);
    var load := ArgsAsm(ops, |ops| - 1);
    RawAtSplit(code, s.pc, load, CallPart(instr));
    var m := LoadArgs(code, s, ops, |ops| - 1);
    Shape(m);
    RegistersHold(s, ops, m.x, args);
    CallWord(p, code, f, k, load, instr);
    AddressStep(p, f, k);
    AddressStep(p, f, k + |load|);
    AddressStep(p, f, k + |load| + 1);
    AddressStep(p, f, InstrStart(fn, b, i + 1));
    var c := OperandName(ops[0]);
    var d := FnStart(p, TargetFunction(p, c)) - (FnStart(p, f) + (k + |load|));
    CallStep(code, m, d);
    n := |load| + 1;
    t := m.(x := m.x[30 := m.pc + 4], pc := m.pc + 4 * d);
    Quiet(code, m, t);
    Then(code, s.sp, s, |load|, m, 1);
    FrameBelow(fn, e, fr, flagLive, s);
    KeepsHigher(code, s.sp, e.sp, s, n);
    AddressOf(p, f, k + |load|);
    AddressOf(p, TargetFunction(p, c), 0);
    CallPartTail(code, m.pc, instr);
    Shape(t);
  }

  lemma AddressOf(p: Program, f: nat, k: nat)
    requires Ready(p) && f < |p.functions|
    ensures Address(p, f, k) == 4 * (FnStart(p, f) + k)
  {
    hide Ready, FnStart;
  }

  lemma CallPartTail(code: seq<Byte>, pc: int, instr: Instruction)
    requires |instr.operands| > 0 && RawAt(code, pc, CallPart(instr))
    ensures RawAt(code, pc + 4, StoreDest(instr)) && |CallPart(instr)| == 1 + |StoreDest(instr)|
  {
    hide RawAt, StoreDest;
    RawAtSplit(code, pc, [CallTo(OperandName(instr.operands[0]))], StoreDest(instr));
  }

  lemma InPlaceReady(p: Program, code: seq<Byte>)
    requires InPlace(p, code)
    ensures Ready(p)
  {
    hide Ready, PlacedAt, Listing;
  }

  lemma CallPartHead(load: seq<Asm>, instr: Instruction)
    requires |instr.operands| > 0
    ensures |load + CallPart(instr)| > |load| && (load + CallPart(instr))[|load|] == CallTo(OperandName(instr.operands[0]))
  {
    hide StoreDest;
  }

  lemma SliceElement(l: seq<Asm>, at: nat, part: seq<Asm>, j: nat)
    requires SliceAt(l, at, part) && j < |part|
    ensures at + j < |l| && l[at + j] == part[j]
  {
  }

  lemma Shape(s: State)
    ensures WellFormed(s) <==> |s.x| == 31
  {
  }

  lemma CallWord(p: Program, code: seq<Byte>, f: nat, k: nat, load: seq<Asm>, instr: Instruction)
    requires InPlace(p, code) && f < |p.functions| && |instr.operands| > 0 && SliceAt(Listing(p, f), k, load + CallPart(instr))
    ensures Ready(p) && HasFunction(p, OperandName(instr.operands[0])) && 0 <= Address(p, f, k + |load| + 1) < 0x1_0000_0000_0000_0000
    ensures Fetch(code, Address(p, f, k + |load|))
         == Some(BL(FnStart(p, TargetFunction(p, OperandName(instr.operands[0]))) - (FnStart(p, f) + (k + |load|))))
  {
    hide *;
    var c := OperandName(instr.operands[0]);
    InPlaceReady(p, code);
    CallPartHead(load, instr);
    SliceElement(Listing(p, f), k, load + CallPart(instr), |load|);
    PlacedCall(p, code, f, k + |load|, c);
    WordInPlace(p, code, f, k + |load|);
  }

  // The callee has returned: the frame is as it was, the flags are not.
  lemma CalleeKeeps(fn: Function, e: Entry, fr: I.Frame, flagLive: bool, s: State, v: I.Value, ra: UInt64, x29: UInt64, u: State)
    requires FunctionInDomain(fn) && Matches(fn, e, fr, flagLive, s) && Returned(Entry(s.sp, x29, ra), v, s.mem, u)
    ensures Matches(fn, e, fr, false, u) && SameAbove(e.sp, s.mem, u.mem) && u.pc == ra && u.sp == s.sp && WellFormed(u)
    ensures v.ty == I64 ==> u.x[0] == Unsigned(v.n)
  {
    hide FnFrame, MaxReg, FunctionInDomain, Load, Unsigned, FlagsMatch;
    FrameRoom(fn, e, s);
  }

  // Storing the result, if the call has a destination, and going on with the next instruction.
  lemma ReturnSim(p: Program, code: seq<Byte>, f: nat, b: nat, i: nat, fr: I.Frame, flagLive: bool, e: Entry, s: State,
                  instr: Instruction, v: I.Value, u: State) returns (n: nat, t: State)
    requires At(p, code, f, b, i, fr, flagLive, e, s) && i < |p.functions[f].blocks[b].instructions|
    requires instr == p.functions[f].blocks[b].instructions[i]
    requires u.pc + 4 * |StoreDest(instr)| == Address(p, f, InstrStart(p.functions[f], b, i + 1)) && RawAt(code, u.pc, StoreDest(instr))
    requires Matches(p.functions[f], e, fr, false, u) && (v.ty == I64 ==> u.x[0] == Unsigned(v.n)) && u.sp == s.sp
    ensures Run(code, u, n) == Some(t) && SameAbove(e.sp, u.mem, t.mem) && Keeps(code, e.sp, u, n)
    ensures At(p, code, f, b, i + 1, I.AfterCall(fr, instr, v), false, e, t)
  {
    hide *;
    AtMatches(p, code, f, b, i, fr, flagLive, e, s);
    AtInstruction(p, code, f, b, i, fr, flagLive, e, s);
    AtPieces(p, code, f, b, i, fr, flagLive, e, s);
    NextInBlock(p, code, f, b, i, fr, flagLive, e, s);
    MatchesShape(p.functions[f], e, fr, false, u);
    Shape(u);
    AfterCallIs(fr, instr, v);
    DestinationBelow(instr, MaxReg(p.functions[f]));
    if instr.hasDest {
      FirstRaw(code, u.pc, StoreDest(instr));
      t := StoreDestSim(code, p.functions[f], e, fr, false, u, 0, instr.dest, v);
      StepsToMeans(code, p.functions[f], e, I.SetReg(fr, instr.dest, v), false, u, 1, t);
      n := 1;
    } else {
      NoSteps(code, u);
      SameAboveSelf(e.sp, u.mem);
      FrameBelow(p.functions[f], e, fr, false, u);
      KeepsZero(code, e.sp, u);
      n, t := 0, u;
    }
    MoveTo(p, code, f, b, i, fr, flagLive, e, s, b, i + 1, I.AfterCall(fr, instr, v), false, t);
  }

  lemma StepsToMeans(code: seq<Byte>, fn: Function, e: Entry, fr: I.Frame, flagLive: bool, s: State, n: nat, t: State)
    requires WellFormed(s) && StepsTo(code, fn, e, fr, flagLive, s, n, t)
    ensures Run(code, s, n) == Some(t) && t.pc == s.pc + 4 * n && Matches(fn, e, fr, flagLive, t) && SameAbove(e.sp, s.mem, t.mem)
    ensures Keeps(code, e.sp, s, n)
  {
  }

  lemma AfterCallIs(fr: I.Frame, instr: Instruction, v: I.Value)
    ensures I.AfterCall(fr, instr, v) == if instr.hasDest then I.SetReg(fr, instr.dest, v) else fr
    ensures StoreDest(instr) == if instr.hasDest then [Raw(StrSlotWord(0, instr.dest))] else []
  {
  }

  lemma DestinationBelow(instr: Instruction, m: nat)
    requires InstrBelow(instr, m)
    ensures instr.hasDest ==> instr.dest < m
  {
  }

  // ---------------------------------------------------------------- one step of the interpreter

  lemma AtStarts(p: Program, code: seq<Byte>, f: nat, b: nat, i: nat, fr: I.Frame, flagLive: bool, e: Entry, s: State, instr: Instruction)
    requires At(p, code, f, b, i, fr, flagLive, e, s) && i < |p.functions[f].blocks[b].instructions|
    requires instr == p.functions[f].blocks[b].instructions[i]
    ensures Starts1(code, p.functions[f], e, fr, flagLive, s, instr) && Ready(p) && FnEmittable(p.functions[f]) && Emittable(instr)
    ensures Address(p, f, InstrStart(p.functions[f], b, i + 1)) == s.pc + 4 * |InstrAsm(instr, FnFrame(p.functions[f]))|
    ensures instr.opcode == MOV || IsArith(instr.opcode) ==> instr.hasDest
  {
    hide *;
    AtMatches(p, code, f, b, i, fr, flagLive, e, s);
    AtInstruction(p, code, f, b, i, fr, flagLive, e, s);
    AtPieces(p, code, f, b, i, fr, flagLive, e, s);
    AddressStep(p, f, InstrStart(p.functions[f], b, i));
    AddressStep(p, f, InstrStart(p.functions[f], b, i + 1));
    MakeStarts(code, p.functions[f], e, fr, flagLive, s, instr);
  }

  lemma MakeStarts(code: seq<Byte>, fn: Function, e: Entry, fr: I.Frame, flagLive: bool, s: State, instr: Instruction)
    requires FunctionInDomain(fn) && Matches(fn, e, fr, flagLive, s)
    requires Emittable(instr) && InstrInDomain(instr) && InstrBelow(instr, MaxReg(fn)) && MaxReg(fn) <= MAX_SLOTS
    requires s.sp % 16 == 0 && FnFrame(fn) % 16 == 0 && FnFrame(fn) < 4096
    requires RawAt(code, s.pc, InstrAsm(instr, FnFrame(fn)))
    ensures Starts1(code, fn, e, fr, flagLive, s, instr)
    ensures instr.opcode == MOV || IsArith(instr.opcode) ==> instr.hasDest
  {
    hide FunctionInDomain, Matches, Emittable, InstrBelow, MaxReg, FnFrame, RawAt, InstrAsm;
  }

  // What it takes for an instruction to fall through, and what it leaves.
  lemma NextMeans(p: Program, fn: Function, instr: Instruction, fr: I.Frame, fr': I.Frame)
    requires I.StepInstr(p, fn, instr, fr) == I.Next(fr')
    ensures |instr.operands| > 0
    ensures instr.opcode == MOV || IsArith(instr.opcode) || instr.opcode == CMP || IsConditional(instr.opcode)
    ensures instr.opcode == MOV ==>
      I.ReadOperand(fr, instr.operands[0]).Some? && fr' == I.SetReg(fr, instr.dest, I.ReadOperand(fr, instr.operands[0]).value)
    ensures IsArith(instr.opcode) || instr.opcode == CMP ==>
      |instr.operands| > 1 && I.ReadOperand(fr, instr.operands[0]).Some? && I.ReadOperand(fr, instr.operands[1]).Some?
    ensures IsArith(instr.opcode) ==>
      var r := I.Arith(instr.opcode, I.ReadOperand(fr, instr.operands[0]).value.n, I.ReadOperand(fr, instr.operands[1]).value.n);
      r.Some? && fr' == I.SetReg(fr, instr.dest, r.value)
    ensures instr.opcode == CMP ==>
      fr' == fr.(cmpFlag := I.Compare(I.ReadOperand(fr, instr.operands[0]).value.n, I.ReadOperand(fr, instr.operands[1]).value.n))
    ensures IsConditional(instr.opcode) ==> fr' == fr && !I.ShouldBranch(instr.opcode, fr.cmpFlag)
  {
    hide I.ReadOperand, I.SetReg, I.Arith, I.Compare, I.ShouldBranch;
  }

  lemma CleanOperands(instr: Instruction, fr: I.Frame, flagLive: bool)
    requires I.InstrClean(instr, fr, flagLive)
    ensures IsConditional(instr.opcode) ==> flagLive
    ensures instr.opcode == MOV || instr.opcode == RET || IsArith(instr.opcode) || instr.opcode == CMP ==>
      |instr.operands| > 0 ==> I.OperandClean(fr, instr.operands[0])
    ensures IsArith(instr.opcode) || instr.opcode == CMP ==> |instr.operands| > 1 ==> I.OperandClean(fr, instr.operands[1])
    ensures instr.opcode == CALL ==> forall a :: 1 <= a < |instr.operands| ==> I.OperandClean(fr, instr.operands[a])
  {
    hide I.OperandClean;
  }

  lemma OpcodesDiffer(op: UInt16)
    ensures IsConditional(op) ==> op != CMP && op != MOV && !IsArith(op) && op != JMP
    ensures IsArith(op) ==> op != CMP && op != MOV
    ensures op == MOV ==> op != CMP
  {
  }

  // An instruction that falls through is simulated by its words.
  lemma NextSim(p: Program, code: seq<Byte>, f: nat, b: nat, i: nat, fr: I.Frame, flagLive: bool, e: Entry, s: State,
                instr: Instruction, fr': I.Frame) returns (n: nat, t: State)
    requires At(p, code, f, b, i, fr, flagLive, e, s) && i < |p.functions[f].blocks[b].instructions|
    requires instr == p.functions[f].blocks[b].instructions[i]
    requires I.StepInstr(p, p.functions[f], instr, fr) == I.Next(fr') && I.InstrClean(instr, fr, flagLive)
    ensures WellFormed(s) && Run(code, s, n) == Some(t) && SameAbove(e.sp, s.mem, t.mem) && Keeps(code, e.sp, s, n)
    ensures At(p, code, f, b, i + 1, fr', flagLive || instr.opcode == CMP, e, t)
  {
    hide *;
    AtMatches(p, code, f, b, i, fr, flagLive, e, s);
    AtStarts(p, code, f, b, i, fr, flagLive, e, s, instr);
    NextInBlock(p, code, f, b, i, fr, flagLive, e, s);
    NextMeans(p, p.functions[f], instr, fr, fr');
    CleanOperands(instr, fr, flagLive);
    OpcodesDiffer(instr.opcode);
    var fn := p.functions[f];
    if IsConditional(instr.opcode) {
      t := BranchSim(p, code, f, b, i, fr, flagLive, e, s, instr);
      SameAboveSelf(e.sp, s.mem);
      n := 1;
    } else {
      n := |InstrAsm(instr, FnFrame(fn))|;
      if instr.opcode == MOV {
        t := MovSim(code, fn, e, fr, flagLive, s, instr);
      } else if IsArith(instr.opcode) {
        t := ArithSim(code, fn, e, fr, flagLive, s, instr,
          I.Arith(instr.opcode, I.ReadOperand(fr, instr.operands[0]).value.n, I.ReadOperand(fr, instr.operands[1]).value.n).value);
      } else {
        t := CmpSim(code, fn, e, fr, flagLive, s, instr);
      }
      StepsToMeans(code, fn, e, fr', flagLive || instr.opcode == CMP, s, n, t);
      MoveTo(p, code, f, b, i, fr, flagLive, e, s, b, i + 1, fr', flagLive || instr.opcode == CMP, t);
    }
  }

  lemma GotoMeans(p: Program, fn: Function, instr: Instruction, fr: I.Frame, b: nat)
    requires I.StepInstr(p, fn, instr, fr) == I.Goto(b)
    ensures instr.opcode == JMP || (IsConditional(instr.opcode) && I.ShouldBranch(instr.opcode, fr.cmpFlag))
    ensures |instr.operands| > 0 && HasBlock(fn, OperandName(instr.operands[0]))
    ensures b == TargetBlock(fn, OperandName(instr.operands[0]))
  {
    hide I.ReadOperand, I.SetReg, I.Arith, I.Compare, I.ShouldBranch, OperandName;
  }

  lemma InvokeMeans(p: Program, fn: Function, instr: Instruction, fr: I.Frame, g: nat, args: seq<I.Value>)
    requires I.StepInstr(p, fn, instr, fr) == I.Invoke(g, args)
    ensures instr.opcode == CALL && |instr.operands| > 0 && I.ReadArgs(fr, instr.operands[1..]) == Some(args)
    ensures HasFunction(p, OperandName(instr.operands[0])) && g == TargetFunction(p, OperandName(instr.operands[0]))
    ensures |args| == |instr.operands| - 1
  {
    hide I.ReadOperand, I.SetReg, I.Arith, I.Compare, I.ShouldBranch, OperandName, I.ReadArgs;
    if |instr.operands| > 0 && I.ReadArgs(fr, instr.operands[1..]).Some? { ReadArgsAt(fr, instr.operands[1..]); }
  }

  lemma DoneMeans(p: Program, fn: Function, instr: Instruction, fr: I.Frame, v: I.Value)
    requires I.StepInstr(p, fn, instr, fr) == I.Done(v)
    ensures instr.opcode == RET || instr.opcode == RETVOID
    ensures instr.opcode == RET ==> |instr.operands| > 0 && I.ReadOperand(fr, instr.operands[0]) == Some(v)
    ensures instr.opcode == RETVOID ==> v == I.NO_VALUE
  {
    hide I.ReadOperand, I.SetReg, I.Arith, I.Compare, I.ShouldBranch, OperandName;
  }

  lemma DoneSim(p: Program, code: seq<Byte>, f: nat, b: nat, i: nat, fr: I.Frame, flagLive: bool, e: Entry, s: State,
                instr: Instruction, v: I.Value) returns (n: nat, t: State)
    requires At(p, code, f, b, i, fr, flagLive, e, s) && i < |p.functions[f].blocks[b].instructions|
    requires instr == p.functions[f].blocks[b].instructions[i]
    requires I.StepInstr(p, p.functions[f], instr, fr) == I.Done(v) && I.InstrClean(instr, fr, flagLive)
    ensures WellFormed(s) && Run(code, s, n) == Some(t) && Returned(e, v, s.mem, t) && Keeps(code, e.sp, s, n)
  {
    hide *;
    AtMatches(p, code, f, b, i, fr, flagLive, e, s);
    AtStarts(p, code, f, b, i, fr, flagLive, e, s, instr);
    DoneMeans(p, p.functions[f], instr, fr, v);
    CleanOperands(instr, fr, flagLive);
    n := |InstrAsm(instr, FnFrame(p.functions[f]))|;
    if instr.opcode == RET {
      t := RetSim(code, p.functions[f], e, fr, flagLive, s, instr);
    } else {
      t := RetVoidSim(code, p.functions[f], e, fr, flagLive, s, instr);
    }
  }

  // ---------------------------------------------------------------- whole runs

  lemma ReturnedLater(e: Entry, v: I.Value, mem: map<int, UInt64>, mem': map<int, UInt64>, t: State)
    requires SameAbove(e.sp, mem, mem') && Returned(e, v, mem', t)
    ensures Returned(e, v, mem, t)
  {
    hide Load, Unsigned;
  }

  // How a clean run that returns v goes on after one instruction.
  ghost predicate GoesOn(p: Program, f: nat, b: nat, i: nat, fr: I.Frame, flagLive: bool, fuel: nat, v: I.Value, instr: Instruction) {
    && f < |p.functions| && fuel > 0
    && match I.StepInstr(p, p.functions[f], instr, fr)
       case Fails => false
       case Done(w) => w == v
       case Next(fr') => CleanlyReturns(p, f, b, i + 1, fr', flagLive || instr.opcode == CMP, fuel - 1, v)
       case Goto(b') => CleanlyReturns(p, f, b', 0, fr, flagLive, fuel - 1, v)
       case Invoke(g, args) =>
         g < |p.functions| && I.CleanCall(p, g, args, fuel - 1) && I.Call(p, g, args, fuel - 1).Returned?
         && CleanlyReturns(p, f, b, i + 1, I.AfterCall(fr, instr, I.Call(p, g, args, fuel - 1).v), false, fuel - 1, v)
  }

  ghost predicate CleanlyReturns(p: Program, f: nat, b: nat, i: nat, fr: I.Frame, flagLive: bool, fuel: nat, v: I.Value) {
    I.InProgram(p, f, b, i) && I.Exec(p, f, b, i, fr, fuel) == I.Returned(v) && I.CleanFrom(p, f, b, i, fr, flagLive, fuel)
  }

  lemma ExecMeans(p: Program, f: nat, b: nat, i: nat, fr: I.Frame, flagLive: bool, fuel: nat, v: I.Value)
    requires CleanlyReturns(p, f, b, i, fr, flagLive, fuel, v)
    ensures f < |p.functions| && b < |p.functions[f].blocks| && i < |p.functions[f].blocks[b].instructions| && fuel > 0
    ensures I.InstrClean(p.functions[f].blocks[b].instructions[i], fr, flagLive)
    ensures GoesOn(p, f, b, i, fr, flagLive, fuel, v, p.functions[f].blocks[b].instructions[i])
  {
    hide I.StepInstr, I.InstrClean, I.AfterCall;
    I.StepInRange(p, p.functions[f], p.functions[f].blocks[b].instructions[i], fr);
  }

  lemma CallMeans(p: Program, g: nat, args: seq<I.Value>, fuel: nat, v: I.Value)
    requires g < |p.functions| && I.CleanCall(p, g, args, fuel) && I.Call(p, g, args, fuel) == I.Returned(v)
    ensures |args| == |p.functions[g].params| && |p.functions[g].blocks| > 0
    ensures |args| <= 0x1_0000_0000 ==> CleanlyReturns(p, g, 0, 0, I.ArgFrame(args), false, fuel, v)
  {
    hide I.Exec, I.CleanFrom, I.ArgFrame;
  }

  lemma RunOn(code: seq<Byte>, e: Entry, v: I.Value, s: State, m: nat, t: State, n: nat, u: State)
    requires WellFormed(s) && Run(code, s, m) == Some(t) && WellFormed(t) && Run(code, t, n) == Some(u)
    requires SameAbove(e.sp, s.mem, t.mem) && Returned(e, v, t.mem, u) && Keeps(code, e.sp, s, m) && Keeps(code, e.sp, t, n)
    ensures Run(code, s, m + n) == Some(u) && Returned(e, v, s.mem, u) && Keeps(code, e.sp, s, m + n)
  {
    hide *;
    Then(code, e.sp, s, m, t, n);
    ReturnedLater(e, v, s.mem, t.mem, u);
  }

  // Forward simulation: from matching states, a clean run that returns v is followed by a run of the
  // machine that returns v to the caller, whatever the rest of the machine state is. Through all its steps, and
  // so through those of every call in it, sp stays at or below that of the caller and no word from there on
  // changes: the frames of live activations never overlap.
  lemma {:induction false} ExecSim(p: Program, code: seq<Byte>, f: nat, b: nat, i: nat, fr: I.Frame, flagLive: bool, fuel: nat,
                                   e: Entry, s: State, v: I.Value) returns (n: nat, t: State)
    requires At(p, code, f, b, i, fr, flagLive, e, s) && CleanlyReturns(p, f, b, i, fr, flagLive, fuel, v)
    ensures WellFormed(s) && Run(code, s, n) == Some(t) && Returned(e, v, s.mem, t) && Keeps(code, e.sp, s, n)
    decreases fuel, 0
  {
    hide *;
    ExecMeans(p, f, b, i, fr, flagLive, fuel, v);
    AtMatches(p, code, f, b, i, fr, flagLive, e, s);
    var instr := p.functions[f].blocks[b].instructions[i];
    GoesOnCases(p, f, b, i, fr, flagLive, fuel, v, instr);
    match I.StepInstr(p, p.functions[f], instr, fr) {
      case Done(w) =>
        n, t := DoneSim(p, code, f, b, i, fr, flagLive, e, s, instr, v);
      case Next(fr') =>
        var live := flagLive || instr.opcode == CMP;
        var m, u := NextSim(p, code, f, b, i, fr, flagLive, e, s, instr, fr');
        AtMatches(p, code, f, b, i + 1, fr', live, e, u);
        n, t := ExecSim(p, code, f, b, i + 1, fr', live, fuel - 1, e, u, v);
        RunOn(code, e, v, s, m, u, n, t);
        n := m + n;
      case Goto(b') =>
        GotoMeans(p, p.functions[f], instr, fr, b');
        CleanOperands(instr, fr, flagLive);
        var u := BranchSim(p, code, f, b, i, fr, flagLive, e, s, instr);
        AtMatches(p, code, f, b', 0, fr, flagLive, e, u);
        n, t := ExecSim(p, code, f, b', 0, fr, flagLive, fuel - 1, e, u, v);
        SameAboveSelf(e.sp, s.mem);
        RunOn(code, e, v, s, 1, u, n, t);
        n := 1 + n;
      case Invoke(g, args) =>
        var w := I.Call(p, g, args, fuel - 1).v;
        var m, u := InvokeSim(p, code, f, b, i, fr, flagLive, fuel, e, s, instr, g, args, w);
        AtMatches(p, code, f, b, i + 1, I.AfterCall(fr, instr, w), false, e, u);
        n, t := ExecSim(p, code, f, b, i + 1, I.AfterCall(fr, instr, w), false, fuel - 1, e, u, v);
        RunOn(code, e, v, s, m, u, n, t);
        n := m + n;
      case Fails => assert false;
    }
  }

  lemma GoesOnCases(p: Program, f: nat, b: nat, i: nat, fr: I.Frame, flagLive: bool, fuel: nat, v: I.Value, instr: Instruction)
    requires GoesOn(p, f, b, i, fr, flagLive, fuel, v, instr)
    ensures var step := I.StepInstr(p, p.functions[f], instr, fr);
      && !step.Fails?
      && (step.Done? ==> step.v == v)
      && (step.Next? ==> CleanlyReturns(p, f, b, i + 1, step.fr, flagLive || instr.opcode == CMP, fuel - 1, v))
      && (step.Goto? ==> CleanlyReturns(p, f, step.block, 0, fr, flagLive, fuel - 1, v))
      && (step.Invoke? ==> step.callee < |p.functions|)
      && (step.Invoke? ==> I.CleanCall(p, step.callee, step.args, fuel - 1))
      && (step.Invoke? ==> I.Call(p, step.callee, step.args, fuel - 1).Returned?)
      && (step.Invoke? ==> var w := I.Call(p, step.callee, step.args, fuel - 1).v;
                           CleanlyReturns(p, f, b, i + 1, I.AfterCall(fr, instr, w), false, fuel - 1, v))
  {
    hide I.StepInstr, CleanlyReturns, I.CleanCall, I.Call, I.AfterCall;
  }

  // A whole call, with what the caller does before and after it.
  lemma {:induction false} InvokeSim(p: Program, code: seq<Byte>, f: nat, b: nat, i: nat, fr: I.Frame, flagLive: bool, fuel: nat,
                                     e: Entry, s: State, instr: Instruction, g: nat, args: seq<I.Value>, w: I.Value)
    returns (n: nat, t: State)
    requires At(p, code, f, b, i, fr, flagLive, e, s) && i < |p.functions[f].blocks[b].instructions|
    requires instr == p.functions[f].blocks[b].instructions[i] && I.InstrClean(instr, fr, flagLive)
    requires I.StepInstr(p, p.functions[f], instr, fr) == I.Invoke(g, args) && g < |p.functions| && fuel > 0
    requires I.CleanCall(p, g, args, fuel - 1) && I.Call(p, g, args, fuel - 1) == I.Returned(w)
    ensures WellFormed(s) && Run(code, s, n) == Some(t) && SameAbove(e.sp, s.mem, t.mem) && Keeps(code, e.sp, s, n)
    ensures At(p, code, f, b, i + 1, I.AfterCall(fr, instr, w), false, e, t)
    decreases fuel - 1, 2
  {
    hide *;
    AtMatches(p, code, f, b, i, fr, flagLive, e, s);
    AtPieces(p, code, f, b, i, fr, flagLive, e, s);
    InvokeMeans(p, p.functions[f], instr, fr, g, args);
    CleanOperands(instr, fr, flagLive);
    CallMeans(p, g, args, fuel - 1, w);
    AtDomain(p, code, f, b, i, fr, flagLive, e, s);
    DomainAt(p, code, g);
    var k, u := CallSim(p, code, f, b, i, fr, flagLive, e, s, instr, args);
    Shape(u);
    var m, x := CallRunSim(p, code, g, args, fuel - 1, u, w);
    CalleeKeeps(p.functions[f], e, fr, flagLive, s, w, u.x[30], u.x[29], x);
    var l, y := ReturnSim(p, code, f, b, i, fr, flagLive, e, s, instr, w, x);
    FrameBelow(p.functions[f], e, fr, flagLive, s);
    KeepsHigher(code, u.sp, e.sp, u, m);
    Then(code, e.sp, s, k, u, m);
    Then(code, e.sp, s, k + m, x, l);
    SameAboveTrans(e.sp, s.mem, x.mem, y.mem);
    n, t := k + m + l, y;
  }

  lemma AtDomain(p: Program, code: seq<Byte>, f: nat, b: nat, i: nat, fr: I.Frame, flagLive: bool, e: Entry, s: State)
    requires At(p, code, f, b, i, fr, flagLive, e, s)
    ensures InPlace(p, code) && InDomain(p)
  {
    hide InPlace, InDomain, FnEmittable, Matches, InstrStart, Address;
  }

  // A function called with its arguments in registers returns to x30 with the frame of its caller intact.
  lemma {:induction false} CallRunSim(p: Program, code: seq<Byte>, g: nat, args: seq<I.Value>, fuel: nat, s: State, v: I.Value)
    returns (n: nat, t: State)
    requires InPlace(p, code) && InDomain(p) && g < |p.functions|
    requires I.CleanCall(p, g, args, fuel) && I.Call(p, g, args, fuel) == I.Returned(v)
    requires WellFormed(s) && s.sp % 16 == 0 && s.pc == Address(p, g, 0)
    requires |args| <= 8 && forall j :: 0 <= j < |args| ==> s.x[j] == Unsigned(args[j].n)
    ensures Run(code, s, n) == Some(t) && Returned(Entry(s.sp, s.x[29], s.x[30]), v, s.mem, t) && Keeps(code, s.sp, s, n)
    decreases fuel, 1
  {
    hide *;
    CallMeans(p, g, args, fuel, v);
    Shape(s);
    var e := Entry(s.sp, s.x[29], s.x[30]);
    var m, u := EntrySim(p, code, g, args, s);
    AtMatches(p, code, g, 0, 0, I.ArgFrame(args), false, e, u);
    n, t := ExecSim(p, code, g, 0, 0, I.ArgFrame(args), false, fuel, e, u, v);
    RunOn(code, e, v, s, m, u, n, t);
    n := m + n;
  }
}
