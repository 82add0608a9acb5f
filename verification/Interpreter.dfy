// Interpreter::call of src/vm/interpreter.cpp, for the instructions the native backend also compiles:
// mov, add, sub, mul, div and cmp on i64, branches, call and ret.
//
// Whatever the interpreter rejects, and whatever lies outside this subset, is Stuck. A run is given a
// fuel, one unit for each instruction dispatched.

module Interpreter {
  import opened Ast
  import opened Arm64Machine
  import opened Arm64Encoder

  // ---------------------------------------------------------------- values

  // A register that was never written holds the default Value, whose type is i32; ret without a value
  // yields type void. asInt128 is n in every case.
  datatype Value = Value(ty: Byte, n: Int64)

  const UNWRITTEN: Value := Value(I32, 0)
  const NO_VALUE: Value := Value(VOID, 0)

  // static_cast<int64_t> of an Int128
  function WrapI64(v: int): Int64 {
    var u := v % TWO64;
    if u >= TWO63 then u - TWO64 else u
  }

  function FromInt128(v: int): Value { Value(I64, WrapI64(v)) }

  // arith on i64 operands; None for a division by zero.
  function Arith(op: UInt16, x: Int64, y: Int64): Option<Value>
    requires IsArith(op)
  {
    if op == ADD then Some(FromInt128(x + y))
    else if op == SUB then Some(FromInt128(x - y))
    else if op == MUL then Some(FromInt128(x * y))
    else if y == 0 then None
    else Some(FromInt128(TruncDiv(x, y)))
  }

  function Compare(x: Int64, y: Int64): int { if x < y then -1 else if x > y then 1 else 0 }

  predicate ShouldBranch(op: UInt16, flag: int) {
    if op == BEQ then flag == 0
    else if op == BNE then flag != 0
    else if op == BLT then flag < 0
    else if op == BGT then flag > 0
    else if op == BLE then flag <= 0
    else op == BGE && flag >= 0
  }

  // ---------------------------------------------------------------- frames

  datatype Frame = Frame(regs: map<UInt32, Value>, cmpFlag: int)

  function Reg(fr: Frame, r: UInt32): Value { if r in fr.regs then fr.regs[r] else UNWRITTEN }

  function SetReg(fr: Frame, r: UInt32, v: Value): Frame { fr.(regs := fr.regs[r := v]) }

  // readOperand; None where it throws, or needs a float.
  function ReadOperand(fr: Frame, op: Operand): Option<Value> {
    match op
    case Register(r) => Some(Reg(fr, r))
    case ImmediateInt(n) => Some(Value(I64, n))
    case _ => None
  }

  function ReadArgs(fr: Frame, ops: seq<Operand>): Option<seq<Value>> {
    if ops == [] then Some([])
    else
      var front := ReadArgs(fr, ops[..|ops| - 1]);
      var last := ReadOperand(fr, ops[|ops| - 1]);
      if front.None? || last.None? then None else Some(front.value + [last.value])
  }

  function ArgFrame(args: seq<Value>): Frame
    requires |args| <= 0x1_0000_0000
  {
    Frame(map r: UInt32 | 0 <= r < |args| :: args[r], 0)
  }

  // ---------------------------------------------------------------- one instruction

  datatype StepResult =
    | Next(fr: Frame)
    | Goto(block: nat)
    | Invoke(callee: nat, args: seq<Value>)
    | Done(v: Value)
    | Fails

  // resolveBlock
  function Resolve(fn: Function, target: string): StepResult {
    var index := IndexMap(BlockLabels(fn.blocks));
    if target in index then Goto(index[target]) else Fails
  }

  function BinaryStep(instr: Instruction, fr: Frame): StepResult
    requires |instr.operands| >= 2 && (IsArith(instr.opcode) || instr.opcode == CMP)
  {
    var a := ReadOperand(fr, instr.operands[0]);
    var b := ReadOperand(fr, instr.operands[1]);
    if a.None? || b.None? then Fails
    else if instr.opcode == CMP then Next(fr.(cmpFlag := Compare(a.value.n, b.value.n)))
    else
      match Arith(instr.opcode, a.value.n, b.value.n)
      case Some(v) => Next(SetReg(fr, instr.dest, v))
      case None => Fails
  }

  function CallStep(p: Program, instr: Instruction, fr: Frame): StepResult
    requires |instr.operands| >= 1
  {
    var index := IndexMap(FunctionNames(p.functions));
    var name := OperandName(instr.operands[0]);
    var args := ReadArgs(fr, instr.operands[1..]);
    if name !in index || args.None? then Fails else Invoke(index[name], args.value)
  }

  // The dispatch on one instruction.
  function StepInstr(p: Program, fn: Function, instr: Instruction, fr: Frame): StepResult {
    var op := instr.opcode;
    if !WellShaped(instr) then Fails
    else if op == MOV then
      var v := ReadOperand(fr, instr.operands[0]);
      if instr.ty != I64 || v.None? then Fails else Next(SetReg(fr, instr.dest, v.value))
    else if IsArith(op) || op == CMP then
      if instr.ty != I64 then Fails else BinaryStep(instr, fr)
    else if op == JMP then Resolve(fn, OperandName(instr.operands[0]))
    else if IsConditional(op) then
      if ShouldBranch(op, fr.cmpFlag) then Resolve(fn, OperandName(instr.operands[0])) else Next(fr)
    else if op == CALL then CallStep(p, instr, fr)
    else if op == RET then
      var v := ReadOperand(fr, instr.operands[0]);
      if instr.ty != I64 || v.None? then Fails else Done(v.value)
    else if op == RETVOID then Done(NO_VALUE)
    else Fails
  }

  // ---------------------------------------------------------------- runs

  datatype Outcome = Returned(v: Value) | Stuck | OutOfFuel

  predicate InProgram(p: Program, f: nat, b: nat, i: nat) {
    f < |p.functions| && b < |p.functions[f].blocks| && i <= |p.functions[f].blocks[b].instructions|
  }

  lemma GotoInRange(fn: Function, target: string)
    ensures Resolve(fn, target).Goto? ==> Resolve(fn, target).block < |fn.blocks|
  {
    IndexMapIsLast(BlockLabels(fn.blocks));
  }

  lemma StepInRange(p: Program, fn: Function, instr: Instruction, fr: Frame)
    ensures StepInstr(p, fn, instr, fr).Goto? ==> StepInstr(p, fn, instr, fr).block < |fn.blocks|
    ensures StepInstr(p, fn, instr, fr).Invoke? ==> StepInstr(p, fn, instr, fr).callee < |p.functions|
  {
    IndexMapIsLast(FunctionNames(p.functions));
    if |instr.operands| > 0 { GotoInRange(fn, OperandName(instr.operands[0])); }
  }

  function AfterCall(fr: Frame, instr: Instruction, v: Value): Frame {
    if instr.hasDest then SetReg(fr, instr.dest, v) else fr
  }

  // The run of an activation of function f, from instruction i of block b on.
  function Exec(p: Program, f: nat, b: nat, i: nat, fr: Frame, fuel: nat): Outcome
    requires InProgram(p, f, b, i)
    decreases fuel, 0
  {
    var fn := p.functions[f];
    var instrs := fn.blocks[b].instructions;
    if i == |instrs| then Stuck
    else if fuel == 0 then OutOfFuel
    else
      StepInRange(p, fn, instrs[i], fr);
      match StepInstr(p, fn, instrs[i], fr)
      case Next(fr') => Exec(p, f, b, i + 1, fr', fuel - 1)
      case Goto(b') => Exec(p, f, b', 0, fr, fuel - 1)
      case Invoke(g, args) =>
        (match Call(p, g, args, fuel - 1)
         case Returned(v) => Exec(p, f, b, i + 1, AfterCall(fr, instrs[i], v), fuel - 1)
         case o => o)
      case Done(v) => Returned(v)
      case Fails => Stuck
  }

  function Call(p: Program, f: nat, args: seq<Value>, fuel: nat): Outcome
    requires f < |p.functions|
    decreases fuel, 1
  {
    var fn := p.functions[f];
    if |args| != |fn.params| || |fn.blocks| == 0 || |args| > 0x1_0000_0000 then Stuck
    else Exec(p, f, 0, 0, ArgFrame(args), fuel)
  }

  // What becomes of the run after the next instruction.
  lemma ExecStep(p: Program, f: nat, b: nat, i: nat, fr: Frame, fuel: nat)
    requires InProgram(p, f, b, i) && i < |p.functions[f].blocks[b].instructions| && fuel > 0
    ensures var fn := p.functions[f];
      var instr := fn.blocks[b].instructions[i];
      var step, whole := StepInstr(p, fn, instr, fr), Exec(p, f, b, i, fr, fuel);
      && (step.Next? ==> whole == Exec(p, f, b, i + 1, step.fr, fuel - 1))
      && (step.Goto? ==> step.block < |fn.blocks| && whole == Exec(p, f, step.block, 0, fr, fuel - 1))
      && (step.Invoke? ==> step.callee < |p.functions|)
      && (step.Invoke? ==>
            var o := Call(p, step.callee, step.args, fuel - 1);
            whole == if o.Returned? then Exec(p, f, b, i + 1, AfterCall(fr, instr, o.v), fuel - 1) else o)
      && (step.Done? ==> whole == Returned(step.v))
      && (step.Fails? ==> whole == Stuck)
  {
    StepInRange(p, p.functions[f], p.functions[f].blocks[b].instructions[i], fr);
    hide StepInstr, Call, AfterCall;
  }

  lemma ExecEnds(p: Program, f: nat, b: nat, i: nat, fr: Frame, fuel: nat)
    requires InProgram(p, f, b, i)
    ensures i == |p.functions[f].blocks[b].instructions| ==> Exec(p, f, b, i, fr, fuel) == Stuck
    ensures i < |p.functions[f].blocks[b].instructions| && fuel == 0 ==> Exec(p, f, b, i, fr, fuel) == OutOfFuel
  {
    hide StepInstr, Call, AfterCall;
  }

  // ---------------------------------------------------------------- the interpreter object

  class Machine {
    const program: Program
    var functionIndex: map<string, nat>

    ghost predicate Valid()
      reads this
    {
      functionIndex == IndexMap(FunctionNames(program.functions))
    }

    constructor (p: Program)
      ensures Valid() && program == p
    {
      program := p;
      functionIndex := map[];
      new;
      ghost var names := FunctionNames(p.functions);
      for i := 0 to |p.functions|
        invariant program == p
        invariant functionIndex == IndexMap(names[..i])
      {
        assert names[..i + 1][..i] == names[..i];
        functionIndex := functionIndex[p.functions[i].name := i];
      }
      assert names[..|names|] == names;
    }

    // readOperand over the arguments of a call
    method Arguments(fr: Frame, ops: seq<Operand>) returns (r: Option<seq<Value>>)
      ensures r == ReadArgs(fr, ops)
    {
      var args := [];
      for i := 0 to |ops|
        invariant ReadArgs(fr, ops[..i]) == Some(args)
      {
        assert ops[..i + 1][..i] == ops[..i];
        var v := ReadOperand(fr, ops[i]);
        if v.None? {
          NoArgs(fr, ops, i + 1);
          return None;
        }
        args := args + [v.value];
      }
      assert ops[..|ops|] == ops;
      r := Some(args);
    }

    // The dispatch loop: blocks in the outer loop, instructions in the inner one.
    method Run(f: nat, args: seq<Value>, fuel: nat) returns (o: Outcome)
      requires Valid() && f < |program.functions|
      ensures o == Call(program, f, args, fuel)
      decreases fuel
    {
      var fn := program.functions[f];
      if |args| != |fn.params| || |args| > 0x1_0000_0000 { return Stuck; }
      var fr := ArgFrame(args);
      if |fn.blocks| == 0 { return Stuck; }
      hide StepInstr, Exec, Call;
      var blockIdx: nat, left: nat := 0, fuel;
      ghost var whole := Exec(program, f, 0, 0, fr, fuel);
      while true
        invariant blockIdx < |fn.blocks| && left <= fuel
        invariant whole == Exec(program, f, blockIdx, 0, fr, left)
        decreases left
      {
        var instrs := fn.blocks[blockIdx].instructions;
        var jumped := false;
        var ii: nat := 0;
        var target: nat := 0;
        ghost var start := left;
        while ii < |instrs| && !jumped
          invariant 0 <= ii <= |instrs| && left <= start && blockIdx < |fn.blocks|
          invariant !jumped ==> whole == Exec(program, f, blockIdx, ii, fr, left)
          invariant jumped ==> target < |fn.blocks| && left < start && whole == Exec(program, f, target, 0, fr, left)
          decreases |instrs| - ii, !jumped
        {
          ExecEnds(program, f, blockIdx, ii, fr, left);
          if left == 0 { return OutOfFuel; }
          ExecStep(program, f, blockIdx, ii, fr, left);
          left := left - 1;
          var instr := instrs[ii];
          match StepInstr(program, fn, instr, fr) {
            case Next(fr') => fr := fr'; ii := ii + 1;
            case Goto(b) => target := b; jumped := true;
            case Invoke(g, callArgs) =>
              var result := Run(g, callArgs, left);
              if !result.Returned? { return result; }
              fr := AfterCall(fr, instr, result.v);
              ii := ii + 1;
            case Done(v) => return Returned(v);
            case Fails => return Stuck;
          }
        }
        if !jumped {
          ExecEnds(program, f, blockIdx, ii, fr, left);
          return Stuck;
        }
        blockIdx := target;
      }
    }
  }

  lemma NoArgs(fr: Frame, ops: seq<Operand>, n: nat)
    requires n <= |ops| && ReadArgs(fr, ops[..n]) == None
    ensures ReadArgs(fr, ops) == None
    decreases |ops|
  {
    if n == |ops| {
      assert ops[..n] == ops;
    } else {
      assert ops[..|ops| - 1][..n] == ops[..n];
      NoArgs(fr, ops[..|ops| - 1], n);
    }
  }

  // ---------------------------------------------------------------- clean runs

  // An operand that is an i64: in an all-i64 program, a register that was written in this activation,
  // and not with the result of a call that returned no value.
  predicate OperandClean(fr: Frame, op: Operand) { op.Register? ==> Reg(fr, op.reg).ty == I64 }

  predicate InstrClean(instr: Instruction, fr: Frame, flagLive: bool) {
    var ops := instr.operands;
    if IsConditional(instr.opcode) then flagLive
    else if instr.opcode == JMP || instr.opcode == RETVOID then true
    else if instr.opcode == CALL then forall a :: 1 <= a < |ops| ==> OperandClean(fr, ops[a])
    else
      && (|ops| > 0 ==> OperandClean(fr, ops[0]))
      && (|ops| > 1 && (IsArith(instr.opcode) || instr.opcode == CMP) ==> OperandClean(fr, ops[1]))
  }

  // A run is clean when every value it reads is an i64, and every conditional branch comes after a cmp
  // of the same activation with no call between them.
  ghost predicate CleanFrom(p: Program, f: nat, b: nat, i: nat, fr: Frame, flagLive: bool, fuel: nat)
    requires InProgram(p, f, b, i)
    decreases fuel, 0
  {
    var fn := p.functions[f];
    var instrs := fn.blocks[b].instructions;
    if i == |instrs| || fuel == 0 then true
    else
      StepInRange(p, fn, instrs[i], fr);
      && InstrClean(instrs[i], fr, flagLive)
      && match StepInstr(p, fn, instrs[i], fr)
         case Next(fr') => CleanFrom(p, f, b, i + 1, fr', flagLive || instrs[i].opcode == CMP, fuel - 1)
         case Goto(b') => CleanFrom(p, f, b', 0, fr, flagLive, fuel - 1)
         case Invoke(g, args) =>
           && CleanCall(p, g, args, fuel - 1)
           && (Call(p, g, args, fuel - 1).Returned? ==>
                 CleanFrom(p, f, b, i + 1, AfterCall(fr, instrs[i], Call(p, g, args, fuel - 1).v), false, fuel - 1))
         case _ => true
  }

  ghost predicate CleanCall(p: Program, f: nat, args: seq<Value>, fuel: nat)
    requires f < |p.functions|
    decreases fuel, 1
  {
    && (forall a :: 0 <= a < |args| ==> args[a].ty == I64)
    && (|args| == |p.functions[f].params| && |p.functions[f].blocks| > 0 && |args| <= 0x1_0000_0000 ==>
          CleanFrom(p, f, 0, 0, ArgFrame(args), false, fuel))
  }
}
