// What the interpreter computes and when it throws, said without the interpreter: the arithmetic of i64, the order
// that branches test, and every error of the modelled instructions.

module InterpreterLaws {
  import opened Ast
  import opened Arm64Machine
  import opened Arm64Encoder
  import I = Interpreter

  // ---------------------------------------------------------------- arithmetic

  // r is what division toward zero leaves of x.
  predicate Remainder(x: int, y: int, r: int) {
    Abs(r) < Abs(y) && (r != 0 ==> (r < 0 <==> x < 0))
  }

  // q is the quotient of x by y, rounded toward zero.
  predicate Quotient(x: int, y: int, q: int) { Remainder(x, y, x - q * y) }

  lemma Signs(a: int, b: int)
    ensures (-a) * b == -(a * b) && a * (-b) == -(a * b) && (-a) * (-b) == a * b
  {
  }

  lemma TruncDivDivides(x: int, y: int)
    requires y != 0
    ensures Quotient(x, y, TruncDiv(x, y))
  {
    var q, m := Divided(Abs(x), Abs(y));
    TruncDivIs(x, y, q);
    hide TruncDiv;
    Signs(q, Abs(y));
    assert y == if y < 0 then -1 * Abs(y) else Abs(y);
    hide Remainder;
    SignedRemainder(x, y, q * Abs(y), m);
    assert TruncDiv(x, y) * y == if x < 0 then -(q * Abs(y)) else q * Abs(y);
  }

  lemma Divided(a: nat, b: nat) returns (q: int, m: int)
    requires b > 0
    ensures a == q * b + m && 0 <= m < b && q == a / b
  {
    q, m := a / b, a % b;
  }

  lemma TruncDivIs(x: int, y: int, q: int)
    requires y != 0 && q == Abs(x) / Abs(y)
    ensures TruncDiv(x, y) == if (x < 0) == (y < 0) then q else -q
  {
  }

  lemma SignedRemainder(x: int, y: int, product: int, m: int)
    requires Abs(x) == product + m && 0 <= m < Abs(y)
    ensures Remainder(x, y, x - if x < 0 then -product else product)
  {
  }

  // There is only one.
  lemma QuotientUnique(x: int, y: int, p: int, q: int)
    requires y != 0 && Quotient(x, y, p) && Quotient(x, y, q)
    ensures p == q
  {
    SameSigns(x, y, x - p * y, x - q * y);
    Spread(q - p, p, q, y);
    hide Remainder, Quotient;
    TooLarge(q - p, y);
  }

  lemma Spread(d: int, p: int, q: int, y: int)
    requires d == q - p
    ensures d * y == q * y - p * y
  {
  }

  lemma TooLarge(d: int, y: int)
    requires Abs(d * y) < Abs(y)
    ensures d == 0
  {
    Signs(d, y);
    if d > 0 && y > 0 { AtLeast(d, y); }
    if d > 0 && y < 0 { Signs(d, -y); AtLeast(d, -y); }
    if d < 0 && y > 0 { Signs(-d, y); AtLeast(-d, y); }
    if d < 0 && y < 0 { AtLeast(-d, -y); }
  }

  lemma SameSigns(x: int, y: int, r: int, s: int)
    requires Remainder(x, y, r) && Remainder(x, y, s)
    ensures Abs(r - s) < Abs(y)
  {
  }

  lemma AtLeast(a: nat, b: nat)
    requires a > 0
    ensures a * b >= b
  {
  }

  // v is the number that fits 64 bits and differs from w by a multiple of 2^64.
  predicate Wraps(w: int, v: int) { -TWO63 <= v < TWO63 && (w - v) % TWO64 == 0 }

  lemma WrapI64Wraps(w: int)
    ensures Wraps(w, I.WrapI64(w))
  {
    var d := w / TWO64;
    assert w == d * TWO64 + w % TWO64;
    MultipleOf(d);
    MultipleOf(d + 1);
  }

  lemma MultipleOf(d: int)
    ensures (d * TWO64) % TWO64 == 0
  {
  }

  // Sums, differences and products wrap; a quotient is rounded toward zero and wraps; division by zero has none.
  lemma ArithMeans(op: UInt16, x: Int64, y: Int64)
    requires IsArith(op)
    ensures I.Arith(op, x, y).Some? <==> !(op == DIV && y == 0)
    ensures I.Arith(op, x, y).Some? ==> I.Arith(op, x, y).value.ty == I64
    ensures op == ADD ==> Wraps(x + y, I.Arith(op, x, y).value.n)
    ensures op == SUB ==> Wraps(x - y, I.Arith(op, x, y).value.n)
    ensures op == MUL ==> Wraps(x * y, I.Arith(op, x, y).value.n)
    ensures op == DIV && y != 0 ==> exists q: int :: Quotient(x, y, q) && Wraps(q, I.Arith(op, x, y).value.n)
  {
    hide Wraps, Quotient, TruncDiv, I.WrapI64;
    WrapI64Wraps(x + y);
    WrapI64Wraps(x - y);
    WrapI64Wraps(x * y);
    if op == DIV && y != 0 {
      TruncDivDivides(x, y);
      WrapI64Wraps(TruncDiv(x, y));
    }
  }

  // ---------------------------------------------------------------- branches

  // A branch behind a comparison is taken exactly when the operands stand in its order.
  lemma BranchMeans(op: UInt16, x: Int64, y: Int64)
    requires IsConditional(op)
    ensures I.ShouldBranch(op, I.Compare(x, y)) <==>
      if op == BEQ then x == y else if op == BNE then x != y else if op == BLT then x < y
      else if op == BGT then x > y else if op == BLE then x <= y else x >= y
  {
  }

  // Before any comparison of an activation the flag says equal.
  lemma FirstBranch(op: UInt16, args: seq<I.Value>)
    requires IsConditional(op) && |args| <= 0x1_0000_0000
    ensures I.ShouldBranch(op, I.ArgFrame(args).cmpFlag) <==> op == BEQ || op == BLE || op == BGE
  {
  }

  // ---------------------------------------------------------------- errors

  predicate HoldsZero(fr: I.Frame, op: Operand) {
    match op
    case Register(r) => r !in fr.regs || fr.regs[r].n == 0
    case ImmediateInt(n) => n == 0
    case _ => false
  }

  predicate NoNumber(op: Operand) { !op.Register? && !op.ImmediateInt? }

  predicate NamesBlock(fn: Function, name: string) { exists b :: 0 <= b < |fn.blocks| && fn.blocks[b].labelName == name }

  predicate NamesFunction(p: Program, name: string) { exists f :: 0 <= f < |p.functions| && p.functions[f].name == name }

  predicate BranchTaken(op: UInt16, flag: int) {
    (op == BEQ && flag == 0) || (op == BNE && flag != 0) || (op == BLT && flag < 0) || (op == BGT && flag > 0)
    || (op == BLE && flag <= 0) || (op == BGE && flag >= 0)
  }

  // What makes the interpreter throw, for the modelled instructions on i64: an operand that is no number (or
  // missing), a division by zero, a branch that is taken to no block, a call of no function. Other opcodes count as
  // failing, like everything outside the model.
  predicate Throws(p: Program, fn: Function, instr: Instruction, fr: I.Frame) {
    var op, ops := instr.opcode, instr.operands;
    if op == MOV || op == RET then ops == [] || NoNumber(ops[0])
    else if IsArith(op) || op == CMP then
      |ops| < 2 || NoNumber(ops[0]) || NoNumber(ops[1]) || (op == DIV && HoldsZero(fr, ops[1]))
    else if op == JMP || IsConditional(op) then
      ops == [] || ((op == JMP || BranchTaken(op, fr.cmpFlag)) && !NamesBlock(fn, OperandName(ops[0])))
    else if op == CALL then
      ops == [] || !NamesFunction(p, OperandName(ops[0])) || exists a :: 1 <= a < |ops| && NoNumber(ops[a])
    else op != RETVOID
  }

  predicate OnI64(instr: Instruction) {
    instr.opcode == MOV || instr.opcode == RET || instr.opcode == CMP || IsArith(instr.opcode) ==> instr.ty == I64
  }

  lemma ReadsNumber(fr: I.Frame, op: Operand)
    ensures I.ReadOperand(fr, op).None? <==> NoNumber(op)
    ensures !NoNumber(op) ==> (I.ReadOperand(fr, op).value.n == 0 <==> HoldsZero(fr, op))
  {
  }

  lemma {:induction false} ReadsNumbers(fr: I.Frame, ops: seq<Operand>)
    ensures I.ReadArgs(fr, ops).None? <==> exists a :: 0 <= a < |ops| && NoNumber(ops[a])
  {
    hide NoNumber, I.ReadOperand;
    if ops != [] {
      var n := |ops| - 1;
      ReadsNumbers(fr, ops[..n]);
      ReadsNumber(fr, ops[n]);
      if I.ReadArgs(fr, ops[..n]).None? {
        var a :| 0 <= a < n && NoNumber(ops[..n][a]);
        assert NoNumber(ops[a]);
      } else if I.ReadArgs(fr, ops).Some? {
        forall a | 0 <= a < |ops| ensures !NoNumber(ops[a]) {
          if a < n { assert !NoNumber(ops[..n][a]); }
        }
      }
    }
  }

  lemma BlockNames(fn: Function, name: string)
    ensures name in IndexMap(BlockLabels(fn.blocks)) <==> NamesBlock(fn, name)
  {
    var labels := BlockLabels(fn.blocks);
    IndexMapIsLast(labels);
    hide IndexMap;
    if name in labels {
      var b :| 0 <= b < |labels| && labels[b] == name;
      assert fn.blocks[b].labelName == name;
    }
    if NamesBlock(fn, name) {
      var b :| 0 <= b < |fn.blocks| && fn.blocks[b].labelName == name;
      assert labels[b] == name;
    }
  }

  lemma FunctionsNamed(p: Program, name: string)
    ensures name in IndexMap(FunctionNames(p.functions)) <==> NamesFunction(p, name)
  {
    var names := FunctionNames(p.functions);
    IndexMapIsLast(names);
    hide IndexMap;
    if name in names {
      var f :| 0 <= f < |names| && names[f] == name;
      assert p.functions[f].name == name;
    }
    if NamesFunction(p, name) {
      var f :| 0 <= f < |p.functions| && p.functions[f].name == name;
      assert names[f] == name;
    }
  }

  // An instruction on i64 fails exactly when the interpreter throws.
  lemma FailsExactly(p: Program, fn: Function, instr: Instruction, fr: I.Frame)
    requires OnI64(instr)
    ensures I.StepInstr(p, fn, instr, fr).Fails? <==> Throws(p, fn, instr, fr)
  {
    var ops := instr.operands;
    if |ops| > 0 {
      ReadsNumber(fr, ops[0]);
      BlockNames(fn, OperandName(ops[0]));
      FunctionsNamed(p, OperandName(ops[0]));
      ReadsNumbers(fr, ops[1..]);
      LaterOperands(ops);
    }
    if |ops| > 1 { ReadsNumber(fr, ops[1]); }
    if IsArith(instr.opcode) && |ops| > 1 && !NoNumber(ops[0]) && !NoNumber(ops[1]) {
      ArithMeans(instr.opcode, I.ReadOperand(fr, ops[0]).value.n, I.ReadOperand(fr, ops[1]).value.n);
    }
    hide NoNumber, HoldsZero, I.ReadOperand, I.ReadArgs, IndexMap, NamesBlock, NamesFunction, I.Arith, Quotient, Wraps, OperandName;
    Opcodes(instr.opcode);
  }

  lemma LaterOperands(ops: seq<Operand>)
    requires |ops| > 0
    ensures (exists a :: 1 <= a < |ops| && NoNumber(ops[a])) <==> (exists a :: 0 <= a < |ops[1..]| && NoNumber(ops[1..][a]))
  {
    hide NoNumber;
    if a :| 1 <= a < |ops| && NoNumber(ops[a]) { assert NoNumber(ops[1..][a - 1]); }
    if a :| 0 <= a < |ops[1..]| && NoNumber(ops[1..][a]) { assert NoNumber(ops[a + 1]); }
  }

  lemma Opcodes(op: UInt16)
    ensures IsConditional(op) ==> forall flag :: I.ShouldBranch(op, flag) == BranchTaken(op, flag)
  {
  }

  // ...and then the run is stuck: for every program, frame and bound on the steps.
  lemma ErrorsStick(p: Program, f: nat, b: nat, i: nat, fr: I.Frame, fuel: nat)
    requires I.InProgram(p, f, b, i) && fuel > 0
    requires i < |p.functions[f].blocks[b].instructions| && OnI64(p.functions[f].blocks[b].instructions[i])
    requires Throws(p, p.functions[f], p.functions[f].blocks[b].instructions[i], fr)
    ensures I.Exec(p, f, b, i, fr, fuel) == I.Stuck
  {
    hide Throws, I.StepInstr;
    FailsExactly(p, p.functions[f], p.functions[f].blocks[b].instructions[i], fr);
    I.ExecStep(p, f, b, i, fr, fuel);
  }

  // So is a division by zero in particular.
  lemma DivisionByZeroSticks(p: Program, f: nat, b: nat, i: nat, fr: I.Frame, fuel: nat)
    requires I.InProgram(p, f, b, i) && i < |p.functions[f].blocks[b].instructions| && fuel > 0
    requires var instr := p.functions[f].blocks[b].instructions[i];
      instr.opcode == DIV && instr.ty == I64 && |instr.operands| >= 2 && HoldsZero(fr, instr.operands[1])
    ensures I.Exec(p, f, b, i, fr, fuel) == I.Stuck
  {
    hide HoldsZero;
    ErrorsStick(p, f, b, i, fr, fuel);
  }

  // Running off the end of a block, a wrong number of arguments and a function without blocks are errors too, and
  // an error of a callee is one of its caller.
  lemma OtherErrors(p: Program, f: nat, b: nat, i: nat, fr: I.Frame, args: seq<I.Value>, fuel: nat)
    requires f < |p.functions|
    ensures |args| != |p.functions[f].params| || p.functions[f].blocks == [] ==> I.Call(p, f, args, fuel) == I.Stuck
    ensures I.InProgram(p, f, b, i) && i == |p.functions[f].blocks[b].instructions| ==> I.Exec(p, f, b, i, fr, fuel) == I.Stuck
    ensures I.InProgram(p, f, b, i) && i < |p.functions[f].blocks[b].instructions| && fuel > 0 ==>
      var step := I.StepInstr(p, p.functions[f], p.functions[f].blocks[b].instructions[i], fr);
      (step.Invoke? && step.callee < |p.functions| && I.Call(p, step.callee, step.args, fuel - 1) == I.Stuck) ==>
        I.Exec(p, f, b, i, fr, fuel) == I.Stuck
  {
    if I.InProgram(p, f, b, i) {
      I.ExecEnds(p, f, b, i, fr, fuel);
      if i < |p.functions[f].blocks[b].instructions| && fuel > 0 { I.ExecStep(p, f, b, i, fr, fuel); }
    }
    hide I.StepInstr, I.Exec;
  }

  // Argument a of a call is what its operand reads as in the caller, and register a of the callee holds it, however
  // many there are; every other register is unwritten.
  lemma ArgumentsArrive(p: Program, instr: Instruction, fr: I.Frame, r: UInt32)
    requires |instr.operands| >= 1 && |instr.operands| <= 0x1_0000_0000 && I.CallStep(p, instr, fr).Invoke?
    ensures var step := I.CallStep(p, instr, fr);
      && |step.args| == |instr.operands| - 1 && NamesFunction(p, OperandName(instr.operands[0]))
      && step.callee < |p.functions| && p.functions[step.callee].name == OperandName(instr.operands[0])
      && I.ReadOperand(I.ArgFrame(step.args), Register(r)) ==
         (if r < |step.args| then I.ReadOperand(fr, instr.operands[r + 1]) else Some(I.UNWRITTEN))
  {
    var name, args := OperandName(instr.operands[0]), I.ReadArgs(fr, instr.operands[1..]).value;
    FunctionsNamed(p, name);
    IndexMapIsLast(FunctionNames(p.functions));
    hide IndexMap, NamesFunction;
    ArgumentsAre(fr, instr.operands[1..]);
    if r < |args| { assert instr.operands[1..][r] == instr.operands[r + 1]; }
  }

  lemma {:induction false} ArgumentsAre(fr: I.Frame, ops: seq<Operand>)
    requires I.ReadArgs(fr, ops).Some?
    ensures var args := I.ReadArgs(fr, ops).value;
      |args| == |ops| && forall a :: 0 <= a < |ops| ==> I.ReadOperand(fr, ops[a]) == Some(args[a])
  {
    hide I.ReadOperand;
    if ops != [] {
      var n := |ops| - 1;
      ArgumentsAre(fr, ops[..n]);
      assert forall a :: 0 <= a < n ==> ops[..n][a] == ops[a];
    }
  }

  // A return without a value gives the caller's destination, if there is one, a value that reads as zero; so does
  // a register that was never written.
  lemma NoValueIsZero(fr: I.Frame, r: UInt32, instr: Instruction)
    ensures r !in fr.regs ==> I.ReadOperand(fr, Register(r)).Some? && I.ReadOperand(fr, Register(r)).value.n == 0
    ensures instr.hasDest ==> var after := I.AfterCall(fr, instr, I.NO_VALUE);
      I.ReadOperand(after, Register(instr.dest)).Some? && I.ReadOperand(after, Register(instr.dest)).value.n == 0
    ensures !instr.hasDest ==> I.AfterCall(fr, instr, I.NO_VALUE) == fr
  {
  }
}
