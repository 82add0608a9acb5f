// What the code of a system call does (src/codegen/arm64/encoder.cpp): the arguments and the number of the call
// are in place when it reaches the svc word, and the result that is in x0 behind it goes to the destination.

module NativeSyscalls {
  import opened Ast
  import opened Arm64Machine
  import opened Arm64Words
  import opened Arm64Encoder
  import opened NativeEffects

  // ---------------------------------------------------------------- which calls there are

  // The system calls of include/uasm/syscall_ids.h that the backend knows, and their numbers on Darwin.
  datatype Known = Known(id: int, number: int)

  const KNOWN: seq<Known> := [
    Known(0, 1), // exit
    Known(2, 3), // read
    Known(1, 4), // write
    Known(3, 5), // open
    Known(4, 6), // close
    Known(7, 10), // unlink
    Known(12, 12), // chdir
    Known(19, 20), // getpid
    Known(9, 136), // mkdir
    Known(10, 137), // rmdir
    Known(58, 74) // mprotect
  ]

  lemma NumbersAreKnown(id: int)
    ensures NativeSyscall(id).Some? ==> Known(id, NativeSyscall(id).value) in KNOWN
    ensures forall k :: k in KNOWN ==> NativeSyscall(k.id) == Some(k.number)
  {
    assert KNOWN[0] == Known(0, 1) && KNOWN[1] == Known(2, 3) && KNOWN[2] == Known(1, 4) && KNOWN[3] == Known(3, 5);
    assert KNOWN[4] == Known(4, 6) && KNOWN[5] == Known(7, 10) && KNOWN[6] == Known(12, 12) && KNOWN[7] == Known(19, 20);
    assert KNOWN[8] == Known(9, 136) && KNOWN[9] == Known(10, 137) && KNOWN[10] == Known(58, 74);
  }

  // svc #0x80: the opcode of SVC with its 16-bit immediate at bit 5 (section C6.2). The machine does not execute it.
  lemma SvcWord()
    ensures SVC_WORD == 0xD400_0001 + 0x80 * 0x20 && Decode(SVC_WORD) == None
  {
  }

  predicate IsKernelCall(instr: Instruction) {
    Emittable(instr) && instr.opcode == SYSCALL && instr.operands[0].immInt != SYS_CPU_ARCH
  }

  // Register operands within the reach of a load.
  predicate SlotsInReach(instr: Instruction) {
    instr.dest < 4096 && forall a :: 0 <= a < |instr.operands| && instr.operands[a].Register? ==> instr.operands[a].reg < 4096
  }

  function CallId(instr: Instruction): int
    requires IsKernelCall(instr)
  {
    instr.operands[0].immInt
  }

  function CallNumber(instr: Instruction): (n: UInt32)
    requires IsKernelCall(instr)
    ensures Known(CallId(instr), n) in KNOWN
  {
    NumbersAreKnown(CallId(instr));
    NativeSyscall(CallId(instr)).value
  }

  function ArgWords(instr: Instruction): seq<Asm>
    requires IsKernelCall(instr)
  {
    ArgsAsm(instr.operands, ArgCount(instr.operands, 3))
  }

  function NumberWords(instr: Instruction): seq<Asm>
    requires IsKernelCall(instr)
  {
    RawAll(LoadImmWords(16, CallNumber(instr)))
  }

  lemma ListingOfCall(instr: Instruction, fs: nat)
    requires IsKernelCall(instr)
    ensures InstrAsm(instr, fs) == ArgWords(instr) + (NumberWords(instr) + [Raw(SVC_WORD), Raw(StrSlotWord(0, instr.dest))])
    ensures |NumberWords(instr)| == 4 && |InstrAsm(instr, fs)| == |ArgWords(instr)| + 6
  {
    assert CallNumber(instr) == NativeSyscall(instr.operands[0].immInt).value;
    SyscallListing(instr, fs);
    hide ArgsAsm, StrSlotWord, LoadImmWords, NativeSyscall, KNOWN, CallNumber, InstrAsm;
  }

  lemma SyscallListing(instr: Instruction, fs: nat)
    requires Emittable(instr) && instr.opcode == SYSCALL
    ensures InstrAsm(instr, fs) == SyscallAsm(instr)
  {
    hide SyscallAsm;
  }

  // ---------------------------------------------------------------- up to the svc word

  predicate HasValue(s: State, op: Operand, v: UInt64) { OperandOk(op) && v == OperandValue(s, op) }

  // Argument a is in x[a - 1], for at most three arguments, and the other registers are as before.
  ghost predicate ArgumentsIn(ops: seq<Operand>, s: State, x: seq<UInt64>)
    requires WellFormed(s) && |x| == 31
  {
    && (forall a :: 1 <= a <= 3 && a < |ops| ==> HasValue(s, ops[a], x[a - 1]))
    && (forall r :: 0 <= r < 31 && r != 16 && (r + 1 >= |ops| || r >= 3) ==> x[r] == s.x[r])
  }

  // The machine stands at the svc word with the arguments in place and the number of the call in x16, and nothing
  // else has changed.
  ghost predicate ReadyForKernel(ops: seq<Operand>, id: int, s: State, t: State)
    requires WellFormed(s)
  {
    WellFormed(t) && t == s.(x := t.x, pc := t.pc) && ArgumentsIn(ops, s, t.x) && Known(id, t.x[16]) in KNOWN
  }

  lemma ArgumentsAreLoaded(code: seq<Byte>, s: State, instr: Instruction) returns (t: State)
    requires WellFormed(s) && s.sp % 16 == 0 && IsKernelCall(instr) && SlotsInReach(instr)
    requires RawAt(code, s.pc, ArgWords(instr))
    ensures Run(code, s, |ArgWords(instr)|) == Some(t) && WellFormed(t) && t == s.(x := t.x, pc := s.pc + 4 * |ArgWords(instr)|)
    ensures ArgumentsIn(instr.operands, s, t.x)
  {
    hide Run, OperandValue, OperandAsm, RawAt, NativeSyscall, Keeps;
    var ops := instr.operands;
    t := LoadArgs(code, s, ops, ArgCount(ops, 3));
  }

  lemma UpToSvc(code: seq<Byte>, s: State, instr: Instruction, fs: nat) returns (n: nat, t: State)
    requires WellFormed(s) && s.sp % 16 == 0 && IsKernelCall(instr) && SlotsInReach(instr)
    requires RawAt(code, s.pc, InstrAsm(instr, fs))
    ensures Run(code, s, n) == Some(t) && ReadyForKernel(instr.operands, CallId(instr), s, t)
    ensures t.pc == s.pc + 4 * (|InstrAsm(instr, fs)| - 2) && Fetch(code, t.pc) == Decode(SVC_WORD)
  {
    hide Run, HasValue, OperandAsm, RawAt, NativeSyscall, Keeps, Fetch, Decode, ArgWords, NumberWords, InstrAsm, Loaded, StrSlotWord;
    hide Emittable, SlotsInReach, KNOWN, CallNumber, CallId, IsKernelCall, ArgumentsIn;
    ListingOfCall(instr, fs);
    var args, number, tail := ArgWords(instr), NumberWords(instr), [Raw(SVC_WORD), Raw(StrSlotWord(0, instr.dest))];
    RawAtSplit(code, s.pc, args, number + tail);
    RawAtSplit(code, s.pc + 4 * |args|, number, tail);
    var m := ArgumentsAreLoaded(code, s, instr);
    NumberIsLoaded(code, m, instr);
    t := Loaded(m, 16, CallNumber(instr), 4);
    n := |args| + 4;
    RunThen(code, s, |args|, m, 4);
    LoadedIs(m, CallNumber(instr), t);
    ArgumentsStay(instr.operands, s, m, t);
    FirstRaw(code, t.pc, tail);
  }

  lemma ArgumentsStay(ops: seq<Operand>, s: State, m: State, t: State)
    requires WellFormed(s) && WellFormed(m) && WellFormed(t) && ArgumentsIn(ops, s, m.x)
    requires forall r :: 0 <= r < 31 && r != 16 ==> t.x[r] == m.x[r]
    ensures ArgumentsIn(ops, s, t.x)
  {
    hide HasValue;
  }

  lemma NumberIsLoaded(code: seq<Byte>, s: State, instr: Instruction)
    requires WellFormed(s) && IsKernelCall(instr) && RawAt(code, s.pc, NumberWords(instr))
    ensures Run(code, s, 4) == Some(Loaded(s, 16, CallNumber(instr), 4))
  {
    hide Run, RawAt, Loaded, CallNumber, LoadImmWords, RawAll, Keeps, IsKernelCall;
    LoadImm(code, s, 16, CallNumber(instr));
  }

  lemma LoadedIs(m: State, v: UInt64, t: State)
    requires WellFormed(m) && t == Loaded(m, 16, v, 4)
    ensures WellFormed(t) && t == m.(x := t.x, pc := m.pc + 16) && t.x[16] == v && forall r :: 0 <= r < 31 && r != 16 ==> t.x[r] == m.x[r]
  {
  }

  // ---------------------------------------------------------------- behind it

  // Whatever the kernel did: the last word puts x0 into the slot of the destination, and changes nothing else.
  lemma ResultIsStored(code: seq<Byte>, pc: int, u: State, instr: Instruction, fs: nat)
    requires IsKernelCall(instr) && SlotsInReach(instr) && RawAt(code, pc, InstrAsm(instr, fs))
    requires WellFormed(u) && u.sp % 16 == 0 && u.pc == pc + 4 * (|InstrAsm(instr, fs)| - 1)
    ensures Run(code, u, 1) == Some(Next(u.(mem := u.mem[u.sp + 8 * instr.dest := u.x[0]])))
  {
    hide Run, RawAt, Keeps, Fetch, Decode, ArgWords, NumberWords, InstrAsm, StrSlotWord;
    ListingOfCall(instr, fs);
    var args, number, store := ArgWords(instr), NumberWords(instr), [Raw(StrSlotWord(0, instr.dest))];
    assert [Raw(SVC_WORD), Raw(StrSlotWord(0, instr.dest))] == [Raw(SVC_WORD)] + store;
    RawAtSplit(code, pc, args, number + ([Raw(SVC_WORD)] + store));
    RawAtSplit(code, pc + 4 * |args|, number, [Raw(SVC_WORD)] + store);
    RawAtSplit(code, pc + 4 * |args| + 16, [Raw(SVC_WORD)], store);
    FirstRaw(code, u.pc, store);
    StoreSlot(code, u, 0, instr.dest);
  }

  // The architecture is no system call: 3 goes to the destination.
  lemma ArchitectureIsStored(code: seq<Byte>, s: State, instr: Instruction, fs: nat) returns (n: nat, t: State)
    requires Emittable(instr) && instr.opcode == SYSCALL && instr.operands[0].immInt == 59 && instr.dest < 4096
    requires WellFormed(s) && s.sp % 16 == 0 && RawAt(code, s.pc, InstrAsm(instr, fs))
    ensures Run(code, s, n) == Some(t) && n == |InstrAsm(instr, fs)| && WellFormed(t)
    ensures t == s.(x := t.x, mem := s.mem[s.sp + 8 * instr.dest := 3], pc := s.pc + 4 * n)
    ensures forall r :: 0 <= r < 31 && r != 9 ==> t.x[r] == s.x[r]
  {
    hide Run, RawAt, Keeps, Fetch, Decode, StrSlotWord, LoadImmWords, RawAll;
    var load, store := RawAll(LoadImmWords(9, 3)), [Raw(StrSlotWord(9, instr.dest))];
    assert InstrAsm(instr, fs) == load + store;
    RawAtSplit(code, s.pc, load, store);
    LoadImm(code, s, 9, 3);
    var m := Loaded(s, 9, 3, 4);
    assert |load| == 4;
    FirstRaw(code, m.pc, store);
    StoreSlot(code, m, 9, instr.dest);
    n := 5;
    t := Next(m.(mem := m.mem[m.sp + 8 * instr.dest := m.x[9]]));
    RunThen(code, s, 4, m, 1);
  }
}
