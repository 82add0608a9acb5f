// What each emitted sequence does to the machine, wherever it lies in the code.

module NativeEffects {
  import opened Ast
  import opened Bits
  import opened Arm64Machine
  import opened Arm64Words
  import opened Arm64Encoder

  // The raw words of a listing part stand in the code from byte `pc` on.
  ghost predicate RawAt(code: seq<Byte>, pc: int, l: seq<Asm>) {
    forall j :: 0 <= j < |l| && l[j].Raw? ==> Fetch(code, pc + 4 * j) == Decode(l[j].word % 0x1_0000_0000)
  }

  lemma RawAtSplit(code: seq<Byte>, pc: int, a: seq<Asm>, b: seq<Asm>)
    requires RawAt(code, pc, a + b)
    ensures RawAt(code, pc, a) && RawAt(code, pc + 4 * |a|, b)
  {
    hide Fetch, Decode;
    forall j | 0 <= j < |a| && a[j].Raw? ensures Fetch(code, pc + 4 * j) == Decode(a[j].word % 0x1_0000_0000) {
      assert (a + b)[j] == a[j];
    }
    forall j | 0 <= j < |b| && b[j].Raw? ensures Fetch(code, pc + 4 * |a| + 4 * j) == Decode(b[j].word % 0x1_0000_0000) {
      assert (a + b)[|a| + j] == b[j];
      assert pc + 4 * (|a| + j) == pc + 4 * |a| + 4 * j;
    }
  }

  lemma FirstRaw(code: seq<Byte>, pc: int, l: seq<Asm>)
    requires RawAt(code, pc, l) && |l| > 0 && l[0].Raw?
    ensures Fetch(code, pc) == Decode(l[0].word % 0x1_0000_0000)
  {
    hide Fetch, Decode;
    assert pc + 4 * 0 == pc;
  }

  // ---------------------------------------------------------------- composing runs

  lemma OneStep(code: seq<Byte>, s: State, m: MInstr)
    requires WellFormed(s) && Fetch(code, s.pc) == Some(m)
    ensures InRange(m) && Run(code, s, 1) == Execute(m, s)
  {
    hide Decode, Execute, InRange;
    DecodeInRange(FetchWord(code, s.pc));
    assert Run(code, s, 1) == match Step(code, s) case None => None case Some(t) => Run(code, t, 0);
  }

  lemma RunThen(code: seq<Byte>, s: State, m: nat, t: State, n: nat)
    requires WellFormed(s) && Run(code, s, m) == Some(t)
    ensures Run(code, s, m + n) == Run(code, t, n)
  {
    hide Step;
    RunCompose(code, s, m, n);
  }

  // ---------------------------------------------------------------- what a run keeps at every step

  // No word at or above an address has changed.
  ghost predicate SameAbove(a: int, mem: map<int, UInt64>, mem': map<int, UInt64>) {
    forall x :: x >= a ==> Load(mem', x) == Load(mem, x)
  }

  lemma SameAboveTrans(a: int, m1: map<int, UInt64>, m2: map<int, UInt64>, m3: map<int, UInt64>)
    requires SameAbove(a, m1, m2) && SameAbove(a, m2, m3)
    ensures SameAbove(a, m1, m3)
  {
  }

  lemma SameAboveSelf(a: int, mem: map<int, UInt64>)
    ensures SameAbove(a, mem, mem)
  {
  }

  lemma SameAboveHigher(a: int, b: int, mem: map<int, UInt64>, mem': map<int, UInt64>)
    requires SameAbove(a, mem, mem') && a <= b
    ensures SameAbove(b, mem, mem')
  {
    hide Load;
  }

  ghost predicate KeptAfter(code: seq<Byte>, top: int, s: State, k: nat)
    requires WellFormed(s)
  {
    var r := Run(code, s, k);
    r.Some? && r.value.sp <= top && SameAbove(top, s.mem, r.value.mem)
  }

  // Through all of n steps, sp stays at or below an address and no word from there on changes.
  ghost predicate Keeps(code: seq<Byte>, top: int, s: State, n: nat)
    requires WellFormed(s)
  {
    forall k :: 0 <= k <= n ==> KeptAfter(code, top, s, k)
  }

  lemma KeepsZero(code: seq<Byte>, top: int, s: State)
    requires WellFormed(s) && s.sp <= top
    ensures Keeps(code, top, s, 0)
  {
    hide Load;
  }

  lemma KeepsOne(code: seq<Byte>, top: int, s: State, t: State)
    requires WellFormed(s) && Run(code, s, 1) == Some(t) && s.sp <= top && t.sp <= top && SameAbove(top, s.mem, t.mem)
    ensures Keeps(code, top, s, 1)
  {
    hide Run, SameAbove;
    NoSteps(code, s);
    SameAboveSelf(top, s.mem);
  }

  lemma Quiet(code: seq<Byte>, s: State, t: State)
    requires WellFormed(s) && Run(code, s, 1) == Some(t) && t.sp == s.sp && t.mem == s.mem
    ensures Keeps(code, s.sp, s, 1)
  {
    hide Run, SameAbove;
    SameAboveSelf(s.sp, s.mem);
    KeepsOne(code, s.sp, s, t);
  }

  lemma KeepsHigher(code: seq<Byte>, a: int, b: int, s: State, n: nat)
    requires WellFormed(s) && Keeps(code, a, s, n) && a <= b
    ensures Keeps(code, b, s, n)
  {
    hide Run, SameAbove;
    forall k | 0 <= k <= n ensures KeptAfter(code, b, s, k) {
      assert KeptAfter(code, a, s, k);
      SameAboveHigher(a, b, s.mem, Run(code, s, k).value.mem);
    }
  }

  lemma KeepsEnd(code: seq<Byte>, top: int, s: State, n: nat, t: State)
    requires WellFormed(s) && Keeps(code, top, s, n) && Run(code, s, n) == Some(t)
    ensures t.sp <= top && SameAbove(top, s.mem, t.mem)
  {
    hide Run, SameAbove;
    assert KeptAfter(code, top, s, n);
  }

  // One run after another.
  lemma Then(code: seq<Byte>, top: int, s: State, m: nat, t: State, n: nat)
    requires WellFormed(s) && Run(code, s, m) == Some(t) && WellFormed(t)
    requires Keeps(code, top, s, m) && Keeps(code, top, t, n)
    ensures Run(code, s, m + n) == Run(code, t, n) && Keeps(code, top, s, m + n)
  {
    hide Run, SameAbove;
    RunThen(code, s, m, t, n);
    KeepsEnd(code, top, s, m, t);
    forall k | 0 <= k <= m + n ensures KeptAfter(code, top, s, k) {
      if k <= m {
        assert KeptAfter(code, top, s, k);
      } else {
        RunThen(code, s, m, t, k - m);
        assert KeptAfter(code, top, t, k - m);
        SameAboveTrans(top, s.mem, t.mem, Run(code, t, k - m).value.mem);
      }
    }
  }

  // ---------------------------------------------------------------- loads

  // A chunk put on top of the lower ones.
  lemma ChunkOnTop(low: nat, c: nat, hw: nat)
    requires c < 0x1_0000 && hw < 4
    requires hw == 0 ==> low == 0
    requires hw == 1 ==> low < 0x1_0000
    requires hw == 2 ==> low < 0x1_0000_0000
    requires hw == 3 ==> low < 0x1_0000_0000_0000
    ensures hw == 0 ==> ReplaceChunk(low, c, hw) == c
    ensures hw == 1 ==> ReplaceChunk(low, c, hw) == c * 0x1_0000 + low
    ensures hw == 2 ==> ReplaceChunk(low, c, hw) == c * 0x1_0000_0000 + low
    ensures hw == 3 ==> ReplaceChunk(low, c, hw) == c * 0x1_0000_0000_0000 + low
  {
    if hw == 1 {
      DivModUnique(low, 0x1_0000, 0, low);
      DivModUnique(low, 0x1_0000_0000, 0, low);
      DivModUnique(c * 0x1_0000 + low, TWO64, 0, c * 0x1_0000 + low);
    } else if hw == 2 {
      DivModUnique(low, 0x1_0000_0000, 0, low);
      DivModUnique(low, 0x1_0000_0000_0000, 0, low);
      DivModUnique(c * 0x1_0000_0000 + low, TWO64, 0, c * 0x1_0000_0000 + low);
    } else if hw == 3 {
      DivModUnique(low, 0x1_0000_0000_0000, 0, low);
      DivModUnique(c * 0x1_0000_0000_0000 + low, TWO64, 0, c * 0x1_0000_0000_0000 + low);
    }
  }

  lemma ChunksSum(imm: UInt64)
    ensures imm == imm / 0x1_0000_0000_0000 * 0x1_0000_0000_0000 + (imm / 0x1_0000_0000 % 0x1_0000 * 0x1_0000_0000
                   + (imm / 0x1_0000 % 0x1_0000 * 0x1_0000 + imm % 0x1_0000))
    ensures imm / 0x1_0000_0000_0000 < 0x1_0000
  {
    var q1 := imm / 0x1_0000;
    var q2 := q1 / 0x1_0000;
    var q3 := q2 / 0x1_0000;
    DivModUnique(imm, 0x1_0000_0000, q2, q1 % 0x1_0000 * 0x1_0000 + imm % 0x1_0000);
    DivModUnique(imm, 0x1_0000_0000_0000, q3, q2 % 0x1_0000 * 0x1_0000_0000 + q1 % 0x1_0000 * 0x1_0000 + imm % 0x1_0000);
  }

  // The four chunks put an immediate back together.
  lemma ChunksRebuild(imm: UInt64)
    ensures imm / 0x1_0000_0000_0000 < 0x1_0000
    ensures var v0 := ReplaceChunk(0, imm % 0x1_0000, 0);
            var v1 := ReplaceChunk(v0, imm / 0x1_0000 % 0x1_0000, 1);
            var v2 := ReplaceChunk(v1, imm / 0x1_0000_0000 % 0x1_0000, 2);
            ReplaceChunk(v2, imm / 0x1_0000_0000_0000, 3) == imm
  {
    hide ReplaceChunk;
    ChunksSum(imm);
    var c0, c1, c2, c3 := imm % 0x1_0000, imm / 0x1_0000 % 0x1_0000, imm / 0x1_0000_0000 % 0x1_0000, imm / 0x1_0000_0000_0000;
    ChunkOnTop(0, c0, 0);
    ChunkOnTop(c0, c1, 1);
    ChunkOnTop(c1 * 0x1_0000 + c0, c2, 2);
    ChunkOnTop(c2 * 0x1_0000_0000 + (c1 * 0x1_0000 + c0), c3, 3);
  }

  // s with register r set and pc after n words
  function Loaded(s: State, r: nat, v: UInt64, n: nat): State
    requires WellFormed(s) && r < 31
  {
    s.(x := s.x[r := v], pc := s.pc + 4 * n)
  }

  lemma LoadedTwice(s: State, r: nat, v: UInt64, w: UInt64, m: nat, n: nat)
    requires WellFormed(s) && r < 31
    ensures Loaded(Loaded(s, r, v, m), r, w, n) == Loaded(s, r, w, m + n)
  {
    assert s.x[r := v][r := w] == s.x[r := w];
  }

  lemma MovStep(code: seq<Byte>, s: State, rd: nat, chunk: nat, hw: nat)
    requires WellFormed(s) && rd < 31 && chunk < 0x1_0000 && hw < 4
    requires Fetch(code, s.pc) == Some(if hw == 0 then MovZ(rd, chunk, 0) else MovK(rd, chunk, hw))
    ensures Run(code, s, 1) == Some(Loaded(s, rd, ReplaceChunk(if hw == 0 then 0 else s.x[rd], chunk, hw), 1))
    ensures Keeps(code, s.sp, s, 1)
  {
    hide Fetch, Run, Keeps, ReplaceChunk;
    OneStep(code, s, if hw == 0 then MovZ(rd, chunk, 0) else MovK(rd, chunk, hw));
    Quiet(code, s, Loaded(s, rd, ReplaceChunk(if hw == 0 then 0 else s.x[rd], chunk, hw), 1));
  }

  lemma FetchImmWord(code: seq<Byte>, pc: int, rd: nat, imm: UInt64, i: nat)
    requires rd < 31 && i < 4 && RawAt(code, pc, RawAll(LoadImmWords(rd, imm)))
    ensures Fetch(code, pc + 4 * i) == Some(if i == 0 then MovZ(rd, ImmChunk(imm, 0), 0) else MovK(rd, ImmChunk(imm, i), i))
  {
    hide Fetch, Decode, ImmChunk, LoadImmWords;
    DecodeLoadImm(rd, imm, i);
    assert RawAll(LoadImmWords(rd, imm))[i] == Raw(LoadImmWords(rd, imm)[i]);
  }

  lemma LoadImm(code: seq<Byte>, s: State, rd: nat, imm: UInt64)
    requires WellFormed(s) && rd < 31 && RawAt(code, s.pc, RawAll(LoadImmWords(rd, imm)))
    ensures Run(code, s, 4) == Some(Loaded(s, rd, imm, 4)) && Keeps(code, s.sp, s, 4)
  {
    hide Fetch, Run, Keeps, Decode, ImmChunk, LoadImmWords, RawAll, ReplaceChunk, RawAt, Loaded;
    var c0, c1, c2, c3 := ImmChunk(imm, 0), ImmChunk(imm, 1), ImmChunk(imm, 2), ImmChunk(imm, 3);
    ChunkValue(imm, 0); ChunkValue(imm, 1); ChunkValue(imm, 2); ChunkValue(imm, 3);
    FetchImmWord(code, s.pc, rd, imm, 0);
    FetchImmWord(code, s.pc, rd, imm, 1);
    FetchImmWord(code, s.pc, rd, imm, 2);
    FetchImmWord(code, s.pc, rd, imm, 3);
    ChunksRebuild(imm);
    LoadImmSteps(code, s, rd, c0, c1, c2, c3);
  }

  lemma LoadImmSteps(code: seq<Byte>, s: State, rd: nat, c0: nat, c1: nat, c2: nat, c3: nat)
    requires WellFormed(s) && rd < 31 && c0 < 0x1_0000 && c1 < 0x1_0000 && c2 < 0x1_0000 && c3 < 0x1_0000
    requires Fetch(code, s.pc + 4 * 0) == Some(MovZ(rd, c0, 0)) && Fetch(code, s.pc + 4 * 1) == Some(MovK(rd, c1, 1))
    requires Fetch(code, s.pc + 4 * 2) == Some(MovK(rd, c2, 2)) && Fetch(code, s.pc + 4 * 3) == Some(MovK(rd, c3, 3))
    ensures var v := ReplaceChunk(ReplaceChunk(ReplaceChunk(ReplaceChunk(0, c0, 0), c1, 1), c2, 2), c3, 3);
            Run(code, s, 4) == Some(Loaded(s, rd, v, 4)) && Keeps(code, s.sp, s, 4)
  {
    hide Fetch, Run, Keeps, Decode, ReplaceChunk;
    var v0 := ReplaceChunk(0, c0, 0);
    var s1 := Loaded(s, rd, v0, 1);
    MovStep(code, s, rd, c0, 0);
    var v1 := ReplaceChunk(v0, c1, 1);
    var s2 := Loaded(s, rd, v1, 2);
    MovStep(code, s1, rd, c1, 1);
    LoadedTwice(s, rd, v0, v1, 1, 1);
    Then(code, s.sp, s, 1, s1, 1);
    var v2 := ReplaceChunk(v1, c2, 2);
    var s3 := Loaded(s, rd, v2, 3);
    MovStep(code, s2, rd, c2, 2);
    LoadedTwice(s, rd, v1, v2, 2, 1);
    Then(code, s.sp, s, 2, s2, 1);
    MovStep(code, s3, rd, c3, 3);
    LoadedTwice(s, rd, v2, ReplaceChunk(v2, c3, 3), 3, 1);
    Then(code, s.sp, s, 3, s3, 1);
  }

  lemma LoadSlot(code: seq<Byte>, s: State, rd: nat, slot: UInt32)
    requires WellFormed(s) && rd < 31 && slot < 4096 && s.sp % 16 == 0
    requires Fetch(code, s.pc) == Decode(LdrSlotWord(rd, slot) % 0x1_0000_0000)
    ensures Run(code, s, 1) == Some(Loaded(s, rd, Load(s.mem, s.sp + 8 * slot), 1)) && Keeps(code, s.sp, s, 1)
  {
    hide Fetch, Run, Keeps, Decode, StrSlotWord, LdrSlotWord, Load, ReplaceChunk, TruncDiv, SubFlags, Holds, Signed, Unsigned, WrapMul;
    DecodeSlot(rd, slot);
    OneStep(code, s, LdrImm(rd, 31, slot));
    Quiet(code, s, Loaded(s, rd, Load(s.mem, s.sp + 8 * slot), 1));
  }

  // The value an operand has for the machine.
  function OperandValue(s: State, op: Operand): UInt64
    requires OperandOk(op)
  {
    if op.Register? then Load(s.mem, s.sp + 8 * op.reg) else Unsigned(op.immInt)
  }

  lemma LoadOperand(code: seq<Byte>, s: State, rd: nat, op: Operand)
    requires WellFormed(s) && rd < 31 && s.sp % 16 == 0 && OperandOk(op) && (op.Register? ==> op.reg < 4096)
    requires RawAt(code, s.pc, OperandAsm(rd, op))
    ensures Run(code, s, |OperandAsm(rd, op)|) == Some(Loaded(s, rd, OperandValue(s, op), |OperandAsm(rd, op)|))
    ensures Keeps(code, s.sp, s, |OperandAsm(rd, op)|)
  {
    hide Fetch, Run, Keeps, Decode, LdrSlotWord, Load, Loaded, RawAt, LoadImmWords, RawAll;
    if op.Register? {
      FirstRaw(code, s.pc, OperandAsm(rd, op));
      LoadSlot(code, s, rd, op.reg);
    } else {
      LoadImm(code, s, rd, Unsigned(op.immInt));
    }
  }

  // ---------------------------------------------------------------- stores, the frame and the return

  lemma StoreSlot(code: seq<Byte>, s: State, rt: nat, slot: UInt32)
    requires WellFormed(s) && rt < 31 && slot < 4096 && s.sp % 16 == 0
    requires Fetch(code, s.pc) == Decode(StrSlotWord(rt, slot) % 0x1_0000_0000)
    ensures Run(code, s, 1) == Some(Next(s.(mem := s.mem[s.sp + 8 * slot := s.x[rt]])))
    ensures Keeps(code, s.sp + 8 * slot + 8, s, 1)
  {
    hide Fetch, Run, Keeps, Decode, StrSlotWord, LdrSlotWord, ReplaceChunk, TruncDiv, SubFlags, Holds, Signed, Unsigned, WrapMul;
    DecodeSlot(rt, slot);
    OneStep(code, s, StrImm(rt, 31, slot));
    StoreKept(code, s, rt, slot);
  }

  lemma StoreKept(code: seq<Byte>, s: State, rt: nat, slot: UInt32)
    requires WellFormed(s) && rt < 31 && Run(code, s, 1) == Some(Next(s.(mem := s.mem[s.sp + 8 * slot := s.x[rt]])))
    ensures Keeps(code, s.sp + 8 * slot + 8, s, 1)
  {
    hide Run, Keeps, SameAbove;
    StoredBelow(s.sp + 8 * slot + 8, s.mem, s.sp + 8 * slot, s.x[rt]);
    KeepsOne(code, s.sp + 8 * slot + 8, s, Next(s.(mem := s.mem[s.sp + 8 * slot := s.x[rt]])));
  }

  lemma StoredBelow(top: int, mem: map<int, UInt64>, a: int, v: UInt64)
    requires a < top
    ensures SameAbove(top, mem, mem[a := v])
  {
  }

  // stp x29, x30, [sp, #-16]! and sub sp, sp, #fs
  function Entered(s: State, fs: nat): State
    requires WellFormed(s)
  {
    s.(sp := s.sp - 16 - fs, mem := s.mem[s.sp - 16 := s.x[29]][s.sp - 8 := s.x[30]], pc := s.pc + 4 * |PrologueAsm(fs)|)
  }

  lemma Prologue(code: seq<Byte>, s: State, fs: nat)
    requires WellFormed(s) && s.sp % 16 == 0 && fs < 4096 && RawAt(code, s.pc, PrologueAsm(fs))
    ensures Run(code, s, |PrologueAsm(fs)|) == Some(Entered(s, fs)) && Keeps(code, s.sp, s, |PrologueAsm(fs)|)
  {
    var l := PrologueAsm(fs);
    hide Fetch, Run, Keeps, Decode, SpAdjustWord;
    DecodeFixed();
    FirstRaw(code, s.pc, l);
    OneStep(code, s, StpPre(29, 30, 31, -2));
    var t := Execute(StpPre(29, 30, 31, -2), s).value;
    PairKept(code, s, t);
    if fs > 0 {
      assert l[1] == Raw(SpAdjustWord(0xD100_03FF, fs)) && s.pc + 4 * 1 == t.pc;
      DecodeSpAdjust(fs);
      OneStep(code, t, SubImm(31, 31, fs));
      SameAboveSelf(s.sp, t.mem);
      KeepsOne(code, s.sp, t, Execute(SubImm(31, 31, fs), t).value);
      Then(code, s.sp, s, 1, t, 1);
    }
  }

  lemma PairKept(code: seq<Byte>, s: State, t: State)
    requires WellFormed(s) && s.sp % 16 == 0 && Run(code, s, 1) == Some(t) && Execute(StpPre(29, 30, 31, -2), s) == Some(t)
    ensures Keeps(code, s.sp, s, 1)
  {
    hide Run, Keeps, SameAbove;
    StoredBelow(s.sp, s.mem, s.sp - 16, s.x[29]);
    StoredBelow(s.sp, s.mem[s.sp - 16 := s.x[29]], s.sp - 8, s.x[30]);
    SameAboveTrans(s.sp, s.mem, s.mem[s.sp - 16 := s.x[29]], t.mem);
    KeepsOne(code, s.sp, s, t);
  }

  // add sp, sp, #fs; ldp x29, x30, [sp], #16; ret
  function Left(s: State, fs: nat): State
    requires WellFormed(s)
  {
    var top := s.sp + fs;
    var ra := Load(s.mem, top + 8);
    s.(sp := top + 16, x := s.x[29 := Load(s.mem, top)][30 := ra], pc := ra)
  }

  lemma LdpRet(code: seq<Byte>, s: State)
    requires WellFormed(s) && s.sp % 16 == 0
    requires Fetch(code, s.pc) == Some(LdpPost(29, 30, 31, 2)) && Fetch(code, s.pc + 4) == Some(Ret(30))
    ensures Run(code, s, 2) == Some(Left(s, 0)) && Keeps(code, s.sp + 16, s, 2)
  {
    hide Fetch, Run, Keeps, Decode, Load;
    OneStep(code, s, LdpPost(29, 30, 31, 2));
    var t := Execute(LdpPost(29, 30, 31, 2), s).value;
    OneStep(code, t, Ret(30));
    SameAboveSelf(s.sp + 16, s.mem);
    KeepsOne(code, s.sp + 16, s, t);
    KeepsOne(code, s.sp + 16, t, Execute(Ret(30), t).value);
    Then(code, s.sp + 16, s, 1, t, 1);
  }

  lemma Leave(code: seq<Byte>, s: State, fs: nat)
    requires WellFormed(s) && s.sp % 16 == 0 && fs % 16 == 0 && fs < 4096 && RawAt(code, s.pc, LeaveAsm(fs))
    ensures Run(code, s, |LeaveAsm(fs)|) == Some(Left(s, fs)) && Keeps(code, s.sp + fs + 16, s, |LeaveAsm(fs)|)
  {
    var l := LeaveAsm(fs);
    hide Fetch, Run, Keeps, Decode, SpAdjustWord, Load;
    DecodeFixed();
    FirstRaw(code, s.pc, l);
    assert s.pc + 4 * 1 == s.pc + 4 && l[1].Raw?;
    if fs > 0 {
      DecodeSpAdjust(fs);
      OneStep(code, s, AddImm(31, 31, fs));
      var t := Execute(AddImm(31, 31, fs), s).value;
      assert s.pc + 4 * 2 == t.pc + 4 && l[2].Raw?;
      LdpRet(code, t);
      SameAboveSelf(s.sp + fs + 16, s.mem);
      KeepsOne(code, s.sp + fs + 16, s, t);
      Then(code, s.sp + fs + 16, s, 1, t, 2);
    } else {
      LdpRet(code, s);
    }
  }

  // ---------------------------------------------------------------- arithmetic and comparison

  function MachineArith(op: UInt16, a: UInt64, b: UInt64): UInt64
    requires IsArith(op)
  {
    if op == ADD then Unsigned(a + b) else if op == SUB then Unsigned(a - b)
    else if op == MUL then WrapMul(a, b) else SignedQuotient(a, b)
  }

  // x9 op x10 in x11
  lemma ArithStep(code: seq<Byte>, s: State, op: UInt16)
    requires WellFormed(s) && IsArith(op) && Fetch(code, s.pc) == Decode(ArithWord(op) % 0x1_0000_0000)
    ensures Run(code, s, 1) == Some(Loaded(s, 11, MachineArith(op, s.x[9], s.x[10]), 1)) && Keeps(code, s.sp, s, 1)
  {
    hide Fetch, Run, Keeps, Decode, AddWord, SubWord, MulWord, SdivWord, ReplaceChunk, WrapMul, SubFlags, Holds, SignedQuotient;
    DecodeAdd(11, 9, 10);
    DecodeSub(11, 9, 10);
    DecodeMul(11, 9, 10);
    DecodeSdiv(11, 9, 10);
    OneStep(code, s, if op == ADD then AddReg(11, 9, 10) else if op == SUB then SubReg(11, 9, 10)
                     else if op == MUL then MAdd(11, 9, 10, 31) else SDiv(11, 9, 10));
    Quiet(code, s, Loaded(s, 11, MachineArith(op, s.x[9], s.x[10]), 1));
  }

  lemma CmpStep(code: seq<Byte>, s: State)
    requires WellFormed(s) && Fetch(code, s.pc) == Decode(CmpWord(9, 10) % 0x1_0000_0000)
    ensures Run(code, s, 1) == Some(Next(s.(flags := SubFlags(s.x[9], s.x[10])))) && Keeps(code, s.sp, s, 1)
  {
    hide Fetch, Run, Keeps, Decode, CmpWord, SubFlags;
    DecodeCmp(9, 10);
    OneStep(code, s, SubsReg(31, 9, 10));
    Quiet(code, s, Next(s.(flags := SubFlags(s.x[9], s.x[10]))));
  }

  // ---------------------------------------------------------------- arguments and parameters

  ghost predicate ArgsInRegisters(s: State, ops: seq<Operand>, n: nat, x: seq<UInt64>)
    requires WellFormed(s) && |x| == 31 && n <= 8 && n < |ops| && ArgsOk(ops, n)
  {
    && (forall a :: 1 <= a <= n ==> x[a - 1] == OperandValue(s, ops[a]))
    && (forall r :: n <= r < 31 ==> x[r] == s.x[r])
  }

  lemma {:induction false} LoadArgs(code: seq<Byte>, s: State, ops: seq<Operand>, n: nat) returns (t: State)
    requires WellFormed(s) && s.sp % 16 == 0 && n <= 8 && n < |ops| && ArgsOk(ops, n)
    requires forall a :: 1 <= a <= n && ops[a].Register? ==> ops[a].reg < 4096
    requires RawAt(code, s.pc, ArgsAsm(ops, n))
    ensures Run(code, s, |ArgsAsm(ops, n)|) == Some(t) && Keeps(code, s.sp, s, |ArgsAsm(ops, n)|)
    ensures WellFormed(t) && t == s.(x := t.x, pc := s.pc + 4 * |ArgsAsm(ops, n)|)
    ensures ArgsInRegisters(s, ops, n, t.x)
  {
    hide Fetch, Run, Keeps, Decode, OperandAsm, RawAt;
    if n == 0 {
      t := s;
      NoSteps(code, s);
      KeepsZero(code, s.sp, s);
    } else {
      RawAtSplit(code, s.pc, ArgsAsm(ops, n - 1), OperandAsm(n - 1, ops[n]));
      var m := LoadArgs(code, s, ops, n - 1);
      LoadOperand(code, m, n - 1, ops[n]);
      t := Loaded(m, n - 1, OperandValue(m, ops[n]), |OperandAsm(n - 1, ops[n])|);
      Then(code, s.sp, s, |ArgsAsm(ops, n - 1)|, m, |OperandAsm(n - 1, ops[n])|);
    }
  }

  lemma NoSteps(code: seq<Byte>, s: State)
    requires WellFormed(s)
    ensures Run(code, s, 0) == Some(s)
  {
  }

  ghost predicate ParamsStored(s: State, n: nat, mem: map<int, UInt64>)
    requires WellFormed(s) && n <= 8
  {
    && (forall j :: 0 <= j < n ==> Load(mem, s.sp + 8 * j) == s.x[j])
    && (forall a :: !(s.sp <= a < s.sp + 8 * n) ==> Load(mem, a) == Load(s.mem, a))
  }

  lemma NoParams(s: State)
    requires WellFormed(s)
    ensures ParamsStored(s, 0, s.mem)
  {
  }

  lemma OneMoreParam(s: State, n: nat, mem: map<int, UInt64>)
    requires WellFormed(s) && 0 < n <= 8 && ParamsStored(s, n - 1, mem)
    ensures ParamsStored(s, n, mem[s.sp + 8 * (n - 1) := s.x[n - 1]])
  {
  }

  lemma {:induction false} StoreParams(code: seq<Byte>, s: State, n: nat) returns (t: State)
    requires WellFormed(s) && s.sp % 16 == 0 && n <= 8 && RawAt(code, s.pc, ParamsAsm(n))
    ensures |ParamsAsm(n)| == n && Run(code, s, n) == Some(t) && Keeps(code, s.sp + 8 * n, s, n)
    ensures t == s.(mem := t.mem, pc := s.pc + 4 * n) && ParamsStored(s, n, t.mem)
  {
    hide Fetch, Run, Keeps, Decode, StrSlotWord, RawAt, ParamsStored;
    if n == 0 {
      t := s;
      NoSteps(code, s);
      NoParams(s);
      KeepsZero(code, s.sp, s);
    } else {
      RawAtSplit(code, s.pc, ParamsAsm(n - 1), [Raw(StrSlotWord(n - 1, n - 1))]);
      var m := StoreParams(code, s, n - 1);
      FirstRaw(code, m.pc, [Raw(StrSlotWord(n - 1, n - 1))]);
      StoreSlot(code, m, n - 1, n - 1);
      t := Next(m.(mem := m.mem[m.sp + 8 * (n - 1) := m.x[n - 1]]));
      OneMoreParam(s, n, m.mem);
      KeepsHigher(code, s.sp + 8 * (n - 1), s.sp + 8 * n, s, n - 1);
      Then(code, s.sp + 8 * n, s, n - 1, m, 1);
    }
  }
}
