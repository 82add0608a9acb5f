// What the native compiler refuses and why, in the order in which it looks; which slots and arguments it counts;
// and which frames its prologue can open.

module NativeErrors {
  import opened Ast
  import opened Bits
  import opened Arm64Encoder
  import opened Relocation
  import opened NativeLayout
  import opened CompileExact
  import opened Codegen
  import Arm64Words
  import Arm64Machine

  // ---------------------------------------------------------------- what is supported

  // By number: mov, add, sub, mul, div, cmp, the six branches, jmp, call and both forms of ret, which come first in
  // the list of opcodes, and syscall. The float types are f32 and f64.
  lemma SupportedExactly(op: UInt16, ty: Byte)
    ensures OpcodeSupported(op) <==> op <= 15 || op == 78
    ensures IsFloatType(ty) <==> ty == 10 || ty == 11
    ensures IsJump(op) <==> 6 <= op <= 12
  {
  }

  // ---------------------------------------------------------------- registers, parameters and arguments

  predicate Uses(instr: Instruction, r: UInt32) {
    (instr.hasDest && instr.dest == r) || exists o :: 0 <= o < |instr.operands| && instr.operands[o] == Register(r)
  }

  predicate SomeUses(s: seq<Instruction>, r: UInt32) { exists i :: 0 <= i < |s| && Uses(s[i], r) }

  predicate BlocksUse(bs: seq<Block>, r: UInt32) { exists b :: 0 <= b < |bs| && SomeUses(bs[b].instructions, r) }

  // The slots reach over every register but the last 32-bit number, and no further than they have to.
  predicate IsMax(m: nat, uses: UInt32 -> bool, r: nat) {
    && m <= r && (forall x: UInt32 :: uses(x) && x != 0xFFFF_FFFF ==> x < r)
    && (r == m || (r <= 0xFFFF_FFFF && uses(r - 1)))
  }

  function OperandsUse(ops: seq<Operand>): UInt32 -> bool { (x: UInt32) => exists o :: 0 <= o < |ops| && ops[o] == Register(x) }

  lemma {:induction false} OperandsMaxIs(m: nat, ops: seq<Operand>)
    ensures IsMax(m, OperandsUse(ops), OperandsMax(m, ops))
  {
    if ops != [] {
      var n := |ops| - 1;
      OperandsMaxIs(m, ops[..n]);
      var r, f, g := OperandsMax(m, ops[..n]), OperandsUse(ops[..n]), OperandsUse(ops);
      forall x: UInt32 ensures g(x) <==> f(x) || ops[n] == Register(x) {
        if f(x) {
          var o :| 0 <= o < n && ops[..n][o] == Register(x);
          assert ops[o] == Register(x);
        }
        if g(x) && ops[n] != Register(x) {
          var o :| 0 <= o <= n && ops[o] == Register(x);
          assert ops[..n][o] == Register(x);
        }
      }
    }
  }

  function InstrsUse(s: seq<Instruction>): UInt32 -> bool { (x: UInt32) => SomeUses(s, x) }

  lemma SomeUsesStep(s: seq<Instruction>, x: UInt32)
    requires s != []
    ensures SomeUses(s, x) <==> SomeUses(s[..|s| - 1], x) || Uses(s[|s| - 1], x)
  {
    hide Uses;
    var n := |s| - 1;
    if SomeUses(s[..n], x) {
      var i :| 0 <= i < n && Uses(s[..n][i], x);
      assert Uses(s[i], x);
    }
    if SomeUses(s, x) && !Uses(s[n], x) {
      var i :| 0 <= i <= n && Uses(s[i], x);
      assert Uses(s[..n][i], x);
    }
  }

  // One maximum on top of another.
  lemma MaxOfBoth(m: nat, f: UInt32 -> bool, r: nat, g: UInt32 -> bool, t: nat, both: UInt32 -> bool)
    requires IsMax(m, f, r) && IsMax(r, g, t) && forall x: UInt32 :: both(x) <==> f(x) || g(x)
    ensures IsMax(m, both, t)
  {
  }

  function DestUse(instr: Instruction): UInt32 -> bool { (x: UInt32) => instr.hasDest && instr.dest == x }

  function OneUses(instr: Instruction): UInt32 -> bool { (x: UInt32) => Uses(instr, x) }

  lemma OneMaxIs(m: nat, instr: Instruction)
    ensures IsMax(m, OneUses(instr), OperandsMax(if instr.hasDest then RaiseTo(m, instr.dest) else m, instr.operands))
  {
    var from := if instr.hasDest then RaiseTo(m, instr.dest) else m;
    assert IsMax(m, DestUse(instr), from) by {
      if instr.hasDest && from != m { assert DestUse(instr)(from - 1); }
    }
    OperandsMaxIs(from, instr.operands);
    hide OperandsMax, RaiseTo, IsMax;
    MaxOfBoth(m, DestUse(instr), from, OperandsUse(instr.operands), OperandsMax(from, instr.operands), OneUses(instr));
  }

  lemma {:induction false} InstrsMaxIs(m: nat, s: seq<Instruction>)
    ensures IsMax(m, InstrsUse(s), InstrsMax(m, s))
  {
    if s != [] {
      var n := |s| - 1;
      InstrsMaxIs(m, s[..n]);
      OneMaxIs(InstrsMax(m, s[..n]), s[n]);
      hide OperandsMax, SomeUses, Uses, IsMax, RaiseTo;
      forall x: UInt32 ensures InstrsUse(s)(x) <==> InstrsUse(s[..n])(x) || OneUses(s[n])(x) { SomeUsesStep(s, x); }
      MaxOfBoth(m, InstrsUse(s[..n]), InstrsMax(m, s[..n]), OneUses(s[n]), InstrsMax(m, s), InstrsUse(s));
    }
  }

  function BlocksUses(bs: seq<Block>): UInt32 -> bool { (x: UInt32) => BlocksUse(bs, x) }

  lemma BlocksUseStep(bs: seq<Block>, x: UInt32)
    requires bs != []
    ensures BlocksUse(bs, x) <==> BlocksUse(bs[..|bs| - 1], x) || SomeUses(bs[|bs| - 1].instructions, x)
  {
    hide SomeUses;
    var n := |bs| - 1;
    if BlocksUse(bs[..n], x) {
      var b :| 0 <= b < n && SomeUses(bs[..n][b].instructions, x);
      assert SomeUses(bs[b].instructions, x);
    }
    if BlocksUse(bs, x) && !SomeUses(bs[n].instructions, x) {
      var b :| 0 <= b <= n && SomeUses(bs[b].instructions, x);
      assert SomeUses(bs[..n][b].instructions, x);
    }
  }

  lemma {:induction false} BlocksMaxIs(m: nat, bs: seq<Block>)
    ensures IsMax(m, BlocksUses(bs), BlocksMax(m, bs))
  {
    if bs != [] {
      var n := |bs| - 1;
      BlocksMaxIs(m, bs[..n]);
      var r, t := BlocksMax(m, bs[..n]), bs[n].instructions;
      InstrsMaxIs(r, t);
      hide InstrsMax, SomeUses, BlocksUse, IsMax;
      forall x: UInt32 ensures BlocksUses(bs)(x) <==> BlocksUses(bs[..n])(x) || InstrsUse(t)(x) { BlocksUseStep(bs, x); }
      MaxOfBoth(m, BlocksUses(bs[..n]), r, InstrsUse(t), BlocksMax(m, bs), BlocksUses(bs));
    }
  }

  // For every function, also beyond what the frame can hold: the slot count is the parameter count or one more than
  // the highest register used, whichever is more; register 0xFFFFFFFF does not count, because adding one wraps.
  lemma MaxRegExactly(fn: Function)
    ensures |fn.params| <= MaxReg(fn)
    ensures forall x: UInt32 :: BlocksUse(fn.blocks, x) && x != 0xFFFF_FFFF ==> x < MaxReg(fn)
    ensures MaxReg(fn) == |fn.params| || (0 < MaxReg(fn) <= 0xFFFF_FFFF && BlocksUse(fn.blocks, MaxReg(fn) - 1))
  {
    hide BlocksUse, BlocksMax;
    BlocksMaxIs(|fn.params|, fn.blocks);
    forall x: UInt32 | BlocksUse(fn.blocks, x) && x != 0xFFFF_FFFF ensures x < MaxReg(fn) { assert BlocksUses(fn.blocks)(x); }
  }

  predicate FrameOpens(m: nat) {
    && Arm64Machine.Decode(Arm64Words.SpAdjustWord(0xD100_03FF, FrameSize(m)) % 0x1_0000_0000) == Some(Arm64Machine.SubImm(31, 31, FrameSize(m)))
    && 8 * m <= FrameSize(m)
  }

  // The frame instruction of the prologue subtracts the frame size, and the frame holds all slots, if and only if
  // there are at most 510 of them. Beyond that the size runs out of its 12-bit field.
  lemma FrameOpensExactly(m: nat)
    requires m < 0x1_0000_0000
    ensures FrameOpens(m) <==> m <= 510
  {
    hide And, Arm64Words.SpAdjustWord, Arm64Machine.Decode, FrameSize;
    if m <= 510 {
      FrameSizeBounds(m);
      Arm64Words.DecodeSpAdjust(FrameSize(m));
    } else {
      FrameIs(m);
      if FrameOpens(m) { FieldIsSmall(Arm64Words.SpAdjustWord(0xD100_03FF, FrameSize(m)) % 0x1_0000_0000, FrameSize(m)); }
    }
  }

  lemma FrameIs(m: nat)
    ensures FrameSize(m) % 16 == 0
  {
    hide And;
    ClearLowBits((m * 8 + 15) % 0x1_0000_0000);
  }

  lemma FieldIsSmall(word: nat, n: nat)
    requires Arm64Machine.Decode(word) == Some(Arm64Machine.SubImm(31, 31, n))
    ensures n < 4096
  {
  }

  // At most eight parameters are stored and at most eight arguments are loaded (three for a system call), the first
  // ones: x0 goes to slot 0, and so on.
  lemma {:induction false} FirstParameters(n: nat)
    requires n <= 8
    ensures |ParamsAsm(n)| == n && forall k :: 0 <= k < n ==> ParamsAsm(n)[k] == Raw(Arm64Words.StrSlotWord(k, k))
  {
    hide Arm64Words.StrSlotWord;
    if n > 0 { FirstParameters(n - 1); }
  }

  lemma CountsExactly(fn: Function, ops: seq<Operand>, limit: nat)
    ensures ParamCount(fn) == if |fn.params| <= 8 then |fn.params| else 8
    ensures ops != [] ==> ArgCount(ops, limit) == if |ops| <= limit then |ops| - 1 else limit
  {
  }

  // ---------------------------------------------------------------- the first branch without a block

  // The labels that the branches of a function name, in the order of the code.
  function InstrsLabels(s: seq<Instruction>): seq<string> {
    if s == [] then []
    else
      var last := s[|s| - 1];
      InstrsLabels(s[..|s| - 1]) + if IsJump(last.opcode) && |last.operands| > 0 then [OperandName(last.operands[0])] else []
  }

  function BlocksLabels(bs: seq<Block>): seq<string> {
    if bs == [] then [] else BlocksLabels(bs[..|bs| - 1]) + InstrsLabels(bs[|bs| - 1].instructions)
  }

  // The targets of the branches of a listing.
  function Targets(l: seq<Asm>): seq<string> {
    if l == [] then [] else Targets(l[..|l| - 1]) + if IsBranch(l[|l| - 1]) then [l[|l| - 1].target] else []
  }

  lemma {:induction false} TargetsAdd(a: seq<Asm>, b: seq<Asm>)
    ensures Targets(a + b) == Targets(a) + Targets(b)
    decreases |b|
  {
    if b == [] {
      assert a + b == a;
    } else {
      var n := |b| - 1;
      TargetsAdd(a, b[..n]);
      assert (a + b)[..|a + b| - 1] == a + b[..n] && (a + b)[|a + b| - 1] == b[n];
    }
  }

  lemma {:induction false} NoTargets(l: seq<Asm>)
    requires forall k :: 0 <= k < |l| ==> !IsBranch(l[k])
    ensures Targets(l) == []
    decreases |l|
  {
    if l != [] { NoTargets(l[..|l| - 1]); }
  }

  lemma InstrTargets(instr: Instruction, fs: nat)
    requires Emittable(instr)
    ensures Targets(InstrAsm(instr, fs)) == InstrsLabels([instr])
  {
    LastOfOne(instr);
    InstrComes(instr, fs);
    hide InstrAsm, InstrSupported, WellShaped, Encodable, InstrsLabels, Targets;
    if IsJump(instr.opcode) {
      BranchListing(instr, fs);
      BranchIsBranch(instr);
      OneTarget(BranchAsm(instr));
    } else {
      NoTargets(InstrAsm(instr, fs));
    }
  }

  lemma LastOfOne(instr: Instruction)
    ensures InstrsLabels([instr]) == if IsJump(instr.opcode) && |instr.operands| > 0 then [OperandName(instr.operands[0])] else []
  {
    assert [instr][..0] == [];
    assert InstrsLabels([]) == [];
  }

  lemma OneTarget(a: Asm)
    requires IsBranch(a)
    ensures Targets([a]) == [a.target]
  {
    assert [a][..0] == [];
    assert Targets([]) == [];
  }

  lemma LabelsStep(s: seq<Instruction>)
    requires s != []
    ensures InstrsLabels(s) == InstrsLabels(s[..|s| - 1]) + InstrsLabels([s[|s| - 1]])
  {
    LastOfOne(s[|s| - 1]);
  }

  lemma {:induction false} InstrsTargets(s: seq<Instruction>, fs: nat)
    requires AllEmittable(s)
    ensures Targets(InstrsAsm(s, fs)) == InstrsLabels(s)
    decreases |s|
  {
    if s != [] {
      var n := |s| - 1;
      LabelsStep(s);
      hide Emittable, InstrAsm, Targets, InstrsLabels;
      InstrsTargets(s[..n], fs);
      InstrTargets(s[n], fs);
      TargetsAdd(InstrsAsm(s[..n], fs), InstrAsm(s[n], fs));
    }
  }

  lemma {:induction false} BlocksTargets(bs: seq<Block>, fs: nat)
    requires BlocksEmittable(bs)
    ensures Targets(BlocksAsm(bs, fs)) == BlocksLabels(bs)
    decreases |bs|
  {
    if bs != [] {
      var n := |bs| - 1;
      hide AllEmittable, InstrsAsm, Targets, InstrsLabels;
      BlocksTargets(bs[..n], fs);
      InstrsTargets(bs[n].instructions, fs);
      TargetsAdd(BlocksAsm(bs[..n], fs), InstrsAsm(bs[n].instructions, fs));
    } else {
      NoTargets([]);
    }
  }

  lemma FunctionTargets(fn: Function)
    requires FnEmittable(fn)
    ensures Targets(FnAsm(fn)) == BlocksLabels(fn.blocks)
  {
    hide FnAsm, FnFrame, PrologueAsm, ParamsAsm, BlocksAsm, Targets, BlocksLabels;
    FunctionSplits(fn);
    EmittableBlocks(fn);
    var fs := FnFrame(fn);
    ParamsAreRaw(ParamCount(fn));
    PrologueIsRaw(fs);
    NoTargets(PrologueAsm(fs) + ParamsAsm(ParamCount(fn)));
    BlocksTargets(fn.blocks, fs);
    TargetsAdd(PrologueAsm(fs) + ParamsAsm(ParamCount(fn)), BlocksAsm(fn.blocks, fs));
    assert [] + BlocksLabels(fn.blocks) == BlocksLabels(fn.blocks);
  }

  lemma {:induction false} PendingTargets(l: seq<Asm>)
    ensures |PendingOf(l)| == |Targets(l)| && forall j :: 0 <= j < |PendingOf(l)| ==> PendingOf(l)[j].target == Targets(l)[j]
    decreases |l|
  {
    if l != [] { PendingTargets(l[..|l| - 1]); }
  }

  // The first name of the list that is none of those known.
  predicate FirstOf(names: seq<string>, known: string -> bool, s: string) {
    exists j :: 0 <= j < |names| && names[j] == s && !known(s) && forall i :: 0 <= i < j ==> known(names[i])
  }

  lemma {:induction false} UnresolvedIsFirst(p: seq<PendingBranch>, offsets: map<string, nat>, names: seq<string>, known: string -> bool)
    requires |names| == |p| && forall j :: 0 <= j < |p| ==> p[j].target == names[j]
    requires forall s :: s in offsets <==> known(s)
    ensures FirstUnresolved(p, offsets).Some? ==> FirstOf(names, known, FirstUnresolved(p, offsets).value)
    decreases |p|
  {
    if p != [] {
      if p[0].target in offsets {
        UnresolvedIsFirst(p[1..], offsets, names[1..], known);
        if FirstUnresolved(p, offsets).Some? {
          var s := FirstUnresolved(p, offsets).value;
          var j :| 0 <= j < |names[1..]| && names[1..][j] == s && !known(s) && forall i :: 0 <= i < j ==> known(names[1..][i]);
          forall i | 0 <= i < j + 1 ensures known(names[i]) { if i > 0 { assert names[i] == names[1..][i - 1]; } }
          assert names[j + 1] == s;
        }
      } else {
        assert names[0] == p[0].target;
      }
    }
  }

  lemma FirstIsOne(names: seq<string>, known: string -> bool, s: string, t: string)
    requires FirstOf(names, known, s) && FirstOf(names, known, t)
    ensures s == t
  {
    var j :| 0 <= j < |names| && names[j] == s && !known(s) && forall i :: 0 <= i < j ==> known(names[i]);
    var k :| 0 <= k < |names| && names[k] == t && !known(t) && forall i :: 0 <= i < k ==> known(names[i]);
    assert !(j < k) && !(k < j);
  }

  function Labelled(fn: Function): string -> bool { s => exists b :: 0 <= b < |fn.blocks| && fn.blocks[b].labelName == s }

  lemma HasBlockIs(fn: Function, s: string)
    ensures HasBlock(fn, s) <==> Labelled(fn)(s)
  {
    var labels := BlockLabels(fn.blocks);
    IndexMapIsLast(labels);
    hide IndexMap;
    if s in labels {
      var b :| 0 <= b < |labels| && labels[b] == s;
      assert fn.blocks[b].labelName == s;
    }
    if Labelled(fn)(s) {
      var b :| 0 <= b < |fn.blocks| && fn.blocks[b].labelName == s;
      assert labels[b] == s;
    }
  }

  lemma UnknownBlockIsFirst(fn: Function)
    requires FnEmittable(fn)
    ensures var u := FirstUnresolved(PendingOf(FnAsm(fn)), Offsets(fn, |fn.blocks|));
      u.Some? ==> FirstOf(BlocksLabels(fn.blocks), Labelled(fn), u.value)
  {
    hide FnAsm, Offsets, PendingOf, FirstUnresolved, BlocksLabels, FirstOf, HasBlock, FnEmittable, Targets, Labelled;
    FunctionTargets(fn);
    PendingTargets(FnAsm(fn));
    forall s ensures s in Offsets(fn, |fn.blocks|) <==> Labelled(fn)(s) {
      OffsetsAreLabels(fn, s);
      HasBlockIs(fn, s);
    }
    UnresolvedIsFirst(PendingOf(FnAsm(fn)), Offsets(fn, |fn.blocks|), BlocksLabels(fn.blocks), Labelled(fn));
  }

  // Why a function is refused: an instruction that is not supported; or else an operand that cannot be loaded; or
  // else a branch that names none of its blocks, of which the first is reported.
  lemma RefusedExactly(fn: Function)
    requires FunctionShaped(fn)
    ensures CompileSpec(fn) == Err(Unsupported(fn.name)) <==> !IsSupported(fn)
    ensures CompileSpec(fn) == Err(FloatImmediate) <==> IsSupported(fn) && !AllEncodable(fn)
    ensures forall t :: CompileSpec(fn) == Err(UnknownBlock(t, fn.name)) <==>
      IsSupported(fn) && AllEncodable(fn) && FirstOf(BlocksLabels(fn.blocks), Labelled(fn), t)
    ensures CompileSpec(fn).Ok? ==> forall j :: 0 <= j < |BlocksLabels(fn.blocks)| ==> Labelled(fn)(BlocksLabels(fn.blocks)[j])
  {
    hide FnAsm, PendingOf, Offsets, FinalWords, FixupsOf, IsSupported, AllEncodable, FnEmittable, FunctionShaped, FirstUnresolved, Arm64Words.Bytes;
    hide FirstOf, BlocksLabels, Labelled;
    if IsSupported(fn) && AllEncodable(fn) {
      EmittableMeansEncodable(fn);
      UnknownBlockIsFirst(fn);
      var u := FirstUnresolved(PendingOf(FnAsm(fn)), Offsets(fn, |fn.blocks|));
      if u.Some? {
        forall t | FirstOf(BlocksLabels(fn.blocks), Labelled(fn), t) ensures t == u.value {
          FirstIsOne(BlocksLabels(fn.blocks), Labelled(fn), t, u.value);
        }
      } else {
        NothingUnknown(fn);
      }
    }
  }

  lemma NothingUnknown(fn: Function)
    requires FnEmittable(fn) && FirstUnresolved(PendingOf(FnAsm(fn)), Offsets(fn, |fn.blocks|)) == None
    ensures forall j :: 0 <= j < |BlocksLabels(fn.blocks)| ==> Labelled(fn)(BlocksLabels(fn.blocks)[j])
    ensures forall t :: !FirstOf(BlocksLabels(fn.blocks), Labelled(fn), t)
  {
    hide FnAsm, Offsets, PendingOf, FirstUnresolved, BlocksLabels, HasBlock, FnEmittable, Targets, Labelled;
    FunctionTargets(fn);
    PendingTargets(FnAsm(fn));
    var p, names := PendingOf(FnAsm(fn)), BlocksLabels(fn.blocks);
    FirstUnresolvedNone(p, Offsets(fn, |fn.blocks|));
    forall j | 0 <= j < |names| ensures Labelled(fn)(names[j]) {
      assert p[j].target == names[j];
      OffsetsAreLabels(fn, names[j]);
      HasBlockIs(fn, names[j]);
    }
  }

  // ---------------------------------------------------------------- the first call without a function

  function InstrsCalls(s: seq<Instruction>): seq<string> {
    if s == [] then []
    else
      var last := s[|s| - 1];
      InstrsCalls(s[..|s| - 1]) + if last.opcode == CALL && |last.operands| > 0 then [OperandName(last.operands[0])] else []
  }

  function BlocksCalls(bs: seq<Block>): seq<string> {
    if bs == [] then [] else BlocksCalls(bs[..|bs| - 1]) + InstrsCalls(bs[|bs| - 1].instructions)
  }

  // The functions that a program calls, in the order of the code.
  function ProgramCalls(fs: seq<Function>): seq<string> {
    if fs == [] then [] else BlocksCalls(fs[0].blocks) + ProgramCalls(fs[1..])
  }

  function Callees(l: seq<Asm>): seq<string> {
    if l == [] then [] else Callees(l[..|l| - 1]) + if l[|l| - 1].CallTo? then [l[|l| - 1].callee] else []
  }

  lemma {:induction false} CalleesAdd(a: seq<Asm>, b: seq<Asm>)
    ensures Callees(a + b) == Callees(a) + Callees(b)
    decreases |b|
  {
    if b == [] {
      assert a + b == a;
    } else {
      var n := |b| - 1;
      CalleesAdd(a, b[..n]);
      assert (a + b)[..|a + b| - 1] == a + b[..n] && (a + b)[|a + b| - 1] == b[n];
    }
  }

  lemma {:induction false} NoCallees(l: seq<Asm>)
    requires forall k :: 0 <= k < |l| ==> !l[k].CallTo?
    ensures Callees(l) == []
    decreases |l|
  {
    if l != [] { NoCallees(l[..|l| - 1]); }
  }

  lemma CallOfOne(instr: Instruction)
    ensures InstrsCalls([instr]) == if instr.opcode == CALL && |instr.operands| > 0 then [OperandName(instr.operands[0])] else []
  {
    assert [instr][..0] == [];
    assert InstrsCalls([]) == [];
  }

  lemma CallListing(instr: Instruction, fs: nat)
    requires Emittable(instr) && instr.opcode == CALL
    ensures |instr.operands| > 0
    ensures InstrAsm(instr, fs)
         == ArgsAsm(instr.operands, ArgCount(instr.operands, 8)) + ([CallTo(OperandName(instr.operands[0]))] + StoreDest(instr))
  {
    hide ArgsAsm, StoreDest;
  }

  lemma OneCallee(name: string, instr: Instruction)
    ensures Callees([CallTo(name)] + StoreDest(instr)) == [name]
  {
    hide Arm64Words.StrSlotWord;
    NoCallees(StoreDest(instr));
    CalleesAdd([CallTo(name)], StoreDest(instr));
    assert [CallTo(name)][..0] == [];
    assert Callees([]) == [];
  }

  lemma InstrCallees(instr: Instruction, fs: nat)
    requires Emittable(instr)
    ensures Callees(InstrAsm(instr, fs)) == InstrsCalls([instr])
  {
    CallOfOne(instr);
    InstrComes(instr, fs);
    hide InstrAsm, InstrSupported, WellShaped, InstrsCalls, Callees, ArgsAsm, StoreDest;
    if instr.opcode == CALL {
      CallListing(instr, fs);
      var n := ArgCount(instr.operands, 8);
      ArgsAreRaw(instr.operands, n);
      NoCallees(ArgsAsm(instr.operands, n));
      OneCallee(OperandName(instr.operands[0]), instr);
      CalleesAdd(ArgsAsm(instr.operands, n), [CallTo(OperandName(instr.operands[0]))] + StoreDest(instr));
    } else {
      NoCallees(InstrAsm(instr, fs));
    }
  }

  lemma CallsStep(s: seq<Instruction>)
    requires s != []
    ensures InstrsCalls(s) == InstrsCalls(s[..|s| - 1]) + InstrsCalls([s[|s| - 1]])
  {
    CallOfOne(s[|s| - 1]);
  }

  lemma {:induction false} InstrsCallees(s: seq<Instruction>, fs: nat)
    requires AllEmittable(s)
    ensures Callees(InstrsAsm(s, fs)) == InstrsCalls(s)
    decreases |s|
  {
    if s != [] {
      var n := |s| - 1;
      CallsStep(s);
      hide Emittable, InstrAsm, Callees, InstrsCalls;
      InstrsCallees(s[..n], fs);
      InstrCallees(s[n], fs);
      CalleesAdd(InstrsAsm(s[..n], fs), InstrAsm(s[n], fs));
    }
  }

  lemma {:induction false} BlocksCallees(bs: seq<Block>, fs: nat)
    requires BlocksEmittable(bs)
    ensures Callees(BlocksAsm(bs, fs)) == BlocksCalls(bs)
    decreases |bs|
  {
    if bs != [] {
      var n := |bs| - 1;
      hide AllEmittable, InstrsAsm, Callees, InstrsCalls;
      BlocksCallees(bs[..n], fs);
      InstrsCallees(bs[n].instructions, fs);
      CalleesAdd(BlocksAsm(bs[..n], fs), InstrsAsm(bs[n].instructions, fs));
    } else {
      NoCallees([]);
    }
  }

  lemma FunctionCallees(fn: Function)
    requires FnEmittable(fn)
    ensures Callees(FnAsm(fn)) == BlocksCalls(fn.blocks)
  {
    hide FnAsm, FnFrame, PrologueAsm, ParamsAsm, BlocksAsm, Callees, BlocksCalls;
    FunctionSplits(fn);
    EmittableBlocks(fn);
    var fs := FnFrame(fn);
    ParamsAreRaw(ParamCount(fn));
    PrologueIsRaw(fs);
    NoCallees(PrologueAsm(fs) + ParamsAsm(ParamCount(fn)));
    BlocksCallees(fn.blocks, fs);
    CalleesAdd(PrologueAsm(fs) + ParamsAsm(ParamCount(fn)), BlocksAsm(fn.blocks, fs));
    assert [] + BlocksCalls(fn.blocks) == BlocksCalls(fn.blocks);
  }

  lemma {:induction false} FixupCallees(l: seq<Asm>)
    ensures |FixupsOf(l)| == |Callees(l)| && forall j :: 0 <= j < |FixupsOf(l)| ==> FixupsOf(l)[j].callee == Callees(l)[j]
    decreases |l|
  {
    if l != [] { FixupCallees(l[..|l| - 1]); }
  }

  predicate AllKnown(names: seq<string>, known: string -> bool) { forall j :: 0 <= j < |names| ==> known(names[j]) }

  // What a search says about a list of names: the first unknown one, or that there is none.
  predicate Says(r: Option<string>, names: seq<string>, known: string -> bool) {
    match r
    case Some(s) => FirstOf(names, known, s)
    case None => AllKnown(names, known)
  }

  lemma {:induction false} MissingSays(cs: seq<CallFixup>, starts: map<string, nat>, names: seq<string>, known: string -> bool)
    requires |names| == |cs| && forall j :: 0 <= j < |cs| ==> cs[j].callee == names[j]
    requires forall s :: s in starts <==> known(s)
    ensures Says(FirstMissing(cs, starts), names, known)
    decreases |cs|
  {
    if cs != [] {
      hide Says;
      if cs[0].callee in starts {
        MissingSays(cs[1..], starts, names[1..], known);
        KnownFirst(FirstMissing(cs[1..], starts), names, known);
      } else {
        UnknownFirst(names, known);
      }
    }
  }

  lemma KnownFirst(r: Option<string>, names: seq<string>, known: string -> bool)
    requires names != [] && known(names[0]) && Says(r, names[1..], known)
    ensures Says(r, names, known)
  {
    assert names == [names[0]] + names[1..];
    SaysBehind([names[0]], names[1..], known, r);
  }

  lemma UnknownFirst(names: seq<string>, known: string -> bool)
    requires names != [] && !known(names[0])
    ensures Says(Some(names[0]), names, known)
  {
  }

  lemma SaysBehind(a: seq<string>, b: seq<string>, known: string -> bool, r: Option<string>)
    requires AllKnown(a, known) && Says(r, b, known)
    ensures Says(r, a + b, known)
  {
    if r.Some? {
      var j :| 0 <= j < |b| && b[j] == r.value && !known(r.value) && forall i :: 0 <= i < j ==> known(b[i]);
      var k := |a| + j;
      assert (a + b)[k] == r.value;
      forall i | 0 <= i < k ensures known((a + b)[i]) { if i >= |a| { assert (a + b)[i] == b[i - |a|]; } }
    }
  }

  lemma SaysBefore(a: seq<string>, b: seq<string>, known: string -> bool, s: string)
    requires FirstOf(a, known, s)
    ensures FirstOf(a + b, known, s)
  {
    var j :| 0 <= j < |a| && a[j] == s && !known(s) && forall i :: 0 <= i < j ==> known(a[i]);
    assert (a + b)[j] == s;
    forall i | 0 <= i < j ensures known((a + b)[i]) { assert (a + b)[i] == a[i]; }
  }

  function Defined(fs: seq<Function>): string -> bool { s => exists f :: 0 <= f < |fs| && fs[f].name == s }

  lemma StartsAreDefined(p: Program)
    requires Ready(p)
    ensures forall s :: s in Starts(p, |p.functions|) <==> Defined(p.functions)(s)
  {
    hide Ready, Starts;
    StartsFacts(p, |p.functions|);
  }

  lemma FunctionSays(p: Program, f: nat)
    requires Ready(p) && f < |p.functions|
    ensures Says(FirstMissing(FixupsOf(Listing(p, f)), Starts(p, |p.functions|)), BlocksCalls(p.functions[f].blocks), Defined(p.functions))
  {
    ListingEmittable(p, f);
    StartsAreDefined(p);
    FunctionCallees(p.functions[f]);
    hide Ready, Listing, Starts, FixupsOf, FirstMissing, BlocksCalls, Callees, Says, Defined, FnAsm, FnEmittable;
    FixupCallees(Listing(p, f));
    MissingSays(FixupsOf(Listing(p, f)), Starts(p, |p.functions|), BlocksCalls(p.functions[f].blocks), Defined(p.functions));
  }

  lemma {:induction false} ProgramSays(p: Program, f: nat)
    requires Ready(p) && f <= |p.functions|
    ensures Says(FirstMissingFrom(p, f), ProgramCalls(p.functions[f..]), Defined(p.functions))
    decreases |p.functions| - f
  {
    hide Ready, Listing, Starts, FixupsOf, FirstMissing, BlocksCalls, Defined, FirstOf, AllKnown;
    if f < |p.functions| {
      FunctionSays(p, f);
      ProgramSays(p, f + 1);
      var here, more := BlocksCalls(p.functions[f].blocks), ProgramCalls(p.functions[f + 1..]);
      assert p.functions[f..][0] == p.functions[f] && p.functions[f..][1..] == p.functions[f + 1..];
      var r := FirstMissing(FixupsOf(Listing(p, f)), Starts(p, |p.functions|));
      if r.Some? {
        SaysBefore(here, more, Defined(p.functions), r.value);
      } else {
        SaysBehind(here, more, Defined(p.functions), FirstMissingFrom(p, f + 1));
      }
    } else {
      NothingSaid(p);
    }
  }

  lemma NothingSaid(p: Program)
    ensures AllKnown(ProgramCalls(p.functions[|p.functions|..]), Defined(p.functions))
  {
  }

  lemma NotBoth(names: seq<string>, known: string -> bool, s: string)
    requires AllKnown(names, known)
    ensures !FirstOf(names, known, s)
  {
  }

  // Compiled functions link exactly when every call names one of them; otherwise the first call that does not is
  // reported. There is always an entry.
  lemma LinksExactly(p: Program)
    requires Ready(p)
    ensures LinkSpec(p).Ok? <==> AllKnown(ProgramCalls(p.functions), Defined(p.functions))
    ensures forall c :: LinkSpec(p) == Err(UnresolvedCall(c)) <==> FirstOf(ProgramCalls(p.functions), Defined(p.functions), c)
    ensures LinkSpec(p).Err? ==> LinkSpec(p).error.UnresolvedCall?
  {
    ProgramSays(p, 0);
    StartsAreDefined(p);
    LinkableDistinct(p);
    assert p.functions[0..] == p.functions;
    hide Ready, FirstMissingFrom, ProgramCalls, Starts, FirstOf, AllKnown, LinkedUpto, Arm64Words.Bytes;
    var names, known := ProgramCalls(p.functions), Defined(p.functions);
    assert p.functions[p.entryIndex].name in Starts(p, |p.functions|);
    var r := FirstMissingFrom(p, 0);
    if r.Some? {
      forall c | FirstOf(names, known, c) ensures c == r.value { FirstIsOne(names, known, c, r.value); }
      if AllKnown(names, known) { NotBoth(names, known, r.value); }
    } else {
      forall c ensures !FirstOf(names, known, c) { NotBoth(names, known, c); }
    }
  }

  // A program is refused with the error of the first function that does not compile.
  lemma {:induction false} FirstFailureExactly(fs: seq<Function>, e: CodegenError)
    requires forall f :: 0 <= f < |fs| ==> FunctionShaped(fs[f])
    ensures FirstFailure(fs) == Some(e) <==>
      exists f :: 0 <= f < |fs| && CompileSpec(fs[f]) == Err(e) && forall g :: 0 <= g < f ==> CompileSpec(fs[g]).Ok?
    decreases |fs|
  {
    hide CompileSpec, FunctionShaped;
    if fs != [] {
      var more := fs[1..];
      FirstFailureExactly(more, e);
      if CompileSpec(fs[0]).Ok? {
        if FirstFailure(more) == Some(e) {
          var f :| 0 <= f < |more| && CompileSpec(more[f]) == Err(e) && forall g :: 0 <= g < f ==> CompileSpec(more[g]).Ok?;
          assert CompileSpec(fs[f + 1]) == Err(e);
          forall g | 0 <= g < f + 1 ensures CompileSpec(fs[g]).Ok? { if g > 0 { assert fs[g] == more[g - 1]; } }
        }
        if f :| 0 <= f < |fs| && CompileSpec(fs[f]) == Err(e) && forall g :: 0 <= g < f ==> CompileSpec(fs[g]).Ok? {
          assert CompileSpec(more[f - 1]) == Err(e);
          forall g | 0 <= g < f - 1 ensures CompileSpec(more[g]).Ok? { assert more[g] == fs[g + 1]; }
        }
      }
    }
  }
}
