// src/codegen/codegen.cpp: concatenating the compiled functions and patching the calls.
//
// A position in linked code is a pair (f, k): word k of function f, at word FnStart(p, f) + k.

module Codegen {
  import opened Ast
  import opened Arm64Encoder
  import opened Arm64Words
  import Arm64Machine

  datatype CompiledCode = CompiledCode(code: seq<Byte>, entryOffset: nat)

  // What the native linker relies on: unique names, an entry in range, operands where they are indexed.
  predicate Linkable(p: Program) {
    && DistinctNames(p.functions)
    && p.entryIndex < |p.functions|
    && forall f :: 0 <= f < |p.functions| ==> FunctionShaped(p.functions[f])
  }

  // Linkable, and every function compiles.
  predicate Ready(p: Program) {
    Linkable(p) && forall f :: 0 <= f < |p.functions| ==> CompileSpec(p.functions[f]).Ok?
  }

  lemma CompiledIsEmittable(fn: Function)
    requires FunctionShaped(fn) && CompileSpec(fn).Ok?
    ensures FnEmittable(fn)
  {
    EmittableMeansEncodable(fn);
  }

  // The listing of a compiled function, and its words before the calls are patched.
  ghost function Listing(p: Program, f: nat): (l: seq<Asm>)
    requires Ready(p) && f < |p.functions|
  {
    CompiledIsEmittable(p.functions[f]);
    FnAsm(p.functions[f])
  }

  ghost function LabelOffsets(p: Program, f: nat): map<string, nat>
    requires Ready(p) && f < |p.functions|
  {
    CompiledIsEmittable(p.functions[f]);
    Offsets(p.functions[f], |p.functions[f].blocks|)
  }

  ghost function UnlinkedWords(p: Program, f: nat): (ws: seq<nat>)
    requires Ready(p) && f < |p.functions|
    ensures |ws| == |Listing(p, f)|
  {
    FinalWords(Listing(p, f), LabelOffsets(p, f))
  }

  lemma CompiledForm(p: Program, f: nat)
    requires Ready(p) && f < |p.functions|
    ensures CompileSpec(p.functions[f]).value
         == CompiledFunction(p.functions[f].name, Bytes(UnlinkedWords(p, f)), FixupsOf(Listing(p, f)))
    ensures FirstUnresolved(PendingOf(Listing(p, f)), LabelOffsets(p, f)) == None
  {
    hide FirstUnresolved, PendingOf, FixupsOf, FnAsm, Offsets, FinalWords, Bytes, FunctionShaped, IsSupported, AllEncodable;
    CompiledIsEmittable(p.functions[f]);
  }

  // ---------------------------------------------------------------- the layout of the linked code

  // Word index of the first word of function f.
  ghost function FnStart(p: Program, f: nat): nat
    requires Ready(p) && f <= |p.functions|
  {
    if f == 0 then 0 else FnStart(p, f - 1) + |Listing(p, f - 1)|
  }

  // functionStart after n functions: a name to its byte offset, the last definition winning.
  ghost function Starts(p: Program, n: nat): map<string, nat>
    requires Ready(p) && n <= |p.functions|
  {
    if n == 0 then map[] else Starts(p, n - 1)[p.functions[n - 1].name := 4 * FnStart(p, n - 1)]
  }

  lemma {:induction false} StartsFacts(p: Program, n: nat)
    requires Ready(p) && n <= |p.functions|
    ensures forall s :: s in Starts(p, n) <==> exists f :: 0 <= f < n && p.functions[f].name == s
    ensures forall f :: 0 <= f < n ==> Starts(p, n)[p.functions[f].name] == 4 * FnStart(p, f)
  {
    hide Ready, CompileSpec, Listing;
    if n > 0 {
      StartsFacts(p, n - 1);
      LinkableDistinct(p);
      var last := p.functions[n - 1].name;
      forall s | s in Starts(p, n) ensures exists f :: 0 <= f < n && p.functions[f].name == s {
        if s == last {
          assert p.functions[n - 1].name == s;
        } else {
          assert s in Starts(p, n - 1);
        }
      }
    }
  }

  lemma LinkableDistinct(p: Program)
    requires Ready(p)
    ensures DistinctNames(p.functions) && p.entryIndex < |p.functions|
  {
  }

  // The words of functions f, f + 1, ... before the calls are patched.
  ghost function UnlinkedFrom(p: Program, f: nat): seq<nat>
    requires Ready(p) && f <= |p.functions|
    decreases |p.functions| - f
  {
    if f == |p.functions| then [] else UnlinkedWords(p, f) + UnlinkedFrom(p, f + 1)
  }

  ghost function LinkedWord(p: Program, f: nat, k: nat): nat
    requires Ready(p) && f < |p.functions| && k < |Listing(p, f)|
  {
    var a := Listing(p, f)[k];
    var starts := Starts(p, |p.functions|);
    if a.CallTo? && a.callee in starts
    then Patch26(BL_WORD, starts[a.callee] - 4 * (FnStart(p, f) + k))
    else UnlinkedWords(p, f)[k]
  }

  ghost function LinkedFn(p: Program, f: nat): (ws: seq<nat>)
    requires Ready(p) && f < |p.functions|
    ensures |ws| == |Listing(p, f)|
  {
    seq(|Listing(p, f)|, k requires 0 <= k < |Listing(p, f)| => LinkedWord(p, f, k))
  }

  ghost function LinkedUpto(p: Program, n: nat): (ws: seq<nat>)
    requires Ready(p) && n <= |p.functions|
    ensures |ws| == FnStart(p, n)
  {
    if n == 0 then [] else LinkedUpto(p, n - 1) + LinkedFn(p, n - 1)
  }

  function FirstMissing(fixups: seq<CallFixup>, starts: map<string, nat>): Option<string> {
    if fixups == [] then None
    else if fixups[0].callee !in starts then Some(fixups[0].callee)
    else FirstMissing(fixups[1..], starts)
  }

  ghost function FirstMissingFrom(p: Program, f: nat): Option<string>
    requires Ready(p) && f <= |p.functions|
    decreases |p.functions| - f
  {
    if f == |p.functions| then None
    else
      match FirstMissing(FixupsOf(Listing(p, f)), Starts(p, |p.functions|))
      case Some(c) => Some(c)
      case None => FirstMissingFrom(p, f + 1)
  }

  ghost function LinkSpec(p: Program): Result<CompiledCode, CodegenError>
    requires Ready(p)
  {
    var n := |p.functions|;
    LinkableDistinct(p);
    var entry := p.functions[p.entryIndex].name;
    match FirstMissingFrom(p, 0)
    case Some(c) => Err(UnresolvedCall(c))
    case None =>
      if entry !in Starts(p, n) then Err(EntryMissing)
      else Ok(CompiledCode(Bytes(LinkedUpto(p, n)), Starts(p, n)[entry]))
  }

  // ---------------------------------------------------------------- call fixups

  predicate RecordsCall(c: CallFixup, l: seq<Asm>) {
    var k := c.byteOffset / 4;
    c.byteOffset == 4 * k && k < |l| && l[k].CallTo? && c.callee == l[k].callee
  }

  predicate FixupAt(cs: seq<CallFixup>, at: nat) { exists j :: 0 <= j < |cs| && cs[j].byteOffset == at }

  lemma RecordsCallPrefix(c: CallFixup, l: seq<Asm>)
    requires l != [] && RecordsCall(c, l[..|l| - 1])
    ensures RecordsCall(c, l)
  {
  }

  lemma {:induction false} FixupsSound(l: seq<Asm>)
    ensures forall j :: 0 <= j < |FixupsOf(l)| ==> RecordsCall(FixupsOf(l)[j], l)
    ensures forall j :: 0 <= j < |FixupsOf(l)| ==> FixupsOf(l)[j].byteOffset < 4 * |l|
    ensures forall i, j :: 0 <= i < j < |FixupsOf(l)| ==> FixupsOf(l)[i].byteOffset < FixupsOf(l)[j].byteOffset
  {
    if l != [] {
      var n := |l| - 1;
      FixupsSound(l[..n]);
      var q, p := FixupsOf(l[..n]), FixupsOf(l);
      forall j | 0 <= j < |p| ensures RecordsCall(p[j], l) {
        if j < |q| {
          assert p[j] == q[j];
          RecordsCallPrefix(q[j], l);
        } else {
          assert p[j] == CallFixup(4 * n, l[n].callee);
        }
      }
    }
  }

  lemma {:induction false} FixupsComplete(l: seq<Asm>)
    ensures forall k :: 0 <= k < |l| && l[k].CallTo? ==> FixupAt(FixupsOf(l), 4 * k)
  {
    if l != [] {
      var n := |l| - 1;
      FixupsComplete(l[..n]);
      var q, p := FixupsOf(l[..n]), FixupsOf(l);
      forall k | 0 <= k < |l| && l[k].CallTo? ensures FixupAt(p, 4 * k) {
        if k < n {
          assert l[..n][k].CallTo?;
          var j :| 0 <= j < |q| && q[j].byteOffset == 4 * k;
          assert p[j] == q[j];
        } else {
          assert p[|q|].byteOffset == 4 * k;
        }
      }
    }
  }

  // ---------------------------------------------------------------- linkCompiledFunctions

  // While a function is patched: the words below the i-th fixup are final.
  ghost predicate CallsPatched(unlinked: seq<nat>, linked: seq<nat>, cs: seq<CallFixup>, i: nat, ws: seq<nat>) {
    && |ws| == |unlinked| == |linked|
    && forall k :: 0 <= k < |ws| ==> ws[k] == if i < |cs| && 4 * k >= cs[i].byteOffset then unlinked[k] else linked[k]
  }

  ghost predicate DifferAtCalls(l: seq<Asm>, unlinked: seq<nat>, linked: seq<nat>) {
    && |l| == |unlinked| == |linked|
    && forall k :: 0 <= k < |l| ==> unlinked[k] == if l[k].CallTo? then BL_WORD else linked[k]
  }

  lemma PatchCallStep(l: seq<Asm>, unlinked: seq<nat>, linked: seq<nat>, cs: seq<CallFixup>, i: nat, ws: seq<nat>)
    requires cs == FixupsOf(l) && i < |cs| && DifferAtCalls(l, unlinked, linked) && CallsPatched(unlinked, linked, cs, i, ws)
    requires RecordsCall(cs[i], l)
    ensures CallsPatched(unlinked, linked, cs, i + 1, ws[cs[i].byteOffset / 4 := linked[cs[i].byteOffset / 4]])
  {
    FixupsSound(l);
    FixupsComplete(l);
    hide FixupsOf;
    var at := cs[i].byteOffset;
    var next := ws[at / 4 := linked[at / 4]];
    forall m | 0 <= m < |next|
      ensures next[m] == if i + 1 < |cs| && 4 * m >= cs[i + 1].byteOffset then unlinked[m] else linked[m]
    {
      if 4 * m > at && l[m].CallTo? { assert FixupAt(cs, 4 * m); }
    }
  }

  lemma NoCallsPatched(l: seq<Asm>, unlinked: seq<nat>, linked: seq<nat>)
    requires DifferAtCalls(l, unlinked, linked)
    ensures CallsPatched(unlinked, linked, FixupsOf(l), 0, unlinked)
  {
    FixupsComplete(l);
    hide FixupsOf;
    var cs := FixupsOf(l);
    forall m | 0 <= m < |l|
      ensures unlinked[m] == if 0 < |cs| && 4 * m >= cs[0].byteOffset then unlinked[m] else linked[m]
    {
      if l[m].CallTo? {
        assert FixupAt(cs, 4 * m);
        FixupsSound(l);
      }
    }
  }

  lemma LinkedDiffers(p: Program, f: nat)
    requires Ready(p) && f < |p.functions|
    ensures DifferAtCalls(Listing(p, f), UnlinkedWords(p, f), LinkedFn(p, f))
  {
    hide Ready, CompileSpec, Listing, Starts, FnStart, Patch26;
  }

  // The word to patch is the unpatched BL, whatever stands around the function's words.
  lemma FetchCall(before: seq<nat>, ws: seq<nat>, after: seq<nat>, k: nat)
    requires k < |ws| && ws[k] == BL_WORD
    ensures Arm64Machine.FetchWord(Bytes(before + ws + after), 4 * |before| + 4 * k) == BL_WORD
  {
    hide Bytes;
    assert (before + ws + after)[|before| + k] == ws[k];
    FetchBytes(before + ws + after, |before| + k);
  }

  lemma OverwriteMiddle(before: seq<nat>, ws: seq<nat>, after: seq<nat>, k: nat, word: nat)
    requires k < |ws|
    ensures Overwrite(Bytes(before + ws + after), 4 * |before| + 4 * k, word) == Bytes(before + ws[k := word] + after)
  {
    hide Bytes;
    OverwriteBytes(before + ws + after, |before| + k, word);
    assert (before + ws + after)[|before| + k := word] == before + ws[k := word] + after;
  }

  // One step of concatenation, in terms of the compiled function alone.
  lemma ConcatenateStep(p: Program, i: nat, c: CompiledFunction, code: seq<Byte>)
    requires Ready(p) && i < |p.functions| && CompileSpec(p.functions[i]) == Ok(c)
    ensures |c.code| == 4 * |Listing(p, i)| && c.name == p.functions[i].name
    ensures code + Bytes(UnlinkedFrom(p, i)) == (code + c.code) + Bytes(UnlinkedFrom(p, i + 1))
  {
    hide Bytes, UnlinkedFrom, UnlinkedWords, Ready, CompileSpec, Listing;
    CompiledForm(p, i);
    UnlinkedStep(p, i);
    BytesAppend(UnlinkedWords(p, i), UnlinkedFrom(p, i + 1));
    Assoc(code, c.code, Bytes(UnlinkedFrom(p, i + 1)));
  }

  method ConcatenateFunctions(compiled: seq<CompiledFunction>, ghost p: Program)
    returns (code: seq<Byte>, functionStart: map<string, nat>)
    requires Ready(p) && |compiled| == |p.functions|
    requires forall i :: 0 <= i < |compiled| ==> CompileSpec(p.functions[i]) == Ok(compiled[i])
    ensures code == Bytes(UnlinkedFrom(p, 0)) && functionStart == Starts(p, |p.functions|)
  {
    code, functionStart := [], map[];
    hide CompileSpec, Bytes, Ready, UnlinkedFrom, Listing;
    assert [] + Bytes(UnlinkedFrom(p, 0)) == Bytes(UnlinkedFrom(p, 0));
    for i := 0 to |compiled|
      invariant code + Bytes(UnlinkedFrom(p, i)) == Bytes(UnlinkedFrom(p, 0)) && |code| == 4 * FnStart(p, i)
      invariant functionStart == Starts(p, i)
    {
      ConcatenateStep(p, i, compiled[i], code);
      functionStart := functionStart[compiled[i].name := |code|];
      code := code + compiled[i].code;
    }
    NothingLeft(p);
    assert Bytes([]) == [] && code + [] == code;
  }

  lemma NothingLeft(p: Program)
    requires Ready(p)
    ensures UnlinkedFrom(p, |p.functions|) == []
    ensures FirstMissingFrom(p, |p.functions|) == None
  {
  }

  lemma HalfwayEnds(p: Program)
    requires Ready(p)
    ensures Halfway(p, 0) == UnlinkedFrom(p, 0) && Halfway(p, |p.functions|) == LinkedUpto(p, |p.functions|)
  {
  }

  // What patching the calls of function i starts from and ends with.
  lemma LinkStep(p: Program, i: nat, c: CompiledFunction)
    requires Ready(p) && i < |p.functions| && CompileSpec(p.functions[i]) == Ok(c)
    ensures c.name in Starts(p, |p.functions|) && Starts(p, |p.functions|)[c.name] == 4 * |LinkedUpto(p, i)|
    ensures c.callFixups == FixupsOf(Listing(p, i))
    ensures DifferAtCalls(Listing(p, i), UnlinkedWords(p, i), LinkedFn(p, i))
    ensures CallTargetsAt(Listing(p, i), LinkedFn(p, i), Starts(p, |p.functions|)[c.name], Starts(p, |p.functions|))
  {
    hide CompileSpec, Ready, Starts, FixupsOf, Listing, LinkedFn, UnlinkedWords, CallTargetsAt, Bytes, LinkedUpto, DifferAtCalls;
    CompiledForm(p, i);
    LinkedDiffers(p, i);
    LinkedCallTargets(p, i);
    StartsFacts(p, |p.functions|);
    assert p.functions[i].name == c.name;
  }

  lemma HalfwayStep(p: Program, i: nat)
    requires Ready(p) && i < |p.functions|
    ensures Halfway(p, i) == Splice(LinkedUpto(p, i), UnlinkedWords(p, i), UnlinkedFrom(p, i + 1))
    ensures Splice(LinkedUpto(p, i), LinkedFn(p, i), UnlinkedFrom(p, i + 1)) == Halfway(p, i + 1)
  {
    hide CompileSpec, Ready, Listing, LinkedFn, UnlinkedWords;
    Assoc(LinkedUpto(p, i), UnlinkedWords(p, i), UnlinkedFrom(p, i + 1));
  }

  lemma MissingFromStep(p: Program, i: nat)
    requires Ready(p) && i < |p.functions|
    ensures FirstMissingFrom(p, i) == match FirstMissing(FixupsOf(Listing(p, i)), Starts(p, |p.functions|))
                                      case Some(s) => Some(s)
                                      case None => FirstMissingFrom(p, i + 1)
  {
    hide CompileSpec, Ready, Listing, Starts, FixupsOf, FirstMissing;
  }

  // The words while function i is next: the functions before it linked, the others not.
  ghost function Halfway(p: Program, i: nat): seq<nat>
    requires Ready(p) && i <= |p.functions|
  {
    LinkedUpto(p, i) + UnlinkedFrom(p, i)
  }

  function Splice(before: seq<nat>, ws: seq<nat>, after: seq<nat>): seq<nat> { before + ws + after }

  // The loop over the functions whose calls are patched.
  method PatchAllCalls(compiled: seq<CompiledFunction>, functionStart: map<string, nat>, start: seq<Byte>, ghost p: Program)
    returns (code: seq<Byte>, missing: Option<string>)
    requires Ready(p) && |compiled| == |p.functions| && functionStart == Starts(p, |p.functions|)
    requires forall i :: 0 <= i < |compiled| ==> CompileSpec(p.functions[i]) == Ok(compiled[i])
    requires start == Bytes(Halfway(p, 0))
    ensures missing == FirstMissingFrom(p, 0)
    ensures missing == None ==> code == Bytes(Halfway(p, |p.functions|))
  {
    hide CompileSpec, Bytes, Ready, Starts, FixupsOf, FirstMissing, Listing, LinkedFn, UnlinkedWords, CallTargetsAt, FnStart;
    hide LinkedUpto, UnlinkedFrom, FirstMissingFrom, DifferAtCalls, Halfway, Splice;
    code := start;
    for i := 0 to |compiled|
      invariant code == Bytes(Halfway(p, i))
      invariant FirstMissingFrom(p, 0) == FirstMissingFrom(p, i)
    {
      var c := compiled[i];
      LinkStep(p, i, c);
      HalfwayStep(p, i);
      MissingFromStep(p, i);
      code, missing := PatchCalls(code, functionStart[c.name], c.callFixups, functionStart,
                                  Listing(p, i), LinkedUpto(p, i), UnlinkedWords(p, i), LinkedFn(p, i), UnlinkedFrom(p, i + 1));
      if missing.Some? { return; }
    }
    NothingLeft(p);
    missing := None;
  }

  method LinkCompiledFunctions(compiled: seq<CompiledFunction>, p: Program) returns (r: Result<CompiledCode, CodegenError>)
    requires Ready(p) && |compiled| == |p.functions|
    requires forall i :: 0 <= i < |compiled| ==> CompileSpec(p.functions[i]) == Ok(compiled[i])
    ensures r == LinkSpec(p)
  {
    hide CompileSpec, Bytes, Ready, Starts, LinkedUpto, UnlinkedFrom, FirstMissingFrom, Halfway;
    var code, functionStart := ConcatenateFunctions(compiled, p);
    var missing;
    HalfwayEnds(p);
    code, missing := PatchAllCalls(compiled, functionStart, code, p);
    if missing.Some? { return Err(UnresolvedCall(missing.value)); }
    LinkableDistinct(p);
    var entry := p.functions[p.entryIndex].name;
    if entry !in functionStart { return Err(EntryMissing); }
    r := Ok(CompiledCode(code, functionStart[entry]));
  }

  // Which word a resolved call becomes, when its function starts at byte `base`.
  ghost predicate CallTargetsAt(l: seq<Asm>, linked: seq<nat>, base: nat, starts: map<string, nat>) {
    forall k :: 0 <= k < |l| && k < |linked| && l[k].CallTo? && l[k].callee in starts ==>
      linked[k] == Patch26(BL_WORD, starts[l[k].callee] - (base + 4 * k))
  }

  // The inner loop: the fixups of one function, whose words lie between `before` and `after`.
  method PatchCalls(start: seq<Byte>, base: nat, fixups: seq<CallFixup>, functionStart: map<string, nat>,
                    ghost l: seq<Asm>, ghost before: seq<nat>, ghost unlinked: seq<nat>, ghost linked: seq<nat>, ghost after: seq<nat>)
    returns (code: seq<Byte>, missing: Option<string>)
    requires start == Bytes(Splice(before, unlinked, after)) && base == 4 * |before| && fixups == FixupsOf(l)
    requires DifferAtCalls(l, unlinked, linked) && CallTargetsAt(l, linked, base, functionStart)
    ensures missing == FirstMissing(fixups, functionStart)
    ensures missing == None ==> code == Bytes(Splice(before, linked, after))
  {
    hide Bytes, FixupsOf, FirstMissing, CallsPatched, Patch26;
    NoCallsPatched(l, unlinked, linked);
    FixupsSound(l);
    code := start;
    ghost var ws: seq<nat> := unlinked;
    var i := 0;
    while i < |fixups|
      invariant 0 <= i <= |fixups|
      invariant code == Bytes(before + ws + after) && CallsPatched(unlinked, linked, fixups, i, ws)
      invariant FirstMissing(fixups, functionStart) == FirstMissing(fixups[i..], functionStart)
    {
      MissingStep(fixups, i, functionStart);
      var fixup := fixups[i];
      assert RecordsCall(fixup, l);
      if fixup.callee !in functionStart { return code, Some(fixup.callee); }
      ghost var k := fixup.byteOffset / 4;
      var at := base + fixup.byteOffset;
      var delta := functionStart[fixup.callee] - at;
      UnpatchedAt(l, unlinked, linked, fixups, i, ws);
      FetchCall(before, ws, after, k);
      var word := Arm64Machine.FetchWord(code, at);
      var patched := Patch26(word, delta);
      OverwriteMiddle(before, ws, after, k, patched);
      code := Overwrite(code, at, patched);
      PatchCallStep(l, unlinked, linked, fixups, i, ws);
      ws := ws[k := patched];
      i := i + 1;
    }
    MissingStep(fixups, i, functionStart);
    AllCallsPatched(unlinked, linked, fixups, ws);
    missing := None;
  }

  lemma MissingStep(cs: seq<CallFixup>, i: nat, starts: map<string, nat>)
    requires i <= |cs|
    ensures i < |cs| ==>
      FirstMissing(cs[i..], starts) == if cs[i].callee in starts then FirstMissing(cs[i + 1..], starts) else Some(cs[i].callee)
    ensures i == |cs| ==> FirstMissing(cs[i..], starts) == None
  {
    if i < |cs| { assert cs[i..][1..] == cs[i + 1..]; }
  }

  lemma UnlinkedStep(p: Program, f: nat)
    requires Ready(p) && f < |p.functions|
    ensures UnlinkedFrom(p, f) == UnlinkedWords(p, f) + UnlinkedFrom(p, f + 1)
  {
    hide UnlinkedWords, Ready, CompileSpec;
  }

  lemma UnpatchedAt(l: seq<Asm>, unlinked: seq<nat>, linked: seq<nat>, cs: seq<CallFixup>, i: nat, ws: seq<nat>)
    requires DifferAtCalls(l, unlinked, linked) && i < |cs| && RecordsCall(cs[i], l) && CallsPatched(unlinked, linked, cs, i, ws)
    ensures |ws| == |l| && ws[cs[i].byteOffset / 4] == BL_WORD
  {
  }

  lemma LinkedCallTargets(p: Program, f: nat)
    requires Ready(p) && f < |p.functions|
    ensures CallTargetsAt(Listing(p, f), LinkedFn(p, f), 4 * FnStart(p, f), Starts(p, |p.functions|))
  {
    hide Ready, CompileSpec, Listing, Starts, FnStart, Patch26;
  }

  lemma AllCallsPatched(unlinked: seq<nat>, linked: seq<nat>, cs: seq<CallFixup>, ws: seq<nat>)
    requires CallsPatched(unlinked, linked, cs, |cs|, ws)
    ensures ws == linked
  {
  }

  // ---------------------------------------------------------------- compileProgram

  function FirstFailure(fs: seq<Function>): Option<CodegenError>
    requires forall f :: 0 <= f < |fs| ==> FunctionShaped(fs[f])
  {
    if fs == [] then None
    else
      match CompileSpec(fs[0])
      case Err(e) => Some(e)
      case Ok(_) => FirstFailure(fs[1..])
  }

  lemma {:induction false} FirstFailureNone(fs: seq<Function>)
    requires forall f :: 0 <= f < |fs| ==> FunctionShaped(fs[f])
    ensures FirstFailure(fs) == None <==> forall f :: 0 <= f < |fs| ==> CompileSpec(fs[f]).Ok?
  {
    hide CompileSpec, FunctionShaped;
    if fs != [] {
      FirstFailureNone(fs[1..]);
      assert forall f :: 1 <= f < |fs| ==> fs[f] == fs[1..][f - 1];
    }
  }

  ghost function CompileProgramSpec(p: Program): Result<CompiledCode, CodegenError>
    requires Linkable(p)
  {
    match FirstFailure(p.functions)
    case Some(e) => Err(e)
    case None =>
      FirstFailureNone(p.functions);
      LinkSpec(p)
  }

  method CompileProgram(p: Program) returns (r: Result<CompiledCode, CodegenError>)
    requires Linkable(p)
    ensures r == CompileProgramSpec(p)
  {
    var compiled := [];
    hide CompileSpec, FunctionShaped, LinkSpec;
    for i := 0 to |p.functions|
      invariant |compiled| == i
      invariant forall j :: 0 <= j < i ==> CompileSpec(p.functions[j]) == Ok(compiled[j])
      invariant FirstFailure(p.functions) == FirstFailure(p.functions[i..])
    {
      var one := CompileFunction(p.functions[i]);
      if one.Err? { return Err(one.error); }
      assert p.functions[i..][1..] == p.functions[i + 1..];
      compiled := compiled + [one.value];
    }
    assert p.functions[|p.functions|..] == [];
    r := LinkCompiledFunctions(compiled, p);
  }
}
