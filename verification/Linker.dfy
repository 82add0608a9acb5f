// link() of src/linker/linker.cpp: joining objects into a program, and what a native link gains from it.

module Linker {
  import opened Ast
  import opened Arm64Encoder
  import opened Codegen
  import opened CompileExact
  import Arm64Words
  import Relocation

  datatype LinkError =
    | DuplicateFunction(name: string)
    | UnresolvedTarget(target: string, fnName: string)
    | NoMain
    | MainNotExported

  function Flatten(objects: seq<Object>): seq<Function> {
    if objects == [] then [] else Flatten(objects[..|objects| - 1]) + objects[|objects| - 1].functions
  }

  lemma OneObject(m: Object)
    ensures Flatten([m]) == m.functions
  {
    assert [m][..0] == [] && Flatten([]) == [];
  }

  lemma FlattenNext(a: seq<Object>, m: Object)
    ensures Flatten(a + [m]) == Flatten(a) + m.functions
  {
    assert (a + [m])[..|a|] == a;
  }

  // The functions come in the order of the objects.
  lemma {:induction false} FlattenAdds(a: seq<Object>, b: seq<Object>)
    ensures Flatten(a + b) == Flatten(a) + Flatten(b)
    decreases |b|
  {
    if b == [] {
      assert a + b == a;
      assert Flatten(b) == [];
    } else {
      var n := |b| - 1;
      hide Flatten;
      FlattenAdds(a, b[..n]);
      FlattenNext(a + b[..n], b[n]);
      FlattenNext(b[..n], b[n]);
      assert a + b == (a + b[..n]) + [b[n]] && b == b[..n] + [b[n]];
      Assoc(Flatten(a), Flatten(b[..n]), b[n].functions);
    }
  }

  // The first function, in order, whose name was already taken.
  function FirstDuplicate(fs: seq<Function>): Option<string> {
    if fs == [] then None
    else
      var n := |fs| - 1;
      match FirstDuplicate(fs[..n])
      case Some(s) => Some(s)
      case None => if fs[n].name in FunctionNames(fs[..n]) then Some(fs[n].name) else None
  }

  predicate CallsShaped(fs: seq<Function>) {
    forall f, b, i | 0 <= f < |fs| && 0 <= b < |fs[f].blocks| && 0 <= i < |fs[f].blocks[b].instructions| ::
      fs[f].blocks[b].instructions[i].opcode == CALL ==> |fs[f].blocks[b].instructions[i].operands| >= 1
  }

  // Every call instruction names a function of the program.
  predicate CallsResolve(fn: Function, names: seq<string>) {
    forall b, i :: 0 <= b < |fn.blocks| && 0 <= i < |fn.blocks[b].instructions| ==> CallResolves(fn.blocks[b].instructions[i], names)
  }

  predicate CallResolves(instr: Instruction, names: seq<string>) {
    instr.opcode == CALL ==> |instr.operands| >= 1 && OperandName(instr.operands[0]) in names
  }

  predicate AllCallsResolve(fs: seq<Function>) {
    forall f :: 0 <= f < |fs| ==> CallsResolve(fs[f], FunctionNames(fs))
  }

  // Function n is the first whose name was already taken.
  predicate DuplicateAt(fs: seq<Function>, n: nat) {
    n < |fs| && DistinctNames(fs[..n]) && fs[n].name in FunctionNames(fs[..n])
  }

  // Instruction i of block b of function f is the first call, in program order, that names no function.
  predicate BadCallAt(fs: seq<Function>, f: nat, b: nat, i: nat) {
    && f < |fs| && b < |fs[f].blocks| && i < |fs[f].blocks[b].instructions|
    && !CallResolves(fs[f].blocks[b].instructions[i], FunctionNames(fs))
    && (forall g :: 0 <= g < f ==> CallsResolve(fs[g], FunctionNames(fs)))
    && (forall c, j :: 0 <= c < b && 0 <= j < |fs[f].blocks[c].instructions| ==>
          CallResolves(fs[f].blocks[c].instructions[j], FunctionNames(fs)))
    && (forall j :: 0 <= j < i ==> CallResolves(fs[f].blocks[b].instructions[j], FunctionNames(fs)))
  }

  // That call, and the error it is reported with.
  predicate ReportsCall(fs: seq<Function>, f: nat, b: nat, i: nat, target: string, fnName: string) {
    && BadCallAt(fs, f, b, i) && fnName == fs[f].name
    && |fs[f].blocks[b].instructions[i].operands| >= 1
    && target == OperandName(fs[f].blocks[b].instructions[i].operands[0])
  }

  predicate IsMain(fn: Function) { fn.name == "main" && fn.isExported }

  // What a program must be to be the result of linking these objects.
  predicate IsLinked(objects: seq<Object>, p: Program) {
    && p.functions == Flatten(objects)
    && DistinctNames(p.functions)
    && AllCallsResolve(p.functions)
    && exists m :: 0 <= m < |p.functions| && IsMain(p.functions[m]) && p.entryIndex == m % 0x1_0000_0000
  }

  // What linking leaves open of what the native linker relies on: the operands.
  lemma LinkedIsLinkable(objects: seq<Object>, p: Program)
    requires IsLinked(objects, p)
    ensures Linkable(p) <==> AllWellShaped(p.functions)
  {
    hide FunctionShaped, AllCallsResolve, Flatten;
  }

  lemma {:induction false} FirstDuplicateNone(fs: seq<Function>)
    ensures FirstDuplicate(fs) == None <==> DistinctNames(fs)
  {
    if fs != [] {
      var n := |fs| - 1;
      FirstDuplicateNone(fs[..n]);
      if fs[n].name in FunctionNames(fs[..n]) {
        var j :| 0 <= j < n && FunctionNames(fs[..n])[j] == fs[n].name;
        assert fs[j].name == fs[n].name;
      } else if DistinctNames(fs[..n]) {
        forall i, j | 0 <= i < j < |fs| ensures fs[i].name != fs[j].name {
          assert fs[i].name == FunctionNames(fs[..n])[i];
          if j < n { assert fs[j] == fs[..n][j]; }
        }
      }
    }
  }

  lemma {:induction false} FirstDuplicateIs(fs: seq<Function>)
    ensures FirstDuplicate(fs).Some? ==> exists n: nat :: DuplicateAt(fs, n) && fs[n].name == FirstDuplicate(fs).value
  {
    if fs != [] {
      var n := |fs| - 1;
      FirstDuplicateIs(fs[..n]);
      if FirstDuplicate(fs[..n]).Some? {
        var k: nat :| DuplicateAt(fs[..n], k) && fs[..n][k].name == FirstDuplicate(fs[..n]).value;
        assert fs[..n][..k] == fs[..k];
        assert DuplicateAt(fs, k);
      } else if FirstDuplicate(fs).Some? {
        FirstDuplicateNone(fs[..n]);
        assert DuplicateAt(fs, n);
      }
    }
  }

  lemma DuplicateStays(fs: seq<Function>, rest: seq<Function>)
    requires FirstDuplicate(fs).Some?
    ensures FirstDuplicate(fs + rest) == FirstDuplicate(fs)
    decreases |rest|
  {
    var all := fs + rest;
    if rest == [] {
      assert all == fs;
    } else {
      var n := |rest| - 1;
      DuplicateStays(fs, rest[..n]);
      assert all[..|all| - 1] == fs + rest[..n];
    }
  }

  lemma FlattenPrefix(objects: seq<Object>, n: nat) returns (rest: seq<Function>)
    requires n < |objects|
    ensures Flatten(objects) == (Flatten(objects[..n]) + objects[n].functions) + rest
    decreases |objects|
  {
    var m := |objects| - 1;
    if n == m {
      rest := [];
    } else {
      var before := FlattenPrefix(objects[..m], n);
      rest := before + objects[m].functions;
      assert objects[..m][..n] == objects[..n];
      Assoc(Flatten(objects[..n]) + objects[n].functions, before, objects[m].functions);
    }
  }

  // A repeated name found at function fi of object oi is the first one of all objects.
  lemma DuplicateFound(objects: seq<Object>, oi: nat, fi: nat, fs: seq<Function>)
    requires oi < |objects| && fi < |objects[oi].functions|
    requires fs == Flatten(objects[..oi]) + objects[oi].functions[..fi]
    requires FirstDuplicate(fs) == None && objects[oi].functions[fi].name in FunctionNames(fs)
    ensures FirstDuplicate(Flatten(objects)) == Some(objects[oi].functions[fi].name)
  {
    var all := objects[oi].functions;
    var now := fs + [all[fi]];
    assert FirstDuplicate(now) == Some(all[fi].name) by { assert now[..|now| - 1] == fs; }
    var rest := FlattenPrefix(objects, oi);
    hide FirstDuplicate, Flatten, FunctionNames;
    SplitAround(Flatten(objects[..oi]), all, fi, rest);
    DuplicateStays(now, all[fi + 1..] + rest);
  }

  lemma SplitAround<T>(a: seq<T>, s: seq<T>, i: nat, rest: seq<T>)
    requires i < |s|
    ensures (a + s) + rest == ((a + s[..i]) + [s[i]]) + (s[i + 1..] + rest)
  {
  }

  lemma NextIsNew(fs: seq<Function>, fn: Function)
    requires FirstDuplicate(fs) == None && fn.name !in FunctionNames(fs)
    ensures FirstDuplicate(fs + [fn]) == None
    ensures IndexMap(FunctionNames(fs + [fn])) == IndexMap(FunctionNames(fs))[fn.name := |fs|]
  {
    var next := fs + [fn];
    assert next[..|next| - 1] == fs;
    assert FunctionNames(next)[..|fs|] == FunctionNames(fs);
  }

  lemma EmptyTables()
    ensures FirstDuplicate([]) == None && FunctionNames([]) == []
  {
  }

  // The first loop nest: the functions of all objects in order, or the first repeated name.
  method Collect(objects: seq<Object>) returns (fs: seq<Function>, functionIndex: map<string, nat>, duplicate: Option<string>)
    ensures duplicate == FirstDuplicate(Flatten(objects))
    ensures duplicate == None ==> fs == Flatten(objects) && functionIndex == IndexMap(FunctionNames(fs))
  {
    hide FirstDuplicate, FunctionNames;
    fs, functionIndex, duplicate := [], map[], None;
    EmptyTables();
    for oi := 0 to |objects|
      invariant fs == Flatten(objects[..oi]) && functionIndex == IndexMap(FunctionNames(fs))
      invariant FirstDuplicate(fs) == None
    {
      var obj := objects[oi];
      ghost var start := fs;
      for fi := 0 to |obj.functions|
        invariant fs == start + obj.functions[..fi] && functionIndex == IndexMap(FunctionNames(fs))
        invariant FirstDuplicate(fs) == None
      {
        var fn := obj.functions[fi];
        IndexMapIsLast(FunctionNames(fs));
        if fn.name in functionIndex {
          DuplicateFound(objects, oi, fi, fs);
          duplicate := Some(fn.name);
          return;
        }
        NextIsNew(fs, fn);
        functionIndex := functionIndex[fn.name := |fs|];
        fs := fs + [fn];
      }
      assert obj.functions[..|obj.functions|] == obj.functions;
      assert objects[..oi + 1][..oi] == objects[..oi];
    }
    assert objects[..|objects|] == objects;
  }

  lemma CallHasOperand(fs: seq<Function>, f: nat, b: nat, i: nat)
    requires CallsShaped(fs) && f < |fs| && b < |fs[f].blocks| && i < |fs[f].blocks[b].instructions|
    ensures fs[f].blocks[b].instructions[i].opcode == CALL ==> |fs[f].blocks[b].instructions[i].operands| >= 1
  {
  }

  // The second loop nest: the first call that names no function.
  method CheckCalls(fs: seq<Function>, functionIndex: map<string, nat>) returns (bad: Option<(string, string)>)
    requires CallsShaped(fs) && functionIndex == IndexMap(FunctionNames(fs))
    ensures bad == None <==> AllCallsResolve(fs)
    ensures bad.Some? ==> exists f: nat, b: nat, i: nat :: ReportsCall(fs, f, b, i, bad.value.0, bad.value.1)
  {
    hide CallsShaped;
    IndexMapIsLast(FunctionNames(fs));
    ghost var names := FunctionNames(fs);
    for fi := 0 to |fs|
      invariant forall f :: 0 <= f < fi ==> CallsResolve(fs[f], names)
    {
      var fn := fs[fi];
      for bi := 0 to |fn.blocks|
        invariant forall b, i :: 0 <= b < bi && 0 <= i < |fn.blocks[b].instructions| ==> CallResolves(fn.blocks[b].instructions[i], names)
      {
        var instrs := fn.blocks[bi].instructions;
        for ii := 0 to |instrs|
          invariant forall i :: 0 <= i < ii ==> CallResolves(instrs[i], names)
        {
          var instr := instrs[ii];
          if instr.opcode == CALL {
            CallHasOperand(fs, fi, bi, ii);
            var target := OperandName(instr.operands[0]);
            if target !in functionIndex {
              assert !CallResolves(fn.blocks[bi].instructions[ii], names);
              assert !CallsResolve(fs[fi], names);
              assert ReportsCall(fs, fi, bi, ii, target, fn.name);
              return Some((target, fn.name));
            }
          }
        }
      }
    }
    bad := None;
  }

  // Which error is reported: the first repeated name; else the first unresolved call; else what is wrong with
  // main.
  ghost predicate Reports(fs: seq<Function>, e: LinkError) {
    match e
    case DuplicateFunction(name) => exists n: nat :: DuplicateAt(fs, n) && fs[n].name == name
    case UnresolvedTarget(target, fnName) => DistinctNames(fs) && exists f: nat, b: nat, i: nat :: ReportsCall(fs, f, b, i, target, fnName)
    case NoMain => DistinctNames(fs) && AllCallsResolve(fs) && "main" !in FunctionNames(fs)
    case MainNotExported =>
      DistinctNames(fs) && AllCallsResolve(fs) && exists m :: 0 <= m < |fs| && fs[m].name == "main" && !fs[m].isExported
  }

  // Linking succeeds exactly when some program is linked from the objects, and then returns it. The
  // check for a repeated export can never fire: a repeated name is rejected first.
  method Link(objects: seq<Object>) returns (r: Result<Program, LinkError>)
    requires CallsShaped(Flatten(objects))
    ensures r.Ok? ==> IsLinked(objects, r.value)
    ensures r.Err? ==> forall p :: !IsLinked(objects, p)
    ensures r.Err? ==> Reports(Flatten(objects), r.error)
  {
    hide FirstDuplicate, Flatten, AllCallsResolve, BadCallAt;
    var fs, functionIndex, duplicate := Collect(objects);
    FirstDuplicateNone(Flatten(objects));
    FirstDuplicateIs(Flatten(objects));
    if duplicate.Some? { return Err(DuplicateFunction(duplicate.value)); }
    IndexMapIsLast(FunctionNames(fs));
    var bad := CheckCalls(fs, functionIndex);
    if bad.Some? { return Err(UnresolvedTarget(bad.value.0, bad.value.1)); }
    if "main" !in functionIndex {
      assert forall m :: 0 <= m < |fs| ==> FunctionNames(fs)[m] == fs[m].name;
      return Err(NoMain);
    }
    var mainIndex := functionIndex["main"];
    assert fs[mainIndex].name == "main";
    if !fs[mainIndex].isExported { return Err(MainNotExported); }
    r := Ok(Program(fs, mainIndex % 0x1_0000_0000));
  }

  // ---------------------------------------------------------------- a linked program never fails the native link

  lemma {:induction false} NothingMissingFrom(p: Program, f: nat)
    requires Ready(p) && f <= |p.functions|
    requires forall g :: 0 <= g < |p.functions| ==> CallsResolve(p.functions[g], FunctionNames(p.functions))
    ensures FirstMissingFrom(p, f) == None
    decreases |p.functions| - f
  {
    if f == |p.functions| {
      NothingLeft(p);
    } else {
      hide *;
      NothingMissingFrom(p, f + 1);
      MissingFromStep(p, f);
      FunctionMissesNothing(p, f);
    }
  }

  lemma FunctionMissesNothing(p: Program, f: nat)
    requires Ready(p) && f < |p.functions| && CallsResolve(p.functions[f], FunctionNames(p.functions))
    ensures FirstMissing(FixupsOf(Listing(p, f)), Starts(p, |p.functions|)) == None
  {
    CompiledIsEmittable(p.functions[f]);
    var l := Listing(p, f);
    assert l == FnAsm(p.functions[f]);
    hide Ready, FixupsOf, FirstMissing, Listing, FnAsm, Starts;
    FixupsSound(l);
    StartsFacts(p, |p.functions|);
    var cs := FixupsOf(l);
    forall j | 0 <= j < |cs| ensures cs[j].callee in Starts(p, |p.functions|) {
      assert RecordsCall(cs[j], l);
      var b, i := ComesFromWhere(p.functions[f], cs[j].byteOffset / 4);
      assert CallResolves(p.functions[f].blocks[b].instructions[i], FunctionNames(p.functions));
      var g :| 0 <= g < |p.functions| && FunctionNames(p.functions)[g] == cs[j].callee;
      assert p.functions[g].name == cs[j].callee;
    }
    Relocation.FirstMissingNone(cs, Starts(p, |p.functions|));
  }

  // The entry index is that of main, unless the cast to 32 bits cuts it.
  lemma EntryIsMain(objects: seq<Object>, p: Program)
    requires IsLinked(objects, p)
    ensures |p.functions| <= 0x1_0000_0000 ==> forall m :: 0 <= m < |p.functions| && p.functions[m].name == "main" ==>
      p.entryIndex == m && IsMain(p.functions[m])
  {
    hide AllCallsResolve, Flatten;
  }

  // For a program that link() accepted, once every function compiles the native link succeeds: both of
  // its errors are unreachable, and the entry is where main starts.
  lemma NativeLinkCannotFail(objects: seq<Object>, p: Program)
    requires IsLinked(objects, p) && Ready(p)
    ensures LinkSpec(p).Ok?
    ensures LinkSpec(p).value.entryOffset == 4 * FnStart(p, p.entryIndex)
    ensures |p.functions| <= 0x1_0000_0000 ==> forall m :: 0 <= m < |p.functions| && p.functions[m].name == "main" ==>
      LinkSpec(p).value.entryOffset == 4 * FnStart(p, m) && IsMain(p.functions[m])
  {
    LinkableDistinct(p);
    EntryIsMain(objects, p);
    var entry := p.functions[p.entryIndex].name;
    assert FirstMissingFrom(p, 0) == None by { NothingMissingFrom(p, 0); }
    assert entry in Starts(p, |p.functions|) && Starts(p, |p.functions|)[entry] == 4 * FnStart(p, p.entryIndex) by {
      StartsFacts(p, |p.functions|);
    }
    hide Ready, Starts, FirstMissingFrom, LinkedUpto, Arm64Words.Bytes, FnStart, IsLinked;
  }
}
