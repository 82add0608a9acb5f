// compileProgramParallel of src/codegen/codegen.cpp as a state machine over its workers.
//
// Worker t compiles functions t, t + T, t + 2T, ... of T workers. One step of a worker is one iteration
// of its loop: it compiles a function, then stores the result in the slot of that function or the error
// in its own error cell. A schedule says which worker moves next; a worker that has finished stands still.

module ParallelCompile {
  import opened Ast
  import opened Bits
  import opened Arm64Encoder
  import opened Codegen

  datatype Write = Write(worker: nat, slot: nat)

  // writes records who stored which slot, in order.
  datatype Pool = Pool(
    next: seq<nat>, slots: seq<Option<CompiledFunction>>, errors: seq<Option<CodegenError>>, writes: seq<Write>)

  // The number of workers used.
  function WorkerCount(threads: int, n: nat): (t: nat)
    ensures t >= 1 && (1 <= threads && (threads <= n || n == 0) ==> t == threads)
    ensures (threads < 1 ==> t == 1) && (0 < n < threads ==> t == n)
  {
    var atLeastOne := if threads < 1 then 1 else threads;
    if atLeastOne > n && n > 0 then n else atLeastOne
  }

  function Start(workers: nat, n: nat): Pool {
    Pool(seq(workers, t => t), seq(n, _ => None), seq(workers, _ => None), [])
  }

  predicate Shaped(p: Program, workers: nat, s: Pool) {
    |s.next| == |s.errors| == workers && |s.slots| == |p.functions|
  }

  function WorkerStep(p: Program, workers: nat, s: Pool, t: nat): (r: Pool)
    requires Linkable(p) && Shaped(p, workers, s) && t < workers
    ensures Shaped(p, workers, r)
  {
    var i := s.next[t];
    if i >= |p.functions| then s
    else
      assert FunctionShaped(p.functions[i]);
      match CompileSpec(p.functions[i])
      case Ok(c) =>
        Pool(s.next[t := i + workers], s.slots[i := Some(c)], s.errors, s.writes + [Write(t, i)])
      case Err(e) =>
        Pool(s.next[t := i + workers], s.slots, s.errors[t := Some(e)], s.writes + [Write(t, i)])
  }

  predicate ValidSchedule(workers: nat, schedule: seq<nat>) {
    forall k :: 0 <= k < |schedule| ==> schedule[k] < workers
  }

  function RunSchedule(p: Program, workers: nat, s: Pool, schedule: seq<nat>): (r: Pool)
    requires Linkable(p) && Shaped(p, workers, s) && ValidSchedule(workers, schedule)
    ensures Shaped(p, workers, r)
  {
    if schedule == [] then s
    else
      var n := |schedule| - 1;
      WorkerStep(p, workers, RunSchedule(p, workers, s, schedule[..n]), schedule[n])
  }

  predicate Finished(p: Program, workers: nat, s: Pool)
    requires Shaped(p, workers, s)
  {
    forall t :: 0 <= t < workers ==> s.next[t] >= |p.functions|
  }

  // ---------------------------------------------------------------- the invariant of every interleaving

  // Function i has been taken by the worker it belongs to.
  predicate Taken(workers: nat, s: Pool, i: nat)
    requires workers > 0 && |s.next| == workers
  {
    i < s.next[i % workers]
  }

  ghost predicate SlotRight(p: Program, workers: nat, s: Pool, i: nat)
    requires Linkable(p) && Shaped(p, workers, s) && workers > 0 && i < |p.functions|
  {
    assert FunctionShaped(p.functions[i]);
    s.slots[i] == if Taken(workers, s, i) && CompileSpec(p.functions[i]).Ok?
                  then Some(CompileSpec(p.functions[i]).value) else None
  }

  ghost predicate Failed(p: Program, i: nat)
    requires Linkable(p) && i < |p.functions|
  {
    assert FunctionShaped(p.functions[i]);
    CompileSpec(p.functions[i]).Err?
  }

  ghost predicate FailsWith(p: Program, i: nat, e: CodegenError)
    requires Linkable(p) && i < |p.functions|
  {
    assert FunctionShaped(p.functions[i]);
    CompileSpec(p.functions[i]) == Err(e)
  }

  // Function i has been taken by worker t and does not compile.
  ghost predicate Met(p: Program, workers: nat, s: Pool, t: nat, i: nat)
    requires Linkable(p) && Shaped(p, workers, s) && workers > 0
  {
    i < |p.functions| && i % workers == t && Taken(workers, s, i) && Failed(p, i)
  }

  // Function i is the last that worker t has met a failure at, and e is why.
  ghost predicate LastMet(p: Program, workers: nat, s: Pool, t: nat, i: nat, e: CodegenError)
    requires Linkable(p) && Shaped(p, workers, s) && workers > 0
  {
    Met(p, workers, s, t, i) && FailsWith(p, i, e) && forall j :: i < j < |p.functions| ==> !Met(p, workers, s, t, j)
  }

  // Worker t holds the error of the last function it has met that does not compile, if there is one.
  ghost predicate ErrorRight(p: Program, workers: nat, s: Pool, t: nat)
    requires Linkable(p) && Shaped(p, workers, s) && workers > 0 && t < workers
  {
    match s.errors[t]
    case None => forall i :: 0 <= i < |p.functions| ==> !Met(p, workers, s, t, i)
    case Some(e) => exists i :: 0 <= i < |p.functions| && LastMet(p, workers, s, t, i, e)
  }

  // A slot has been visited exactly once, by its own worker, if it was taken; and never otherwise.
  ghost predicate WritesRight(p: Program, workers: nat, s: Pool)
    requires Linkable(p) && Shaped(p, workers, s) && workers > 0
  {
    && (forall j :: 0 <= j < |s.writes| ==> WriteRight(p, workers, s, s.writes[j]))
    && (forall j, k :: 0 <= j < k < |s.writes| ==> s.writes[j].slot != s.writes[k].slot)
    && (forall i :: 0 <= i < |p.functions| && Taken(workers, s, i) ==> Write(i % workers, i) in s.writes)
  }

  ghost predicate WriteRight(p: Program, workers: nat, s: Pool, w: Write)
    requires Shaped(p, workers, s) && workers > 0
  {
    w.slot < |p.functions| && w.worker == w.slot % workers && Taken(workers, s, w.slot)
  }

  ghost predicate Inv(p: Program, workers: nat, s: Pool)
    requires Linkable(p)
  {
    && workers > 0 && Shaped(p, workers, s)
    && (forall t :: 0 <= t < workers ==> s.next[t] % workers == t)
    && (forall i :: 0 <= i < |p.functions| ==> SlotRight(p, workers, s, i))
    && (forall t :: 0 <= t < workers ==> ErrorRight(p, workers, s, t))
    && WritesRight(p, workers, s)
  }

  lemma SmallMod(t: nat, workers: nat)
    requires t < workers
    ensures t % workers == t
  {
    DivModUnique(t, workers, 0, t);
  }

  lemma NextMod(i: nat, workers: nat)
    requires workers > 0
    ensures (i + workers) % workers == i % workers
  {
    DivModUnique(i + workers, workers, i / workers + 1, i % workers);
  }

  // Between two visits of a worker there is no other function of its own.
  lemma OnlyOne(i: nat, n: nat, workers: nat)
    requires workers > 0 && i % workers == n % workers && n <= i < n + workers
    ensures i == n
  {
    var a, b := i / workers, n / workers;
    assert i == a * workers + i % workers && n == b * workers + n % workers;
    assert (a - b) * workers == i - n;
    MultipleBounds(a - b, workers);
  }

  lemma MultipleBounds(x: int, w: nat)
    ensures x >= 1 ==> x * w >= w
    ensures x <= -1 ==> x * w + w <= 0
  {
    assert x >= 1 ==> (x - 1) * w >= 0;
    assert x <= -1 ==> (-1 - x) * w >= 0;
  }

  lemma StartInv(p: Program, workers: nat)
    requires Linkable(p) && workers > 0
    ensures Inv(p, workers, Start(workers, |p.functions|))
  {
    hide CompileSpec, Linkable;
    var s := Start(workers, |p.functions|);
    forall t | 0 <= t < workers ensures s.next[t] % workers == t { SmallMod(t, workers); }
    forall i: nat ensures !Taken(workers, s, i) {
      assert i / workers >= 0 && i == i / workers * workers + i % workers;
      assert i / workers * workers >= 0;
    }
  }

  // What one step of worker t changes about which functions are taken.
  lemma TakenAfter(p: Program, workers: nat, s: Pool, t: nat, j: nat)
    requires Linkable(p) && Inv(p, workers, s) && t < workers && s.next[t] < |p.functions|
    ensures Taken(workers, WorkerStep(p, workers, s, t), j) <==> Taken(workers, s, j) || j == s.next[t]
  {
    hide CompileSpec, Linkable, SlotRight, ErrorRight, WritesRight;
    var i := s.next[t];
    assert i % workers == t;
    if j % workers == t && i <= j < i + workers { OnlyOne(j, i, workers); }
  }

  lemma StepKeepsNext(p: Program, workers: nat, s: Pool, t: nat)
    requires Linkable(p) && Inv(p, workers, s) && t < workers
    ensures forall u :: 0 <= u < workers ==> WorkerStep(p, workers, s, t).next[u] % workers == u
  {
    hide CompileSpec, Linkable, SlotRight, ErrorRight, WritesRight;
    NextMod(s.next[t], workers);
  }

  lemma StepKeepsSlots(p: Program, workers: nat, s: Pool, t: nat)
    requires Linkable(p) && Inv(p, workers, s) && t < workers && s.next[t] < |p.functions|
    ensures forall j :: 0 <= j < |p.functions| ==> SlotRight(p, workers, WorkerStep(p, workers, s, t), j)
  {
    hide CompileSpec, Linkable, ErrorRight, WritesRight;
    forall j | 0 <= j < |p.functions| ensures SlotRight(p, workers, WorkerStep(p, workers, s, t), j) {
      TakenAfter(p, workers, s, t, j);
      assert SlotRight(p, workers, s, j);
    }
  }

  // What one step of worker t changes about which failures have been met.
  lemma MetAfter(p: Program, workers: nat, s: Pool, t: nat, u: nat, j: nat)
    requires Linkable(p) && Inv(p, workers, s) && t < workers && s.next[t] < |p.functions|
    ensures Met(p, workers, WorkerStep(p, workers, s, t), u, j) <==>
      Met(p, workers, s, u, j) || (j == s.next[t] && u == t && Failed(p, j))
  {
    TakenAfter(p, workers, s, t, j);
    hide CompileSpec, Linkable, SlotRight, WritesRight, Taken, ErrorRight;
  }

  // What worker t has met lies below the function it takes next.
  lemma MetBefore(p: Program, workers: nat, s: Pool, t: nat, j: nat)
    requires Linkable(p) && Inv(p, workers, s) && t < workers && Met(p, workers, s, t, j)
    ensures j < s.next[t]
  {
    hide CompileSpec, Linkable, SlotRight, WritesRight, ErrorRight, Failed;
  }

  lemma StepError(p: Program, workers: nat, s: Pool, t: nat)
    requires Linkable(p) && Inv(p, workers, s) && t < workers && s.next[t] < |p.functions|
    ensures var i := s.next[t];
      WorkerStep(p, workers, s, t).errors == if Failed(p, i) then s.errors[t := Some(CompileSpec(p.functions[i]).error)] else s.errors
  {
    hide CompileSpec, SlotRight, WritesRight, ErrorRight;
  }

  lemma NewError(p: Program, workers: nat, s: Pool, t: nat)
    requires Linkable(p) && Inv(p, workers, s) && t < workers && s.next[t] < |p.functions| && Failed(p, s.next[t])
    ensures ErrorRight(p, workers, WorkerStep(p, workers, s, t), t)
  {
    var r, i := WorkerStep(p, workers, s, t), s.next[t];
    StepError(p, workers, s, t);
    MetAfter(p, workers, s, t, t, i);
    FailedIs(p, i);
    assert FailsWith(p, i, CompileSpec(p.functions[i]).error);
    hide CompileSpec, Linkable, SlotRight, WritesRight, Met, WorkerStep, FailsWith, Failed;
    forall j | i < j < |p.functions| ensures !Met(p, workers, r, t, j) {
      MetAfter(p, workers, s, t, t, j);
      if Met(p, workers, s, t, j) { MetBefore(p, workers, s, t, j); }
    }
    assert LastMet(p, workers, r, t, i, CompileSpec(p.functions[i]).error);
  }

  lemma OldError(p: Program, workers: nat, s: Pool, t: nat, u: nat)
    requires Linkable(p) && Inv(p, workers, s) && t < workers && s.next[t] < |p.functions| && u < workers
    requires u != t || !Failed(p, s.next[t])
    ensures ErrorRight(p, workers, WorkerStep(p, workers, s, t), u)
  {
    StepError(p, workers, s, t);
    assert ErrorRight(p, workers, s, u);
    hide CompileSpec, Linkable, SlotRight, WritesRight, Met, WorkerStep, FailsWith, Failed, Inv;
    var r := WorkerStep(p, workers, s, t);
    assert r.errors[u] == s.errors[u];
    forall j | 0 <= j < |p.functions| ensures Met(p, workers, r, u, j) <==> Met(p, workers, s, u, j) { MetAfter(p, workers, s, t, u, j); }
    if r.errors[u].Some? {
      var e := r.errors[u].value;
      var i :| 0 <= i < |p.functions| && LastMet(p, workers, s, u, i, e);
      assert LastMet(p, workers, r, u, i, e);
    }
  }

  lemma StepKeepsErrors(p: Program, workers: nat, s: Pool, t: nat)
    requires Linkable(p) && Inv(p, workers, s) && t < workers && s.next[t] < |p.functions|
    ensures forall u :: 0 <= u < workers ==> ErrorRight(p, workers, WorkerStep(p, workers, s, t), u)
  {
    InvShape(p, workers, s);
    hide CompileSpec, Linkable, SlotRight, WritesRight, ErrorRight, WorkerStep, Failed, Inv;
    forall u | 0 <= u < workers ensures ErrorRight(p, workers, WorkerStep(p, workers, s, t), u) {
      if u == t && Failed(p, s.next[t]) { NewError(p, workers, s, t); } else { OldError(p, workers, s, t, u); }
    }
  }

  lemma StepKeepsWrites(p: Program, workers: nat, s: Pool, t: nat)
    requires Linkable(p) && Inv(p, workers, s) && t < workers && s.next[t] < |p.functions|
    ensures WritesRight(p, workers, WorkerStep(p, workers, s, t))
  {
    hide CompileSpec, Linkable, SlotRight, ErrorRight;
    var r := WorkerStep(p, workers, s, t);
    var i := s.next[t];
    TakenAfter(p, workers, s, t, i);
    assert !Taken(workers, s, i);
    forall j | 0 <= j < |r.writes| ensures WriteRight(p, workers, r, r.writes[j]) {
      if j < |s.writes| {
        assert r.writes[j] == s.writes[j] && WriteRight(p, workers, s, s.writes[j]);
        TakenAfter(p, workers, s, t, s.writes[j].slot);
      }
    }
    forall j, k | 0 <= j < k < |r.writes| ensures r.writes[j].slot != r.writes[k].slot {
      assert WriteRight(p, workers, s, s.writes[j]);
    }
    forall j | 0 <= j < |p.functions| && Taken(workers, r, j) ensures Write(j % workers, j) in r.writes {
      TakenAfter(p, workers, s, t, j);
      if j == i { assert r.writes[|s.writes|] == Write(j % workers, j); }
    }
  }

  lemma StepInv(p: Program, workers: nat, s: Pool, t: nat)
    requires Linkable(p) && Inv(p, workers, s) && t < workers
    ensures Inv(p, workers, WorkerStep(p, workers, s, t))
  {
    hide CompileSpec, Linkable, SlotRight, ErrorRight, WritesRight;
    StepKeepsNext(p, workers, s, t);
    if s.next[t] < |p.functions| {
      StepKeepsSlots(p, workers, s, t);
      StepKeepsErrors(p, workers, s, t);
      StepKeepsWrites(p, workers, s, t);
    }
  }

  lemma {:induction false} RunInv(p: Program, workers: nat, s: Pool, schedule: seq<nat>)
    requires Linkable(p) && Inv(p, workers, s) && ValidSchedule(workers, schedule)
    ensures Inv(p, workers, RunSchedule(p, workers, s, schedule))
  {
    hide CompileSpec, Linkable, Inv, WorkerStep;
    if schedule != [] {
      var n := |schedule| - 1;
      InvShape(p, workers, s);
      RunInv(p, workers, s, schedule[..n]);
      StepInv(p, workers, RunSchedule(p, workers, s, schedule[..n]), schedule[n]);
    }
  }

  // ---------------------------------------------------------------- the results

  // Whatever the schedule: once all workers have finished, every slot was visited by exactly one worker,
  // namely i % T, and holds what compiling its function alone gives.
  lemma EverySlotOnce(p: Program, workers: nat, schedule: seq<nat>, i: nat)
    requires Linkable(p) && workers > 0 && ValidSchedule(workers, schedule) && i < |p.functions|
    requires Finished(p, workers, RunSchedule(p, workers, Start(workers, |p.functions|), schedule))
    ensures var s := RunSchedule(p, workers, Start(workers, |p.functions|), schedule);
      && (exists j :: 0 <= j < |s.writes| && s.writes[j] == Write(i % workers, i))
      && (forall j, k :: 0 <= j < |s.writes| && 0 <= k < |s.writes| && s.writes[j].slot == s.writes[k].slot ==> j == k)
      && FunctionShaped(p.functions[i])
      && s.slots[i] == match CompileSpec(p.functions[i]) case Ok(c) => Some(c) case Err(_) => None
  {
    assert FunctionShaped(p.functions[i]);
    StartInv(p, workers);
    RunInv(p, workers, Start(workers, |p.functions|), schedule);
    hide CompileSpec, Linkable, RunSchedule, ErrorRight, Start;
    var s := RunSchedule(p, workers, Start(workers, |p.functions|), schedule);
    assert SlotRight(p, workers, s, i) && Taken(workers, s, i);
  }

  function FirstError(errors: seq<Option<CodegenError>>): Option<CodegenError> {
    if errors == [] then None else if errors[0].Some? then errors[0] else FirstError(errors[1..])
  }

  lemma {:induction false} FirstErrorNone(errors: seq<Option<CodegenError>>)
    ensures FirstError(errors) == None <==> forall t :: 0 <= t < |errors| ==> errors[t] == None
  {
    if errors != [] {
      FirstErrorNone(errors[1..]);
      assert forall t :: 1 <= t < |errors| ==> errors[t] == errors[1..][t - 1];
    }
  }

  lemma AllShaped(p: Program)
    requires Linkable(p)
    ensures forall i :: 0 <= i < |p.functions| ==> FunctionShaped(p.functions[i])
  {
  }

  lemma FailedIs(p: Program, i: nat)
    requires Linkable(p) && i < |p.functions|
    ensures FunctionShaped(p.functions[i]) && (Failed(p, i) <==> CompileSpec(p.functions[i]).Err?)
  {
  }

  // In a finished pool every slot is settled, and a failure is in the error cell of its worker.
  lemma FinishedSlot(p: Program, workers: nat, s: Pool, i: nat)
    requires Linkable(p) && Inv(p, workers, s) && Finished(p, workers, s) && i < |p.functions|
    ensures workers > 0 && SlotRight(p, workers, s, i) && Taken(workers, s, i)
    ensures Failed(p, i) ==> s.errors[i % workers].Some?
  {
    hide CompileSpec, Linkable, WritesRight, Failed, SlotRight;
    assert SlotRight(p, workers, s, i) && Taken(workers, s, i);
    assert ErrorRight(p, workers, s, i % workers);
    if Failed(p, i) { assert Met(p, workers, s, i % workers, i); }
  }

  lemma ErrorHasFailure(p: Program, workers: nat, s: Pool, t: nat)
    requires Linkable(p) && Inv(p, workers, s) && t < workers && s.errors[t].Some?
    ensures exists i :: 0 <= i < |p.functions| && Failed(p, i)
  {
    hide CompileSpec, Linkable, WritesRight, Failed, SlotRight, Taken;
    assert ErrorRight(p, workers, s, t);
    var i :| 0 <= i < |p.functions| && LastMet(p, workers, s, t, i, s.errors[t].value);
    assert Failed(p, i);
  }

  // A finished pool holds an error exactly when some function does not compile.
  lemma ErrorsMeanFailure(p: Program, workers: nat, s: Pool)
    requires Linkable(p) && Inv(p, workers, s) && Finished(p, workers, s)
    ensures FirstError(s.errors) == None <==> FirstFailure(p.functions) == None
    ensures FirstFailure(p.functions) == None ==>
      forall i :: 0 <= i < |p.functions| ==> CompileSpec(p.functions[i]).Ok? && s.slots[i] == Some(CompileSpec(p.functions[i]).value)
  {
    AllShaped(p);
    InvShape(p, workers, s);
    hide CompileSpec, Linkable, FirstError, FirstFailure, FunctionShaped, Inv, Finished, Failed;
    FirstErrorNone(s.errors);
    FirstFailureNone(p.functions);
    if FirstError(s.errors) == None {
      forall i | 0 <= i < |p.functions| ensures CompileSpec(p.functions[i]).Ok? {
        FinishedSlot(p, workers, s, i);
        FailedIs(p, i);
      }
    } else {
      var t :| 0 <= t < |s.errors| && s.errors[t] != None;
      ErrorHasFailure(p, workers, s, t);
      var i :| 0 <= i < |p.functions| && Failed(p, i);
      FailedIs(p, i);
    }
    forall i | 0 <= i < |p.functions| && CompileSpec(p.functions[i]).Ok?
      ensures s.slots[i] == Some(CompileSpec(p.functions[i]).value)
    {
      FinishedSlot(p, workers, s, i);
    }
  }

  // The function whose error is rethrown: the last failure of the first worker that has one.
  ghost predicate ReportedAt(p: Program, workers: nat, i: nat)
    requires Linkable(p) && workers > 0
  {
    && i < |p.functions| && Failed(p, i)
    && (forall j :: i < j < |p.functions| && j % workers == i % workers ==> !Failed(p, j))
    && (forall j :: 0 <= j < |p.functions| && j % workers < i % workers ==> !Failed(p, j))
  }

  // The schedule has no say in it.
  lemma ReportedIsOne(p: Program, workers: nat, i: nat, j: nat)
    requires Linkable(p) && workers > 0 && ReportedAt(p, workers, i) && ReportedAt(p, workers, j)
    ensures i == j
  {
    hide Linkable, Failed;
  }

  // If a single function fails, the sequential compiler reports the same error.
  lemma OneFailureSameError(p: Program, workers: nat, i: nat)
    requires Linkable(p) && workers > 0 && ReportedAt(p, workers, i)
    requires forall j :: 0 <= j < |p.functions| && j != i ==> !Failed(p, j)
    ensures CompileProgramSpec(p).Err? && FailsWith(p, i, CompileProgramSpec(p).error)
  {
    AllShaped(p);
    FailedIs(p, i);
    hide CompileSpec, Linkable, FunctionShaped, Failed;
    forall j | 0 <= j < i ensures CompileSpec(p.functions[j]).Ok? { FailedIs(p, j); }
    FailureAt(p.functions, i);
  }

  lemma {:induction false} FailureAt(fs: seq<Function>, i: nat)
    requires forall f :: 0 <= f < |fs| ==> FunctionShaped(fs[f])
    requires i < |fs| && CompileSpec(fs[i]).Err? && forall j :: 0 <= j < i ==> CompileSpec(fs[j]).Ok?
    ensures FirstFailure(fs) == Some(CompileSpec(fs[i]).error)
    decreases i
  {
    hide CompileSpec, FunctionShaped;
    if i > 0 { FailureAt(fs[1..], i - 1); }
  }

  lemma {:induction false} FirstErrorIs(errors: seq<Option<CodegenError>>) returns (t: nat)
    requires FirstError(errors).Some?
    ensures t < |errors| && errors[t] == FirstError(errors) && forall u :: 0 <= u < t ==> errors[u] == None
    decreases |errors|
  {
    if errors[0].Some? {
      t := 0;
    } else {
      var u := FirstErrorIs(errors[1..]);
      t := u + 1;
    }
  }

  lemma ErrorReported(p: Program, workers: nat, s: Pool)
    requires Linkable(p) && Inv(p, workers, s) && Finished(p, workers, s) && FirstError(s.errors).Some?
    ensures workers > 0 && exists i :: 0 <= i < |p.functions| && ReportedAt(p, workers, i) && FailsWith(p, i, FirstError(s.errors).value)
  {
    InvShape(p, workers, s);
    hide CompileSpec, Linkable, FirstError, Failed, SlotRight, WritesRight, FailsWith, Taken, Finished;
    var t := FirstErrorIs(s.errors);
    assert ErrorRight(p, workers, s, t);
    var i :| 0 <= i < |p.functions| && LastMet(p, workers, s, t, i, s.errors[t].value);
    forall j | 0 <= j < |p.functions| && (j % workers < t || (j % workers == t && i < j)) ensures !Failed(p, j) {
      FinishedSlot(p, workers, s, j);
      assert ErrorRight(p, workers, s, j % workers);
      assert Met(p, workers, s, j % workers, j) <==> Failed(p, j);
    }
    assert ReportedAt(p, workers, i);
  }

  method FindError(errors: seq<Option<CodegenError>>) returns (r: Option<CodegenError>)
    ensures r == FirstError(errors)
  {
    for t := 0 to |errors|
      invariant FirstError(errors) == FirstError(errors[t..])
    {
      ErrorStep(errors, t);
      if errors[t].Some? { return errors[t]; }
    }
    ErrorStep(errors, |errors|);
    r := None;
  }

  method CollectSlots(p: Program, s: Pool) returns (compiled: seq<CompiledFunction>)
    requires |s.slots| == |p.functions|
    requires forall i :: 0 <= i < |p.functions| ==> FunctionShaped(p.functions[i])
    requires forall i :: 0 <= i < |p.functions| ==> CompileSpec(p.functions[i]).Ok? && s.slots[i] == Some(CompileSpec(p.functions[i]).value)
    ensures |compiled| == |p.functions|
    ensures forall i :: 0 <= i < |p.functions| ==> CompileSpec(p.functions[i]) == Ok(compiled[i])
  {
    hide CompileSpec, FunctionShaped;
    compiled := [];
    for i := 0 to |p.functions|
      invariant |compiled| == i && forall j :: 0 <= j < i ==> CompileSpec(p.functions[j]) == Ok(compiled[j])
    {
      compiled := compiled + [s.slots[i].value];
    }
  }

  ghost predicate Reported(p: Program, workers: nat, e: CodegenError)
    requires Linkable(p)
  {
    workers > 0 && exists i :: 0 <= i < |p.functions| && ReportedAt(p, workers, i) && FailsWith(p, i, e)
  }

  // What compileProgramParallel does once its workers are joined: rethrow the first error, or link.
  method Join(p: Program, workers: nat, s: Pool) returns (r: Result<CompiledCode, CodegenError>)
    requires Linkable(p) && Inv(p, workers, s) && Finished(p, workers, s)
    ensures FirstFailure(p.functions) == None ==> r == CompileProgramSpec(p)
    ensures FirstFailure(p.functions).Some? ==> r.Err? && CompileProgramSpec(p).Err? && Reported(p, workers, r.error)
  {
    AllShaped(p);
    hide CompileSpec, Linkable, Inv, FirstFailure, FirstError, LinkSpec, FunctionShaped, Finished, Ready;
    InvShape(p, workers, s);
    ErrorsMeanFailure(p, workers, s);
    var error := FindError(s.errors);
    if error.Some? {
      ErrorReported(p, workers, s);
      return Err(error.value);
    }
    var compiled := CollectSlots(p, s);
    AllReady(p);
    r := LinkCompiledFunctions(compiled, p);
  }

  lemma AllReady(p: Program)
    requires Linkable(p) && FirstFailure(p.functions) == None
    ensures Ready(p)
  {
    FirstFailureNone(p.functions);
  }

  lemma InvShape(p: Program, workers: nat, s: Pool)
    requires Linkable(p) && Inv(p, workers, s)
    ensures Shaped(p, workers, s)
  {
  }

  lemma ErrorStep(errors: seq<Option<CodegenError>>, t: nat)
    requires t <= |errors|
    ensures t < |errors| ==> FirstError(errors[t..]) == if errors[t].Some? then errors[t] else FirstError(errors[t + 1..])
    ensures t == |errors| ==> FirstError(errors[t..]) == None
  {
    if t < |errors| { assert errors[t..][1..] == errors[t + 1..]; }
  }

  // For every thread count and every schedule that lets the workers finish, what is joined is what the
  // sequential compiler produces, or both fail. With more than one worker the error is that of the last failure of
  // the first worker that has one.
  method CompileProgramParallel(p: Program, threads: int, schedule: seq<nat>) returns (r: Result<CompiledCode, CodegenError>)
    requires Linkable(p)
    requires ValidSchedule(WorkerCount(threads, |p.functions|), schedule)
    requires Finished(p, WorkerCount(threads, |p.functions|),
                      RunSchedule(p, WorkerCount(threads, |p.functions|),
                                  Start(WorkerCount(threads, |p.functions|), |p.functions|), schedule))
    ensures FirstFailure(p.functions) == None ==> r == CompileProgramSpec(p)
    ensures FirstFailure(p.functions).Some? ==> r.Err? && CompileProgramSpec(p).Err?
    ensures WorkerCount(threads, |p.functions|) == 1 ==> r == CompileProgramSpec(p)
    ensures WorkerCount(threads, |p.functions|) > 1 && FirstFailure(p.functions).Some? ==>
      Reported(p, WorkerCount(threads, |p.functions|), r.error)
  {
    var workers := WorkerCount(threads, |p.functions|);
    hide CompileSpec, Linkable, FirstFailure, LinkSpec, WorkerStep, Inv, WorkerCount, Reported;
    if workers == 1 {
      r := CompileProgram(p);
      return;
    }
    var s := Start(workers, |p.functions|);
    StartInv(p, workers);
    for k := 0 to |schedule|
      invariant s == RunSchedule(p, workers, Start(workers, |p.functions|), schedule[..k]) && Inv(p, workers, s)
    {
      assert schedule[..k + 1][..k] == schedule[..k];
      StepInv(p, workers, s, schedule[k]);
      s := WorkerStep(p, workers, s, schedule[k]);
    }
    assert schedule[..|schedule|] == schedule;
    r := Join(p, workers, s);
  }

  // Some schedule always lets the workers finish: a worker that is not finished can take a step, and each
  // such step moves it forward.
  lemma WorkersProgress(p: Program, workers: nat, s: Pool, t: nat)
    requires Linkable(p) && Inv(p, workers, s) && t < workers && s.next[t] < |p.functions|
    ensures WorkerStep(p, workers, s, t).next[t] > s.next[t]
    ensures |WorkerStep(p, workers, s, t).writes| == |s.writes| + 1 <= |p.functions|
  {
    StepInv(p, workers, s, t);
    var r := WorkerStep(p, workers, s, t);
    hide CompileSpec, Linkable, SlotRight, ErrorRight;
    var slots := seq(|r.writes|, j requires 0 <= j < |r.writes| => r.writes[j].slot);
    forall j | 0 <= j < |r.writes| ensures slots[j] < |p.functions| { assert WriteRight(p, workers, r, r.writes[j]); }
    DistinctBounded(slots, |p.functions|);
  }

  // Distinct numbers below n are at most n.
  lemma {:induction false} DistinctBounded(s: seq<nat>, n: nat)
    requires forall j :: 0 <= j < |s| ==> s[j] < n
    requires forall j, k :: 0 <= j < k < |s| ==> s[j] != s[k]
    ensures |s| <= n
    decreases n
  {
    if s == [] {
    } else if n - 1 in s {
      var k :| 0 <= k < |s| && s[k] == n - 1;
      var rest := s[..k] + s[k + 1..];
      DistinctBounded(rest, n - 1);
    } else {
      assert s[0] < n;
      DistinctBounded(s, n - 1);
    }
  }
}
