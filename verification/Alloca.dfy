// Stack allocation on the heap: alloca, stackfree, and the frees at ret and tailcall
// (Interpreter::call and freeAllocas of src/vm/interpreter.cpp).
//
// An activation is the list of what it does to the heap, in order, and how it ends. Pointers that a
// program computes appear as the addresses they turn out to be.

module Alloca {
  import opened Ast
  import opened Heap

  datatype Action =
    | Allocate(size: nat)
    | Release(offset: nat)
    | Resize(offset: nat, size: nat)
    | AllocaOf(size: nat)
    | Stackfree
    | CallOf(callee: Activation)

  datatype Ending = Return | Tailcall(callee: Activation)

  datatype Activation = Activation(actions: seq<Action>, ending: Ending)

  // The heap and the allocas of the running frame. The ledger is the account kept beside them: the blocks
  // that were there at the start and those explicitly allocated since, less those explicitly freed. A run
  // is honest as long as no explicit free or realloc hits an alloca block of a running activation.
  datatype Account = Account(h: Blocks, allocas: seq<nat>, ledger: map<nat, nat>, honest: bool)

  datatype RunError = Thrown(error: HeapError) | AllocaLost(honest: bool)

  function Elements(s: seq<nat>): set<nat> { set x | x in s }

  // freeAllocas: the most recent first.
  function FreeAll(h: Blocks, allocas: seq<nat>): Option<Blocks>
    decreases |allocas|
  {
    if allocas == [] then Some(h)
    else
      match FreeSpec(h, allocas[|allocas| - 1])
      case Ok(h') => FreeAll(h', allocas[..|allocas| - 1])
      case Err(_) => None
  }

  predicate HandsOff(a: Account, outer: set<nat>, offset: nat) {
    offset !in a.allocas && offset !in outer
  }

  // One action of an activation; `outer` are the alloca blocks of the activations that called it.
  function RunAction(a: Account, memSize: nat, outer: set<nat>, act: Action): Result<Account, RunError>
    decreases act, 0
  {
    match act
    case Allocate(size) =>
      (match AllocSpec(a.h, memSize, size)
       case Err(e) => Err(Thrown(e))
       case Ok(r) => Ok(a.(h := r.0, ledger := a.ledger[r.1 := Requested(size)])))
    case Release(offset) =>
      (match FreeSpec(a.h, offset)
       case Err(e) => Err(Thrown(e))
       case Ok(h) => Ok(a.(h := h, ledger := a.ledger - {offset}, honest := a.honest && HandsOff(a, outer, offset))))
    case Resize(offset, size) =>
      (match ReallocSpec(a.h, memSize, offset, size)
       case Err(e) => Err(Thrown(e))
       case Ok(r) => Ok(a.(h := r.0, ledger := (a.ledger - {offset})[r.1 := Requested(size)],
                           honest := a.honest && HandsOff(a, outer, offset))))
    case AllocaOf(size) =>
      (match AllocSpec(a.h, memSize, size)
       case Err(e) => Err(Thrown(e))
       case Ok(r) => Ok(a.(h := r.0, allocas := a.allocas + [r.1])))
    case Stackfree =>
      (match FreeAll(a.h, a.allocas)
       case None => Err(AllocaLost(a.honest))
       case Some(h) => Ok(a.(h := h, allocas := [])))
    case CallOf(callee) =>
      (match RunActivation(a.h, a.ledger, a.honest, memSize, outer + Elements(a.allocas), callee)
       case Err(e) => Err(e)
       case Ok(r) => Ok(a.(h := r.h, ledger := r.ledger, honest := r.honest)))
  }

  function RunActions(a: Account, memSize: nat, outer: set<nat>, acts: seq<Action>): Result<Account, RunError>
    decreases acts, 1
  {
    if acts == [] then Ok(a)
    else
      match RunAction(a, memSize, outer, acts[0])
      case Err(e) => Err(e)
      case Ok(b) => RunActions(b, memSize, outer, acts[1..])
  }

  // ret and tailcall free the frame's allocas; a tail call then runs in place of the activation.
  function RunActivation(h: Blocks, ledger: map<nat, nat>, honest: bool, memSize: nat, outer: set<nat>, body: Activation):
    Result<Account, RunError>
    decreases body, 2
  {
    match RunActions(Account(h, [], ledger, honest), memSize, outer, body.actions)
    case Err(e) => Err(e)
    case Ok(a) =>
      match FreeAll(a.h, a.allocas)
      case None => Err(AllocaLost(a.honest))
      case Some(h') =>
        match body.ending
        case Return => Ok(Account(h', [], a.ledger, a.honest))
        case Tailcall(callee) => RunActivation(h', a.ledger, a.honest, memSize, outer, callee)
  }

  // ---------------------------------------------------------------- the account balances

  predicate Distinct(s: seq<nat>) { forall i, j :: 0 <= i < j < |s| ==> s[i] != s[j] }

  // Every alloca of a running activation is a live block of its own; the other live blocks are the ledger's.
  predicate Balanced(a: Account, memSize: nat, outer: set<nat>) {
    && HeapInv(a.h, memSize)
    && Distinct(a.allocas)
    && Elements(a.allocas) !! outer
    && Elements(a.allocas) + outer <= Live(a.h.list).Keys
    && a.ledger == Live(a.h.list) - (Elements(a.allocas) + outer)
  }

  // Freeing the allocas of a frame succeeds exactly when they are distinct live blocks, and takes exactly them
  // away.
  lemma {:induction false} FreeAllSucceeds(h: Blocks, memSize: nat, allocas: seq<nat>)
    requires HeapInv(h, memSize)
    ensures FreeAll(h, allocas).Some? <==> Distinct(allocas) && Elements(allocas) <= Live(h.list).Keys
    ensures FreeAll(h, allocas).Some? ==> HeapInv(FreeAll(h, allocas).value, memSize)
    ensures FreeAll(h, allocas).Some? ==> Live(FreeAll(h, allocas).value.list) == Live(h.list) - Elements(allocas)
    decreases |allocas|
  {
    hide Tiles, Live, FreeSpec, HeapInv;
    if allocas == [] {
      assert Live(h.list) - Elements(allocas) == Live(h.list);
    } else {
      var n := |allocas| - 1;
      var last, front := allocas[n], allocas[..n];
      assert allocas == front + [last];
      FreeGives(h, memSize, last);
      AddElement(front, last);
      if FreeSpec(h, last).Ok? {
        FreeAllSucceeds(FreeSpec(h, last).value, memSize, front);
        LastDistinct(front, last, Live(h.list));
        RemoveTwice(Live(h.list), {last}, Elements(front));
      }
    }
  }

  // Distinct blocks of a set with one more at the end.
  lemma LastDistinct(front: seq<nat>, last: nat, live: map<nat, nat>)
    ensures Distinct(front + [last]) <==> Distinct(front) && last !in Elements(front)
    ensures Distinct(front + [last]) && Elements(front) + {last} <= live.Keys <==>
      last in live && Distinct(front) && Elements(front) <= (live - {last}).Keys
  {
    var all := front + [last];
    if Distinct(all) {
      forall i | 0 <= i < |front| ensures front[i] != last { assert all[i] == front[i] && all[|front|] == last; }
      forall i, j | 0 <= i < j < |front| ensures front[i] != front[j] { assert all[i] == front[i] && all[j] == front[j]; }
    }
    if Distinct(front) && last !in Elements(front) {
      forall i | 0 <= i < |front| ensures front[i] != last { assert front[i] in Elements(front); }
    }
  }

  lemma AddElement(s: seq<nat>, o: nat)
    ensures Elements(s + [o]) == Elements(s) + {o}
  {
  }

  lemma RemoveTwice(m: map<nat, nat>, s: set<nat>, t: set<nat>)
    ensures (m - s) - t == m - (t + s)
  {
  }

  lemma MapWithout(m: map<nat, nat>, s: set<nat>, o: nat, n: nat)
    requires o !in m && s <= m.Keys
    ensures m[o := n] - s == (m - s)[o := n]
    ensures m[o := n] - (s + {o}) == m - s
  {
  }

  lemma RemoveBoth(m: map<nat, nat>, s: set<nat>, o: nat)
    ensures (m - {o}) - s == (m - s) - {o}
  {
  }

  lemma AllocateBalances(a: Account, memSize: nat, outer: set<nat>, size: nat, h': Blocks, o: nat)
    requires Balanced(a, memSize, outer) && AllocSpec(a.h, memSize, size) == Ok((h', o))
    ensures Balanced(a.(h := h', ledger := a.ledger[o := Requested(size)]), memSize, outer)
    ensures Balanced(a.(h := h', allocas := a.allocas + [o]), memSize, outer)
  {
    hide Tiles, Live, AllocSpec, HeapInv, Boundaries;
    AllocGives(a.h, memSize, size, h', o);
    var s := Elements(a.allocas) + outer;
    MapWithout(Live(a.h.list), s, o, Requested(size));
    AddElement(a.allocas, o);
    assert o !in s;
    forall x | x in a.allocas ensures x != o { assert x in Elements(a.allocas); }
    assert Elements(a.allocas + [o]) + outer == s + {o};
  }

  lemma ReleaseBalances(a: Account, memSize: nat, outer: set<nat>, o: nat)
    requires Balanced(a, memSize, outer) && FreeSpec(a.h, o).Ok? && HandsOff(a, outer, o)
    ensures Balanced(a.(h := FreeSpec(a.h, o).value, ledger := a.ledger - {o}), memSize, outer)
  {
    hide Tiles, Live, FreeSpec, HeapInv, Boundaries;
    FreeGives(a.h, memSize, o);
    RemoveBoth(Live(a.h.list), Elements(a.allocas) + outer, o);
  }

  lemma ResizeBalances(a: Account, memSize: nat, outer: set<nat>, o: nat, size: nat)
    requires Balanced(a, memSize, outer) && ReallocSpec(a.h, memSize, o, size).Ok? && HandsOff(a, outer, o)
    ensures var r := ReallocSpec(a.h, memSize, o, size).value;
      Balanced(a.(h := r.0, ledger := (a.ledger - {o})[r.1 := Requested(size)]), memSize, outer)
  {
    hide Tiles, Live, HeapInv, Boundaries, AllocSpec, ReallocSpec;
    ReallocGives(a.h, memSize, o, size);
    ReallocTakesNew(a.h, memSize, o, size);
    var r := ReallocSpec(a.h, memSize, o, size).value;
    var s := Elements(a.allocas) + outer;
    RemoveBoth(Live(a.h.list), s, o);
    assert s <= (Live(a.h.list) - {o}).Keys;
    MapWithout(Live(a.h.list) - {o}, s, r.1, Requested(size));
  }

  lemma ReallocTakesNew(h: Blocks, memSize: nat, o: nat, size: nat)
    requires HeapInv(h, memSize) && ReallocSpec(h, memSize, o, size).Ok?
    ensures o in Live(h.list) && AllocSpec(h, memSize, size).Ok?
    ensures ReallocSpec(h, memSize, o, size).value.1 !in Live(h.list)
  {
    hide Tiles, Live, HeapInv, Boundaries, FirstFit, Split, FreeSpec;
    ReallocGives(h, memSize, o, size);
    if AllocSpec(h, memSize, size).Ok? {
      AllocGives(h, memSize, size, AllocSpec(h, memSize, size).value.0, AllocSpec(h, memSize, size).value.1);
    }
  }

  lemma StackfreeBalances(a: Account, memSize: nat, outer: set<nat>)
    requires Balanced(a, memSize, outer)
    ensures FreeAll(a.h, a.allocas).Some?
    ensures Balanced(a.(h := FreeAll(a.h, a.allocas).value, allocas := []), memSize, outer)
  {
    hide Tiles, Live, HeapInv, FreeAll;
    FreeAllSucceeds(a.h, memSize, a.allocas);
    RemoveTwice(Live(a.h.list), Elements(a.allocas), outer);
    assert Elements([]) + outer == outer;
    assert Elements(a.allocas) + outer == outer + Elements(a.allocas);
  }

  // A callee's frame starts empty, with its caller's allocas among the outer ones; when it is done the
  // caller's account is as before, but for the ledger and the heap.
  lemma CallBalances(a: Account, memSize: nat, outer: set<nat>, r: Account)
    requires Balanced(a, memSize, outer)
    ensures Balanced(a.(allocas := []), memSize, outer + Elements(a.allocas))
    ensures r.allocas == [] && Balanced(r, memSize, outer + Elements(a.allocas)) ==>
      Balanced(a.(h := r.h, ledger := r.ledger, honest := r.honest), memSize, outer)
  {
    hide Tiles, Live, HeapInv;
    assert Elements([]) + (outer + Elements(a.allocas)) == Elements(a.allocas) + outer;
  }

  // ---------------------------------------------------------------- every call tree

  // What a run promises: while it is honest the account balances, dishonesty is never forgotten, and
  // losing an alloca block takes dishonesty.
  predicate Promise(r: Result<Account, RunError>, honestBefore: bool, memSize: nat, outer: set<nat>) {
    match r
    case Ok(b) => b.honest ==> honestBefore && Balanced(b, memSize, outer)
    case Err(e) => e != AllocaLost(true)
  }

  lemma ActionKeeps(a: Account, memSize: nat, outer: set<nat>, act: Action)
    requires a.honest ==> Balanced(a, memSize, outer)
    ensures Promise(RunAction(a, memSize, outer, act), a.honest, memSize, outer)
    decreases act, 0
  {
    hide Balanced, AllocSpec, FreeSpec, ReallocSpec, FreeAll, RunActivation;
    if a.honest {
      match act
      case Allocate(size) =>
        if AllocSpec(a.h, memSize, size).Ok? {
          AllocateBalances(a, memSize, outer, size, AllocSpec(a.h, memSize, size).value.0, AllocSpec(a.h, memSize, size).value.1);
        }
      case Release(offset) =>
        if FreeSpec(a.h, offset).Ok? && HandsOff(a, outer, offset) { ReleaseBalances(a, memSize, outer, offset); }
      case Resize(offset, size) =>
        if ReallocSpec(a.h, memSize, offset, size).Ok? && HandsOff(a, outer, offset) {
          ResizeBalances(a, memSize, outer, offset, size);
        }
      case AllocaOf(size) =>
        if AllocSpec(a.h, memSize, size).Ok? {
          AllocateBalances(a, memSize, outer, size, AllocSpec(a.h, memSize, size).value.0, AllocSpec(a.h, memSize, size).value.1);
        }
      case Stackfree =>
        StackfreeBalances(a, memSize, outer);
      case CallOf(callee) =>
        CallBalances(a, memSize, outer, a);
        ActivationKeeps(a.h, a.ledger, a.honest, memSize, outer + Elements(a.allocas), callee);
        var r := RunActivation(a.h, a.ledger, a.honest, memSize, outer + Elements(a.allocas), callee);
        if r.Ok? { CallBalances(a, memSize, outer, r.value); }
    } else if act.CallOf? {
      ActivationKeeps(a.h, a.ledger, a.honest, memSize, outer + Elements(a.allocas), act.callee);
    }
  }

  lemma ActionsKeep(a: Account, memSize: nat, outer: set<nat>, acts: seq<Action>)
    requires a.honest ==> Balanced(a, memSize, outer)
    ensures Promise(RunActions(a, memSize, outer, acts), a.honest, memSize, outer)
    decreases acts, 1
  {
    hide Balanced, RunAction;
    if acts != [] {
      ActionKeeps(a, memSize, outer, acts[0]);
      if RunAction(a, memSize, outer, acts[0]).Ok? {
        ActionsKeep(RunAction(a, memSize, outer, acts[0]).value, memSize, outer, acts[1..]);
      }
    }
  }

  lemma ActivationKeeps(h: Blocks, ledger: map<nat, nat>, honest: bool, memSize: nat, outer: set<nat>, body: Activation)
    requires honest ==> Balanced(Account(h, [], ledger, honest), memSize, outer)
    ensures Promise(RunActivation(h, ledger, honest, memSize, outer, body), honest, memSize, outer)
    ensures RunActivation(h, ledger, honest, memSize, outer, body).Ok? ==>
      RunActivation(h, ledger, honest, memSize, outer, body).value.allocas == []
    decreases body, 2
  {
    hide Balanced, RunActions, FreeAll;
    var start := Account(h, [], ledger, honest);
    ActionsKeep(start, memSize, outer, body.actions);
    if RunActions(start, memSize, outer, body.actions).Ok? {
      var a := RunActions(start, memSize, outer, body.actions).value;
      if a.honest { StackfreeBalances(a, memSize, outer); }
      if FreeAll(a.h, a.allocas).Some? && body.ending.Tailcall? {
        ActivationKeeps(FreeAll(a.h, a.allocas).value, a.ledger, a.honest, memSize, outer, body.ending.callee);
      }
    }
  }

  // Whatever the call tree does with ret, tailcall and stackfree: if it never itself frees an alloca block,
  // the blocks live at the end are those live at the start and those explicitly allocated, less those
  // explicitly freed; and freeing allocas never fails.
  lemma AllocaLedger(h: Blocks, memSize: nat, body: Activation)
    requires HeapInv(h, memSize)
    ensures var r := RunActivation(h, Live(h.list), true, memSize, {}, body);
      && r != Err(AllocaLost(true))
      && (r.Ok? && r.value.honest ==> HeapInv(r.value.h, memSize) && Live(r.value.h.list) == r.value.ledger)
  {
    var start := Account(h, [], Live(h.list), true);
    var live := Live(h.list);
    assert live == live - (Elements([]) + {});
    assert Balanced(start, memSize, {});
    hide Live, HeapInv, RunActivation;
    ActivationKeeps(h, live, true, memSize, {}, body);
    var r := RunActivation(h, live, true, memSize, {}, body);
    if r.Ok? && r.value.honest {
      var after := Live(r.value.h.list);
      assert after == after - (Elements([]) + {});
    }
  }

  // The condition is needed: a program that frees its alloca block loses it, and the free at ret throws.
  lemma FreeingAnAllocaThrows()
    ensures RunActivation(EMPTY, map[], true, 16, {}, Activation([AllocaOf(8), Release(0)], Return)) == Err(AllocaLost(false))
  {
    var h1 := Blocks([HeapBlock(0, 8, false)], 8);
    var h2 := Blocks([HeapBlock(0, 8, true)], 8);
    var a1 := Account(h1, [0], map[], true);
    var a2 := Account(h2, [0], map[], false);
    assert FirstFit(EMPTY.list, 8, 0) == 0;
    assert EMPTY.list + [HeapBlock(0, 8, false)] == h1.list;
    assert AllocSpec(EMPTY, 16, 8) == Ok((h1, 0));
    assert FindLive(h1.list, 0, 0) == 0;
    var none: map<nat, nat> := map[];
    assert none - {0} == none;
    var acts := [AllocaOf(8), Release(0)];
    assert acts[1..] == [Release(0)] && acts[1..][1..] == [];
    assert RunActions(a2, 16, {}, []) == Ok(a2);
    assert h1.list[0 := HeapBlock(0, 8, true)] == h2.list;
    assert FreeSpec(h1, 0) == Ok(h2);
    assert RunAction(a1, 16, {}, Release(0)) == Ok(a2);
    assert RunActions(a1, 16, {}, acts[1..]) == Ok(a2);
    assert FindLive(h2.list, 0, 1) == 1;
    assert FreeSpec(h2, 0).Err?;
  }

  // ---------------------------------------------------------------- single actions

  // stackfree frees the frame's allocas at once.
  lemma StackfreeExactly(a: Account, memSize: nat, outer: set<nat>)
    requires Balanced(a, memSize, outer)
    ensures RunAction(a, memSize, outer, Stackfree).Ok?
    ensures var b := RunAction(a, memSize, outer, Stackfree).value;
      b == a.(h := b.h, allocas := []) && Live(b.h.list) == Live(a.h.list) - Elements(a.allocas)
  {
    hide Tiles, Live, HeapInv, FreeAll;
    FreeAllSucceeds(a.h, memSize, a.allocas);
  }

  // An explicit free: of a block of the ledger, honestly; of an alloca block, not so; of anything else it throws.
  lemma {:induction false} ReleaseExactly(a: Account, memSize: nat, outer: set<nat>, offset: nat)
    requires Balanced(a, memSize, outer)
    ensures match RunAction(a, memSize, outer, Release(offset))
      case Ok(b) =>
        && Live(b.h.list) == Live(a.h.list) - {offset} && b.ledger == a.ledger - {offset} && b.allocas == a.allocas
        && (b.honest <==> a.honest && offset in a.ledger) && (offset !in a.ledger ==> offset in a.allocas || offset in outer)
      case Err(e) => e == Thrown(Untracked(offset)) && offset !in a.ledger && offset !in a.allocas && offset !in outer
  {
    hide Tiles, Live, FreeSpec, Boundaries;
    FreeGives(a.h, memSize, offset);
    BalancedMembers(a, memSize, outer, offset);
  }

  lemma BalancedMembers(a: Account, memSize: nat, outer: set<nat>, offset: nat)
    requires Balanced(a, memSize, outer)
    ensures offset in Live(a.h.list) <==> offset in a.ledger || offset in a.allocas || offset in outer
    ensures offset in a.ledger <==> offset in Live(a.h.list) && HandsOff(a, outer, offset)
  {
    hide Tiles, Live, HeapInv;
    assert offset in Elements(a.allocas) <==> offset in a.allocas;
  }

  lemma AllocationExactly(a: Account, memSize: nat, outer: set<nat>, size: nat)
    requires Balanced(a, memSize, outer) && AllocSpec(a.h, memSize, size).Ok?
    ensures var p := AllocSpec(a.h, memSize, size).value.1;
      && RunAction(a, memSize, outer, Allocate(size)).Ok? && RunAction(a, memSize, outer, AllocaOf(size)).Ok?
      && var b, c := RunAction(a, memSize, outer, Allocate(size)).value, RunAction(a, memSize, outer, AllocaOf(size)).value;
      && Live(b.h.list) == Live(c.h.list) == Live(a.h.list)[p := Requested(size)]
      && b == a.(h := b.h, ledger := a.ledger[p := Requested(size)]) && c == a.(h := c.h, allocas := a.allocas + [p])
  {
    hide Tiles, Live, AllocSpec, Boundaries;
    AllocGives(a.h, memSize, size, AllocSpec(a.h, memSize, size).value.0, AllocSpec(a.h, memSize, size).value.1);
  }

  // ---------------------------------------------------------------- programs that use alloca alone

  // Nothing in the call tree allocates, frees or reallocates explicitly.
  predicate OnlyAllocas(body: Activation)
    decreases body, 2
  {
    && (forall k :: 0 <= k < |body.actions| ==> OnlyAlloca(body.actions[k]))
    && (body.ending.Tailcall? ==> OnlyAllocas(body.ending.callee))
  }

  predicate OnlyAlloca(act: Action)
    decreases act, 0
  {
    match act
    case AllocaOf(_) => true
    case Stackfree => true
    case CallOf(callee) => OnlyAllocas(callee)
    case _ => false
  }

  predicate SameBooks(r: Result<Account, RunError>, ledger: map<nat, nat>, honest: bool) {
    match r
    case Ok(b) => b.ledger == ledger && b.honest == honest
    case Err(e) => e == Thrown(OutOfMemory) || e == AllocaLost(honest)
  }

  lemma ActionBooks(a: Account, memSize: nat, outer: set<nat>, act: Action)
    requires OnlyAlloca(act)
    ensures SameBooks(RunAction(a, memSize, outer, act), a.ledger, a.honest)
    decreases act, 0
  {
    hide AllocSpec, FreeAll, RunActivation;
    match act
    case AllocaOf(size) => AllocFails(a.h, memSize, size);
    case Stackfree =>
    case CallOf(callee) => ActivationBooks(a.h, a.ledger, a.honest, memSize, outer + Elements(a.allocas), callee);
  }

  lemma ActionsBooks(a: Account, memSize: nat, outer: set<nat>, acts: seq<Action>)
    requires forall k :: 0 <= k < |acts| ==> OnlyAlloca(acts[k])
    ensures SameBooks(RunActions(a, memSize, outer, acts), a.ledger, a.honest)
    decreases acts, 1
  {
    hide RunAction, OnlyAlloca;
    if acts != [] {
      ActionBooks(a, memSize, outer, acts[0]);
      if RunAction(a, memSize, outer, acts[0]).Ok? {
        ActionsBooks(RunAction(a, memSize, outer, acts[0]).value, memSize, outer, acts[1..]);
      }
    }
  }

  lemma ActivationBooks(h: Blocks, ledger: map<nat, nat>, honest: bool, memSize: nat, outer: set<nat>, body: Activation)
    requires OnlyAllocas(body)
    ensures SameBooks(RunActivation(h, ledger, honest, memSize, outer, body), ledger, honest)
    decreases body, 2
  {
    hide RunActions, FreeAll, OnlyAlloca;
    var start := Account(h, [], ledger, honest);
    ActionsBooks(start, memSize, outer, body.actions);
    if RunActions(start, memSize, outer, body.actions).Ok? {
      var a := RunActions(start, memSize, outer, body.actions).value;
      if FreeAll(a.h, a.allocas).Some? && body.ending.Tailcall? {
        ActivationBooks(FreeAll(a.h, a.allocas).value, a.ledger, a.honest, memSize, outer, body.ending.callee);
      }
    }
  }

  // A call tree that uses nothing but alloca and stackfree leaves the live blocks as it found them, and it throws
  // only when the memory runs out.
  lemma {:induction false} AllocasLeaveNothing(h: Blocks, memSize: nat, body: Activation)
    requires HeapInv(h, memSize) && OnlyAllocas(body)
    ensures match RunActivation(h, Live(h.list), true, memSize, {}, body)
      case Ok(r) => HeapInv(r.h, memSize) && Live(r.h.list) == Live(h.list)
      case Err(e) => e == Thrown(OutOfMemory)
  {
    hide Live, HeapInv, RunActivation, OnlyAllocas;
    AllocaLedger(h, memSize, body);
    ActivationBooks(h, Live(h.list), true, memSize, {}, body);
  }

  // ---------------------------------------------------------------- the frame and its methods

  class Frame {
    var allocas: seq<nat>

    constructor ()
      ensures allocas == []
    {
      allocas := [];
    }

    // The alloca instruction.
    method Alloca(heap: HeapMemory, size: nat) returns (r: Result<nat, HeapError>)
      requires heap.Valid() && size < LIMIT
      modifies this, heap
      ensures heap.Valid()
      ensures match AllocSpec(old(heap.State()), heap.memory.Length, size)
              case Ok(p) => r == Ok(p.1) && heap.State() == p.0 && allocas == old(allocas) + [p.1]
              case Err(e) => r == Err(e) && heap.State() == old(heap.State()) && allocas == old(allocas)
    {
      r := heap.Alloc(size);
      if r.Ok? { allocas := allocas + [r.value]; }
    }

    // freeAllocas: throws where a block was freed behind the frame's back.
    method FreeAllocas(heap: HeapMemory) returns (r: Result<(), HeapError>)
      requires heap.Valid()
      modifies this, heap
      ensures heap.Valid()
      ensures match FreeAll(old(heap.State()), old(allocas))
              case Some(h) => r == Ok(()) && heap.State() == h && allocas == []
              case None => r.Err? && allocas == old(allocas)
    {
      ghost var h := heap.State();
      var i := |allocas|;
      assert allocas[..i] == allocas;
      while i > 0
        invariant 0 <= i <= |allocas| && allocas == old(allocas)
        invariant heap.Valid()
        invariant FreeAll(h, allocas) == FreeAll(heap.State(), allocas[..i])
      {
        i := i - 1;
        ghost var left := allocas[..i + 1];
        assert left[..i] == allocas[..i] && left[i] == allocas[i];
        r := heap.Free(allocas[i]);
        if r.Err? { return; }
      }
      assert allocas[..|allocas|] == allocas;
      allocas := [];
      r := Ok(());
    }
  }
}
