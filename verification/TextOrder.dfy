// Programs of several modules as text: the modules come in the order in which they first appear, each with its own
// functions in their order (src/format/disassemble.cpp).

module TextOrder {
  import opened Ast
  import opened Disassembler

  predicate Increasing(at: seq<nat>) { forall j, k :: 0 <= j < k < |at| ==> at[j] < at[k] }

  // Module m appears at f and not before.
  predicate FirstAt(fs: seq<Function>, m: string, f: nat) {
    f < |fs| && fs[f].moduleName == m && forall g :: 0 <= g < f ==> fs[g].moduleName != m
  }

  predicate AllFirst(fs: seq<Function>, ms: seq<string>, at: seq<nat>) {
    |at| == |ms| && forall k :: 0 <= k < |ms| ==> FirstAt(fs, ms[k], at[k])
  }

  predicate AllListed(fs: seq<Function>, ms: seq<string>) { forall f :: 0 <= f < |fs| ==> fs[f].moduleName in ms }

  lemma FirstInMore(fs: seq<Function>, fn: Function, ms: seq<string>, at: seq<nat>)
    requires AllFirst(fs, ms, at)
    ensures AllFirst(fs + [fn], ms, at) && forall k :: 0 <= k < |at| ==> at[k] < |fs|
  {
    forall k | 0 <= k < |ms| ensures FirstAt(fs + [fn], ms[k], at[k]) { assert FirstAt(fs, ms[k], at[k]); }
  }

  // Every module is listed once, where it first appears.
  lemma {:induction false} ModulesInOrder(fs: seq<Function>) returns (at: seq<nat>)
    ensures var ms := ModuleOrder(fs); AllFirst(fs, ms, at) && Increasing(at) && AllListed(fs, ms)
  {
    if fs == [] {
      at := [];
    } else {
      var n := |fs| - 1;
      var front := ModulesInOrder(fs[..n]);
      var before, m := ModuleOrder(fs[..n]), fs[n].moduleName;
      assert fs == fs[..n] + [fs[n]];
      FirstInMore(fs[..n], fs[n], before, front);
      hide FirstAt;
      if m in before {
        at := front;
      } else {
        at := front + [n];
        NewFirst(fs, before);
      }
    }
  }

  lemma NewFirst(fs: seq<Function>, before: seq<string>)
    requires fs != [] && AllListed(fs[..|fs| - 1], before) && fs[|fs| - 1].moduleName !in before
    ensures FirstAt(fs, fs[|fs| - 1].moduleName, |fs| - 1)
  {
    var n := |fs| - 1;
    forall g | 0 <= g < n ensures fs[g].moduleName != fs[n].moduleName { assert fs[..n][g].moduleName in before; }
  }

  // r holds the functions at the places `at`.
  predicate Taken(fs: seq<Function>, r: seq<Function>, at: seq<nat>) {
    |at| == |r| && forall k :: 0 <= k < |r| ==> at[k] < |fs| && r[k] == fs[at[k]]
  }

  // These are the places of the functions of module m.
  predicate PlacesOf(fs: seq<Function>, m: string, at: seq<nat>) {
    forall f :: 0 <= f < |fs| ==> (f in at <==> fs[f].moduleName == m)
  }

  // A module is printed with all its functions and no others, in their order.
  lemma {:induction false} FunctionsInOrder(fs: seq<Function>, m: string) returns (at: seq<nat>)
    ensures Taken(fs, OfModule(fs, m), at) && Increasing(at) && PlacesOf(fs, m, at)
  {
    if fs == [] {
      at := [];
    } else {
      var n := |fs| - 1;
      var front := FunctionsInOrder(fs[..n], m);
      at := if fs[n].moduleName == m then front + [n] else front;
      TakenStep(fs, m, OfModule(fs[..n], m), front, at);
      PlacesStep(fs, m, front, at);
      hide Taken, PlacesOf;
    }
  }

  lemma TakenStep(fs: seq<Function>, m: string, r: seq<Function>, front: seq<nat>, at: seq<nat>)
    requires fs != [] && Taken(fs[..|fs| - 1], r, front)
    requires at == if fs[|fs| - 1].moduleName == m then front + [|fs| - 1] else front
    ensures forall k :: 0 <= k < |front| ==> front[k] < |fs| - 1
    ensures Taken(fs, r + if fs[|fs| - 1].moduleName == m then [fs[|fs| - 1]] else [], at)
  {
    var n := |fs| - 1;
    forall k | 0 <= k < |front| ensures front[k] < n && r[k] == fs[front[k]] { assert r[k] == fs[..n][front[k]]; }
  }

  lemma PlacesStep(fs: seq<Function>, m: string, front: seq<nat>, at: seq<nat>)
    requires fs != [] && PlacesOf(fs[..|fs| - 1], m, front) && forall k :: 0 <= k < |front| ==> front[k] < |fs| - 1
    requires at == if fs[|fs| - 1].moduleName == m then front + [|fs| - 1] else front
    ensures PlacesOf(fs, m, at)
  {
    var n := |fs| - 1;
    forall f | 0 <= f < |fs| ensures f in at <==> fs[f].moduleName == m {
      if f < n {
        assert fs[..n][f] == fs[f];
        assert f in at <==> f in front;
      } else if fs[n].moduleName == m {
        assert at[|front|] == n;
      }
    }
  }
}
