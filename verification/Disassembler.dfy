// The disassembler for the uasm format (src/format/disassemble.cpp). How a double is printed is a parameter;
// a number that is no type prints as nothing, where the C++ array access has no meaning.

module Disassembler {
  import opened Ast
  import opened Opcodes

  // ---------------------------------------------------------------- the text

  function DigitChar(d: nat): char
    requires d < 10
  {
    ('0' as int + d) as char
  }

  function Decimal(n: nat): (s: string)
    ensures s != ""
  {
    if n < 10 then [DigitChar(n)] else Decimal(n / 10) + [DigitChar(n % 10)]
  }

  function SignedDecimal(v: int): string {
    if v < 0 then "-" + Decimal(-1 * v) else Decimal(v)
  }

  function TypeText(t: Byte): string { if t < TYPE_COUNT then TypeName(t) else "" }

  function OpcodeText(table: OpcodeTable, opcode: UInt16): string {
    if opcode < |table| then table[opcode].mnemonic else "<invalid>"
  }

  function SuffixText(takes: bool, t: Byte): string { if takes then "." + TypeText(t) else "" }

  predicate TakesSuffix(table: OpcodeTable, opcode: UInt16) { opcode < |table| && table[opcode].suffix }

  predicate TakesSuffix2(table: OpcodeTable, opcode: UInt16) { opcode < |table| && table[opcode].suffix2 }

  function RegisterText(r: UInt32): string { "r" + Decimal(r) }

  function OperandText(op: Operand, show: UInt64 -> string): string {
    match op
    case Register(r) => RegisterText(r)
    case ImmediateInt(v) => SignedDecimal(v)
    case ImmediateFloat(bits) => show(bits)
    case Symbol(name) => name
    case Label(name) => name
  }

  // The operands as they are listed: the destination first, but for a call behind the name of the function.
  function Listed(i: Instruction): seq<Operand> {
    var dest := if i.hasDest then [Register(i.dest)] else [];
    if i.opcode == CALL && i.operands != [] then [i.operands[0]] + dest + i.operands[1..] else dest + i.operands
  }

  // Every operand but the first behind a comma and a blank.
  function MoreOperands(ops: seq<Operand>, show: UInt64 -> string): string {
    if ops == [] then "" else ", " + OperandText(ops[0], show) + MoreOperands(ops[1..], show)
  }

  function OperandsText(ops: seq<Operand>, show: UInt64 -> string): string {
    if ops == [] then "" else OperandText(ops[0], show) + MoreOperands(ops[1..], show)
  }

  function InstructionText(table: OpcodeTable, show: UInt64 -> string, i: Instruction): string {
    "    " + OpcodeText(table, i.opcode) + SuffixText(TakesSuffix(table, i.opcode), i.ty)
    + SuffixText(TakesSuffix2(table, i.opcode), i.ty2) + " " + OperandsText(Listed(i), show) + "\n"
  }

  // The texts of the elements of a list, one after the other.
  function Texts<T>(text: T -> string, xs: seq<T>): string {
    if xs == [] then "" else text(xs[0]) + Texts(text, xs[1..])
  }

  function InstructionWriter(table: OpcodeTable, show: UInt64 -> string): Instruction -> string {
    i => InstructionText(table, show, i)
  }

  function BlockText(table: OpcodeTable, show: UInt64 -> string, b: Block): string {
    b.labelName + ":\n" + Texts(InstructionWriter(table, show), b.instructions)
  }

  function BlockWriter(table: OpcodeTable, show: UInt64 -> string): Block -> string {
    b => BlockText(table, show, b)
  }

  // Parameters are called p0, p1, and so on.
  function ParamName(k: nat): string { "p" + Decimal(k) }

  function ParamsText(ps: seq<Param>, k: nat): string {
    if ps == [] then ""
    else (if k > 0 then ", " else "") + ParamName(k) + ": " + TypeText(ps[0].ty) + ParamsText(ps[1..], k + 1)
  }

  function FunctionText(table: OpcodeTable, show: UInt64 -> string, f: Function): string {
    (if f.isExported then "export " else "") + "func " + f.name + "(" + ParamsText(f.params, 0) + ") -> "
    + TypeText(f.returnType) + " {\n" + Texts(BlockWriter(table, show), f.blocks) + "}\n\n"
  }

  function FunctionWriter(table: OpcodeTable, show: UInt64 -> string): Function -> string {
    f => FunctionText(table, show, f)
  }

  // The modules in the order in which they first appear.
  function ModuleOrder(fs: seq<Function>): seq<string> {
    if fs == [] then []
    else
      var before := ModuleOrder(fs[..|fs| - 1]);
      var m := fs[|fs| - 1].moduleName;
      if m in before then before else before + [m]
  }

  function OfModule(fs: seq<Function>, m: string): seq<Function> {
    if fs == [] then []
    else OfModule(fs[..|fs| - 1], m) + if fs[|fs| - 1].moduleName == m then [fs[|fs| - 1]] else []
  }

  function ModuleText(table: OpcodeTable, show: UInt64 -> string, fs: seq<Function>, m: string): string {
    "module " + m + "\n\n" + Texts(FunctionWriter(table, show), OfModule(fs, m))
  }

  function ModuleWriter(table: OpcodeTable, show: UInt64 -> string, fs: seq<Function>): string -> string {
    m => ModuleText(table, show, fs, m)
  }

  function DisassembleSpec(table: OpcodeTable, show: UInt64 -> string, p: Program): string {
    Texts(ModuleWriter(table, show, p.functions), ModuleOrder(p.functions))
  }

  // ---------------------------------------------------------------- the loops

  lemma {:induction false} TextsNext<T>(text: T -> string, xs: seq<T>, x: T)
    ensures Texts(text, xs + [x]) == Texts(text, xs) + text(x)
  {
    if xs == [] {
      assert xs + [x] == [x] && [x][1..] == [];
    } else {
      TextsNext(text, xs[1..], x);
      assert (xs + [x])[1..] == xs[1..] + [x];
    }
  }

  lemma {:induction false} MoreNext(ops: seq<Operand>, op: Operand, show: UInt64 -> string)
    ensures MoreOperands(ops + [op], show) == MoreOperands(ops, show) + (", " + OperandText(op, show))
  {
    hide OperandText;
    if ops == [] {
      assert ops + [op] == [op] && [op][1..] == [];
    } else {
      MoreNext(ops[1..], op, show);
      assert (ops + [op])[1..] == ops[1..] + [op];
      Assoc(", " + OperandText(ops[0], show), MoreOperands(ops[1..], show), ", " + OperandText(op, show));
    }
  }

  lemma OperandsNext(ops: seq<Operand>, op: Operand, show: UInt64 -> string)
    ensures OperandsText(ops + [op], show) == OperandsText(ops, show) + (if ops == [] then "" else ", ") + OperandText(op, show)
  {
    hide OperandText;
    if ops == [] {
      assert ops + [op] == [op] && [op][1..] == [];
    } else {
      MoreNext(ops[1..], op, show);
      assert (ops + [op])[1..] == ops[1..] + [op];
    }
  }

  method WriteOperand(out: string, op: Operand, show: UInt64 -> string) returns (r: string)
    ensures r == out + OperandText(op, show)
  {
    match op
    case Register(reg) => r := out + ("r" + Decimal(reg));
    case ImmediateInt(v) => r := out + SignedDecimal(v);
    case ImmediateFloat(bits) => r := out + show(bits);
    case Symbol(name) => r := out + name;
    case Label(name) => r := out + name;
  }

  // Operand number n of a list, behind a comma unless it is the first.
  method WriteListed(out: string, ghost start: string, ghost listed: seq<Operand>, ghost n: nat, first: bool, op: Operand,
    show: UInt64 -> string) returns (r: string)
    requires n < |listed| && listed[n] == op && (first <==> n == 0)
    requires out == start + OperandsText(listed[..n], show)
    ensures r == start + OperandsText(listed[..n + 1], show)
  {
    hide OperandsText, OperandText;
    OperandsNext(listed[..n], op, show);
    assert listed[..n + 1] == listed[..n] + [op];
    r := if first then out else out + ", ";
    r := WriteOperand(r, op, show);
  }

  // Where the operands are in the list.
  lemma ListedAt(i: Instruction)
    ensures var l, d := Listed(i), if i.hasDest then 1 else 0;
      && |l| == |i.operands| + d
      && (i.opcode == CALL && i.operands != [] ==> l[0] == i.operands[0] && (i.hasDest ==> l[1] == Register(i.dest)))
      && (!(i.opcode == CALL && i.operands != []) && i.hasDest ==> l[0] == Register(i.dest))
      && forall k :: (if i.opcode == CALL && i.operands != [] then 1 else 0) <= k < |i.operands| ==> l[d + k] == i.operands[k]
  {
  }

  method WriteOperands(out: string, i: Instruction, show: UInt64 -> string) returns (r: string)
    ensures r == out + OperandsText(Listed(i), show)
  {
    hide OperandsText, OperandText, Listed;
    ListedAt(i);
    ghost var listed := Listed(i);
    var firstOperand := true;
    NothingWritten(out, listed, show);
    r := out;
    var from := 0;
    ghost var n := 0;
    if i.opcode == CALL && i.operands != [] {
      r := WriteListed(r, out, listed, n, firstOperand, i.operands[0], show);
      firstOperand, from, n := false, 1, 1;
    }
    if i.hasDest {
      r := WriteListed(r, out, listed, n, firstOperand, Register(i.dest), show);
      firstOperand, n := false, n + 1;
    }
    for k := from to |i.operands|
      invariant n == k + if i.hasDest then 1 else 0
      invariant firstOperand <==> n == 0
      invariant r == out + OperandsText(listed[..n], show)
    {
      r := WriteListed(r, out, listed, n, firstOperand, i.operands[k], show);
      firstOperand, n := false, n + 1;
    }
    assert listed[..n] == listed;
  }

  lemma NothingWritten(out: string, listed: seq<Operand>, show: UInt64 -> string)
    ensures out + OperandsText(listed[..0], show) == out
  {
  }

  method WriteInstruction(out: string, table: OpcodeTable, show: UInt64 -> string, i: Instruction) returns (r: string)
    ensures r == out + InstructionText(table, show, i)
  {
    ghost var head := "    " + OpcodeText(table, i.opcode);
    ghost var one := head + SuffixText(TakesSuffix(table, i.opcode), i.ty);
    ghost var two := one + SuffixText(TakesSuffix2(table, i.opcode), i.ty2);
    ghost var ops := OperandsText(Listed(i), show);
    assert InstructionText(table, show, i) == two + " " + ops + "\n";
    hide OperandsText, TypeText, Listed, InstructionText, OpcodeText;
    Assoc(out, "    ", OpcodeText(table, i.opcode));
    r := out + "    " + OpcodeText(table, i.opcode);
    if TakesSuffix(table, i.opcode) {
      Assoc(out, head, "." + TypeText(i.ty));
      r := r + ("." + TypeText(i.ty));
    }
    assert r == out + one;
    if TakesSuffix2(table, i.opcode) {
      Assoc(out, one, "." + TypeText(i.ty2));
      r := r + ("." + TypeText(i.ty2));
    }
    assert r == out + two;
    Assoc(out, two, " ");
    Assoc(out, two + " ", ops);
    Assoc(out, two + " " + ops, "\n");
    r := r + " ";
    r := WriteOperands(r, i, show);
    r := r + "\n";
  }

  method WriteBlock(out: string, table: OpcodeTable, show: UInt64 -> string, b: Block) returns (r: string)
    ensures r == out + BlockText(table, show, b)
  {
    hide InstructionText;
    r := out + (b.labelName + ":\n");
    ghost var start := r;
    for k := 0 to |b.instructions|
      invariant r == start + Texts(InstructionWriter(table, show), b.instructions[..k])
    {
      r := WriteInstruction(r, table, show, b.instructions[k]);
      TextsNext(InstructionWriter(table, show), b.instructions[..k], b.instructions[k]);
      assert b.instructions[..k + 1] == b.instructions[..k] + [b.instructions[k]];
    }
    assert b.instructions[..|b.instructions|] == b.instructions;
  }

  lemma {:induction false} ParamsNext(ps: seq<Param>, p: Param, k: nat)
    ensures ParamsText(ps + [p], k) ==
      ParamsText(ps, k) + ((if k + |ps| > 0 then ", " else "") + ParamName(k + |ps|) + ": " + TypeText(p.ty))
    decreases |ps|
  {
    hide ParamName, TypeText;
    if ps == [] {
      assert ps + [p] == [p] && [p][1..] == [];
    } else {
      ParamsNext(ps[1..], p, k + 1);
      assert (ps + [p])[1..] == ps[1..] + [p] && (ps + [p])[0] == ps[0];
    }
  }

  method WriteParams(out: string, ps: seq<Param>) returns (r: string)
    ensures r == out + ParamsText(ps, 0)
  {
    hide ParamsText, ParamName, TypeText;
    r := out;
    NoParams(out);
    for k := 0 to |ps|
      invariant r == out + ParamsText(ps[..k], 0)
    {
      ParamsNext(ps[..k], ps[k], 0);
      assert ps[..k + 1] == ps[..k] + [ps[k]];
      var piece := (if k != 0 then ", " else "") + ParamName(k) + ": " + TypeText(ps[k].ty);
      r := r + piece;
    }
    assert ps[..|ps|] == ps;
  }

  lemma NoParams(out: string)
    ensures out + ParamsText([], 0) == out
  {
  }

  method WriteBlocks(out: string, table: OpcodeTable, show: UInt64 -> string, bs: seq<Block>) returns (r: string)
    ensures r == out + Texts(BlockWriter(table, show), bs)
  {
    hide BlockText;
    r := out;
    for k := 0 to |bs|
      invariant r == out + Texts(BlockWriter(table, show), bs[..k])
    {
      r := WriteBlock(r, table, show, bs[k]);
      TextsNext(BlockWriter(table, show), bs[..k], bs[k]);
      assert bs[..k + 1] == bs[..k] + [bs[k]];
    }
    assert bs[..|bs|] == bs;
  }

  method WriteFunction(out: string, table: OpcodeTable, show: UInt64 -> string, f: Function) returns (r: string)
    ensures r == out + FunctionText(table, show, f)
  {
    hide ParamsText, TypeText, Texts;
    r := out + ((if f.isExported then "export " else "") + "func " + f.name + "(");
    r := WriteParams(r, f.params);
    r := r + ") -> " + TypeText(f.returnType) + " {\n";
    r := WriteBlocks(r, table, show, f.blocks);
    r := r + "}\n\n";
  }

  // Where the functions of a module stand.
  function IndicesOf(fs: seq<Function>, m: string): (at: seq<nat>)
    ensures forall k :: 0 <= k < |at| ==> at[k] < |fs|
  {
    if fs == [] then []
    else IndicesOf(fs[..|fs| - 1], m) + if fs[|fs| - 1].moduleName == m then [|fs| - 1] else []
  }

  function At(fs: seq<Function>, at: seq<nat>): (r: seq<Function>)
    requires forall k :: 0 <= k < |at| ==> at[k] < |fs|
    ensures |r| == |at|
  {
    seq(|at|, k requires 0 <= k < |at| => fs[at[k]])
  }

  lemma AtFront(fs: seq<Function>, at: seq<nat>)
    requires fs != [] && forall k :: 0 <= k < |at| ==> at[k] < |fs| - 1
    ensures At(fs, at) == At(fs[..|fs| - 1], at)
  {
  }

  lemma {:induction false} AtIndices(fs: seq<Function>, m: string)
    ensures At(fs, IndicesOf(fs, m)) == OfModule(fs, m)
  {
    if fs != [] {
      var front := fs[..|fs| - 1];
      AtIndices(front, m);
      AtFront(fs, IndicesOf(front, m));
      if fs[|fs| - 1].moduleName == m { assert At(fs, IndicesOf(fs, m)) == At(fs, IndicesOf(front, m)) + [fs[|fs| - 1]]; }
    }
  }

  // The map that the first loop fills.
  function Groups(fs: seq<Function>): map<string, seq<nat>> {
    if fs == [] then map[]
    else
      var before := Groups(fs[..|fs| - 1]);
      var m := fs[|fs| - 1].moduleName;
      before[m := (if m in before then before[m] else []) + [|fs| - 1]]
  }

  lemma {:induction false} GroupsAre(fs: seq<Function>, m: string)
    ensures m in Groups(fs) <==> m in ModuleOrder(fs)
    ensures IndicesOf(fs, m) == if m in Groups(fs) then Groups(fs)[m] else []
  {
    if fs != [] {
      GroupsAre(fs[..|fs| - 1], m);
      GroupsAre(fs[..|fs| - 1], fs[|fs| - 1].moduleName);
    }
  }

  lemma TablesNext(fs: seq<Function>, f: Function)
    ensures var g, m := Groups(fs), f.moduleName;
      && ModuleOrder(fs + [f]) == (if m in g then ModuleOrder(fs) else ModuleOrder(fs) + [m])
      && Groups(fs + [f]) == g[m := (if m in g then g[m] else []) + [|fs|]]
  {
    GroupsAre(fs, f.moduleName);
    assert (fs + [f])[..|fs|] == fs;
  }

  method Disassemble(table: OpcodeTable, show: UInt64 -> string, p: Program) returns (out: string)
    ensures out == DisassembleSpec(table, show, p)
  {
    hide Groups, ModuleOrder, IndicesOf, OfModule, FunctionText;
    var moduleOrder: seq<string> := [];
    var moduleFunctions: map<string, seq<nat>> := map[];
    NoGroups();
    assert p.functions[..0] == [];
    for i := 0 to |p.functions|
      invariant moduleOrder == ModuleOrder(p.functions[..i]) && moduleFunctions == Groups(p.functions[..i])
    {
      var m := p.functions[i].moduleName;
      TablesNext(p.functions[..i], p.functions[i]);
      assert p.functions[..i + 1] == p.functions[..i] + [p.functions[i]];
      if m !in moduleFunctions { moduleOrder := moduleOrder + [m]; }
      moduleFunctions := moduleFunctions[m := (if m in moduleFunctions then moduleFunctions[m] else []) + [i]];
    }
    assert p.functions[..|p.functions|] == p.functions;
    out := "";
    for m := 0 to |moduleOrder|
      invariant out == Texts(ModuleWriter(table, show, p.functions), moduleOrder[..m])
    {
      var modName := moduleOrder[m];
      GroupsAre(p.functions, modName);
      var indices := moduleFunctions[modName];
      out := WriteModule(out, table, show, p.functions, modName, indices);
      TextsNext(ModuleWriter(table, show, p.functions), moduleOrder[..m], modName);
      assert moduleOrder[..m + 1] == moduleOrder[..m] + [modName];
    }
    assert moduleOrder[..|moduleOrder|] == moduleOrder;
  }

  lemma NoGroups()
    ensures ModuleOrder([]) == [] && Groups([]) == map[]
  {
  }

  method WriteModule(out: string, table: OpcodeTable, show: UInt64 -> string, fs: seq<Function>, m: string, indices: seq<nat>)
    returns (r: string)
    requires indices == IndicesOf(fs, m)
    ensures r == out + ModuleText(table, show, fs, m)
  {
    hide IndicesOf, OfModule, FunctionText;
    r := out + ("module " + m + "\n\n");
    ghost var start := r;
    ghost var group := At(fs, indices);
    AtIndices(fs, m);
    for k := 0 to |indices|
      invariant r == start + Texts(FunctionWriter(table, show), group[..k])
    {
      r := WriteFunction(r, table, show, fs[indices[k]]);
      TextsNext(FunctionWriter(table, show), group[..k], group[k]);
      assert group[..k + 1] == group[..k] + [group[k]];
    }
    assert group[..|indices|] == group;
  }
}
