// What the patched branches and calls of linked code decode to.

module Relocation {
  import opened Ast
  import opened Arm64Encoder
  import opened Arm64Words
  import opened Arm64Machine
  import opened Codegen

  // Word index, within its function, of the first word of block b.
  function BlockStart(fn: Function, b: nat): nat
    requires FnEmittable(fn) && b <= |fn.blocks|
  {
    |FnPrefix(fn, b)|
  }

  predicate HasBlock(fn: Function, t: string) { t in IndexMap(BlockLabels(fn.blocks)) }

  // The last block with a label.
  function TargetBlock(fn: Function, t: string): (b: nat)
    requires HasBlock(fn, t)
    ensures b < |fn.blocks| && fn.blocks[b].labelName == t
  {
    IndexMapIsLast(BlockLabels(fn.blocks));
    IndexMap(BlockLabels(fn.blocks))[t]
  }

  lemma TargetBlockIsLast(fn: Function, t: string)
    requires HasBlock(fn, t)
    ensures forall j :: TargetBlock(fn, t) < j < |fn.blocks| ==> fn.blocks[j].labelName != t
  {
    IndexMapIsLast(BlockLabels(fn.blocks));
    hide IndexMap;
    var labels := BlockLabels(fn.blocks);
    forall j | TargetBlock(fn, t) < j < |fn.blocks| ensures fn.blocks[j].labelName != t { assert labels[j] == fn.blocks[j].labelName; }
  }

  predicate HasFunction(p: Program, c: string) { c in IndexMap(FunctionNames(p.functions)) }

  function TargetFunction(p: Program, c: string): (f: nat)
    requires HasFunction(p, c)
    ensures f < |p.functions| && p.functions[f].name == c
  {
    IndexMapIsLast(FunctionNames(p.functions));
    IndexMap(FunctionNames(p.functions))[c]
  }

  predicate TargetsExist(p: Program, f: nat, a: Asm)
    requires f < |p.functions|
  {
    && (IsBranch(a) ==> HasBlock(p.functions[f], a.target))
    && (a.CallTo? ==> HasFunction(p, a.callee))
  }

  lemma ListingEmittable(p: Program, f: nat)
    requires Ready(p) && f < |p.functions|
    ensures FnEmittable(p.functions[f]) && Listing(p, f) == FnAsm(p.functions[f])
  {
    CompiledIsEmittable(p.functions[f]);
  }

  // In words, from the branch or call at (f, k) to the place it names.
  ghost function Displacement(p: Program, f: nat, k: nat): int
    requires Ready(p) && f < |p.functions| && k < |Listing(p, f)| && TargetsExist(p, f, Listing(p, f)[k])
  {
    ListingEmittable(p, f);
    match Listing(p, f)[k]
    case Branch(t) => BlockStart(p.functions[f], TargetBlock(p.functions[f], t)) - k
    case CondBranch(_, t) => BlockStart(p.functions[f], TargetBlock(p.functions[f], t)) - k
    case CallTo(c) => FnStart(p, TargetFunction(p, c)) - (FnStart(p, f) + k)
    case Raw(_) => 0
  }

  // The instruction that word (f, k) is meant to be.
  ghost function Meaning(p: Program, f: nat, k: nat): Option<MInstr>
    requires Ready(p) && f < |p.functions| && k < |Listing(p, f)| && TargetsExist(p, f, Listing(p, f)[k])
  {
    match Listing(p, f)[k]
    case Branch(t) => Some(B(Displacement(p, f, k)))
    case CondBranch(c, t) => Some(BCond(c, Displacement(p, f, k)))
    case CallTo(c) => Some(BL(Displacement(p, f, k)))
    case Raw(w) => Decode(w % 0x1_0000_0000)
  }

  // Whether the displacement of word (f, k) fits its immediate field.
  ghost predicate FitsField(p: Program, f: nat, k: nat)
    requires Ready(p) && f < |p.functions| && k < |Listing(p, f)| && TargetsExist(p, f, Listing(p, f)[k])
  {
    match Listing(p, f)[k]
    case Branch(t) => FitsImm26(Displacement(p, f, k))
    case CondBranch(c, t) => FitsImm19(Displacement(p, f, k))
    case CallTo(c) => FitsImm26(Displacement(p, f, k))
    case Raw(w) => true
  }

  // ---------------------------------------------------------------- offsets and starts in terms of the last index

  lemma {:induction false} OffsetsAreBlockStarts(fn: Function, n: nat)
    requires FnEmittable(fn) && n <= |fn.blocks|
    ensures var labels := IndexMap(BlockLabels(fn.blocks[..n]));
      && Offsets(fn, n).Keys == labels.Keys
      && forall t :: t in labels ==> labels[t] < n && Offsets(fn, n)[t] == 4 * BlockStart(fn, labels[t])
  {
    hide FnPrefix, BlocksEmittable;
    if n > 0 {
      OffsetsAreBlockStarts(fn, n - 1);
      var labels := BlockLabels(fn.blocks[..n]);
      assert labels[..n - 1] == BlockLabels(fn.blocks[..n - 1]);
    }
  }

  lemma {:induction false} StartsAreFnStarts(p: Program, n: nat)
    requires Ready(p) && n <= |p.functions|
    ensures var names := IndexMap(FunctionNames(p.functions[..n]));
      && Starts(p, n).Keys == names.Keys
      && forall c :: c in names ==> names[c] < n && Starts(p, n)[c] == 4 * FnStart(p, names[c])
  {
    hide Ready, FnStart;
    if n > 0 {
      StartsAreFnStarts(p, n - 1);
      var names := FunctionNames(p.functions[..n]);
      assert names[..n - 1] == FunctionNames(p.functions[..n - 1]);
    }
  }

  // ---------------------------------------------------------------- every target exists

  // Nothing is unresolved only if the target of every branch in the listing has an offset.
  lemma BranchTargetKnown(l: seq<Asm>, offsets: map<string, nat>, k: nat)
    requires FirstUnresolved(PendingOf(l), offsets) == None && k < |l| && IsBranch(l[k])
    ensures l[k].target in offsets
  {
    hide PendingOf, FirstUnresolved;
    PendingFacts(l);
    FirstUnresolvedNone(PendingOf(l), offsets);
    assert RecordedAt(PendingOf(l), 4 * k);
    var j :| 0 <= j < |PendingOf(l)| && PendingOf(l)[j].at == 4 * k;
    assert Records(PendingOf(l)[j], l);
  }

  // The keys of the recorded offsets are the labels of the blocks.
  lemma OffsetsAreLabels(fn: Function, t: string)
    requires FnEmittable(fn)
    ensures t in Offsets(fn, |fn.blocks|) <==> HasBlock(fn, t)
  {
    hide FnEmittable, Offsets, BlockStart;
    assert fn.blocks[..|fn.blocks|] == fn.blocks;
    OffsetsAreBlockStarts(fn, |fn.blocks|);
  }

  lemma BranchTargetsExist(p: Program, f: nat, k: nat)
    requires Ready(p) && f < |p.functions| && k < |Listing(p, f)| && IsBranch(Listing(p, f)[k])
    ensures HasBlock(p.functions[f], Listing(p, f)[k].target)
    ensures Listing(p, f)[k].target in LabelOffsets(p, f)
  {
    CompiledForm(p, f);
    ListingEmittable(p, f);
    hide Ready, Listing, PendingOf, FirstUnresolved, HasBlock, Offsets, FnEmittable;
    BranchTargetKnown(Listing(p, f), LabelOffsets(p, f), k);
    OffsetsAreLabels(p.functions[f], Listing(p, f)[k].target);
  }

  lemma {:induction false} NothingMissing(p: Program, g: nat, f: nat)
    requires Ready(p) && g <= f < |p.functions| && FirstMissingFrom(p, g) == None
    ensures FirstMissing(FixupsOf(Listing(p, f)), Starts(p, |p.functions|)) == None
    decreases f - g
  {
    hide *;
    MissingFromStep(p, g);
    if g < f { NothingMissing(p, g + 1, f); }
  }

  lemma {:induction false} FirstMissingNone(cs: seq<CallFixup>, starts: map<string, nat>)
    ensures FirstMissing(cs, starts) == None <==> forall j :: 0 <= j < |cs| ==> cs[j].callee in starts
  {
    if cs != [] {
      FirstMissingNone(cs[1..], starts);
      assert forall j :: 1 <= j < |cs| ==> cs[j] == cs[1..][j - 1];
    }
  }

  lemma CallTargetsExist(p: Program, f: nat, k: nat)
    requires Ready(p) && f < |p.functions| && k < |Listing(p, f)| && Listing(p, f)[k].CallTo?
    requires FirstMissingFrom(p, 0) == None
    ensures HasFunction(p, Listing(p, f)[k].callee)
    ensures Listing(p, f)[k].callee in Starts(p, |p.functions|)
  {
    hide Ready, Listing, FixupsOf, FirstMissing, FirstMissingFrom;
    var l := Listing(p, f);
    NothingMissing(p, 0, f);
    FirstMissingNone(FixupsOf(l), Starts(p, |p.functions|));
    FixupsComplete(l);
    FixupsSound(l);
    assert FixupAt(FixupsOf(l), 4 * k);
    var j :| 0 <= j < |FixupsOf(l)| && FixupsOf(l)[j].byteOffset == 4 * k;
    assert RecordsCall(FixupsOf(l)[j], l);
    StartsAreFnStarts(p, |p.functions|);
    assert p.functions[..|p.functions|] == p.functions;
  }

  // ---------------------------------------------------------------- where a word lies in the linked code

  lemma {:induction false} LinkedAt(p: Program, n: nat, f: nat, k: nat)
    requires Ready(p) && f < n <= |p.functions| && k < |Listing(p, f)|
    ensures FnStart(p, f) + k < |LinkedUpto(p, n)| && LinkedUpto(p, n)[FnStart(p, f) + k] == LinkedWord(p, f, k)
  {
    hide Ready, Listing, LinkedWord;
    if f < n - 1 {
      LinkedAt(p, n - 1, f, k);
    } else {
      assert LinkedFn(p, f)[k] == LinkedWord(p, f, k);
    }
  }

  lemma CompiledMeansReady(p: Program)
    requires Linkable(p) && CompileProgramSpec(p).Ok?
    ensures Ready(p) && FirstMissingFrom(p, 0) == None
    ensures CompileProgramSpec(p).value.code == Bytes(LinkedUpto(p, |p.functions|))
  {
    hide CompileSpec, Linkable, Bytes, LinkedUpto, FirstMissingFrom, Starts;
    FirstFailureNone(p.functions) by { LinkableShaped(p); }
  }

  lemma LinkableShaped(p: Program)
    requires Linkable(p)
    ensures forall f :: 0 <= f < |p.functions| ==> FunctionShaped(p.functions[f])
  {
  }

  lemma BranchWordIs(p: Program, f: nat, k: nat)
    requires Ready(p) && f < |p.functions| && k < |Listing(p, f)|
    requires IsBranch(Listing(p, f)[k]) && HasBlock(p.functions[f], Listing(p, f)[k].target)
    requires Listing(p, f)[k].target in LabelOffsets(p, f)
    ensures LabelOffsets(p, f)[Listing(p, f)[k].target] - 4 * k == 4 * Displacement(p, f, k)
  {
    ListingEmittable(p, f);
    hide Ready, FnAsm, FnPrefix, Listing;
    var fn := p.functions[f];
    OffsetsAreBlockStarts(fn, |fn.blocks|);
    assert fn.blocks[..|fn.blocks|] == fn.blocks;
  }

  lemma CallWordIs(p: Program, f: nat, k: nat)
    requires Ready(p) && f < |p.functions| && k < |Listing(p, f)| && Listing(p, f)[k].CallTo?
    requires HasFunction(p, Listing(p, f)[k].callee) && Listing(p, f)[k].callee in Starts(p, |p.functions|)
    ensures Starts(p, |p.functions|)[Listing(p, f)[k].callee] - 4 * (FnStart(p, f) + k) == 4 * Displacement(p, f, k)
  {
    hide Ready, FnAsm, Listing, FnStart, Starts;
    StartsAreFnStarts(p, |p.functions|);
    assert p.functions[..|p.functions|] == p.functions;
  }

  // The final word at (f, k).
  lemma LinkedWordIs(p: Program, f: nat, k: nat)
    requires Ready(p) && f < |p.functions| && k < |Listing(p, f)| && TargetsExist(p, f, Listing(p, f)[k])
    requires Listing(p, f)[k].CallTo? ==> Listing(p, f)[k].callee in Starts(p, |p.functions|)
    ensures LinkedWord(p, f, k) == match Listing(p, f)[k]
      case Branch(_) => Patch26(B_WORD, 4 * Displacement(p, f, k))
      case CondBranch(c, _) => Patch19(BCondWord(c), 4 * Displacement(p, f, k))
      case CallTo(_) => Patch26(BL_WORD, 4 * Displacement(p, f, k))
      case Raw(w) => w
  {
    hide Ready, Patch26, Patch19, Listing, FnStart, Starts, Displacement, LabelOffsets;
    var a := Listing(p, f)[k];
    if IsBranch(a) {
      BranchTargetsExist(p, f, k);
      BranchWordIs(p, f, k);
    }
    if a.CallTo? { CallWordIs(p, f, k); }
  }

  // Relocation: at every position of the linked code the targets exist, and the word decodes to what
  // it means exactly when its displacement fits.
  lemma RelocationTheorem(p: Program, f: nat, k: nat)
    requires Linkable(p) && CompileProgramSpec(p).Ok?
    requires Ready(p) && f < |p.functions| && k < |Listing(p, f)|
    ensures TargetsExist(p, f, Listing(p, f)[k])
    ensures Fetch(CompileProgramSpec(p).value.code, 4 * (FnStart(p, f) + k)) == Meaning(p, f, k) <==> FitsField(p, f, k)
  {
    CompiledMeansReady(p);
    var a := Listing(p, f)[k];
    if IsBranch(a) { BranchTargetsExist(p, f, k); }
    if a.CallTo? { CallTargetsExist(p, f, k); }
    LinkedAt(p, |p.functions|, f, k);
    LinkedWordIs(p, f, k);
    FetchLinked(p, f, k);
  }

  // Linking moves the functions together and changes nothing but the calls: the bytes of every other word are
  // those of the compiled function.
  lemma OtherBytesUnchanged(p: Program, f: nat, k: nat)
    requires Linkable(p) && CompileProgramSpec(p).Ok?
    requires Ready(p) && f < |p.functions| && k < |Listing(p, f)| && !Listing(p, f)[k].CallTo?
    ensures 4 * k + 4 <= |CompileSpec(p.functions[f]).value.code|
    ensures 4 * (FnStart(p, f) + k) + 4 <= |CompileProgramSpec(p).value.code|
    ensures CompileProgramSpec(p).value.code[4 * (FnStart(p, f) + k)..4 * (FnStart(p, f) + k) + 4]
         == CompileSpec(p.functions[f]).value.code[4 * k..4 * k + 4]
  {
    hide *;
    CompiledMeansReady(p);
    CompiledForm(p, f);
    LinkedAt(p, |p.functions|, f, k);
    OtherWordUnchanged(p, f, k);
    SameBytes(LinkedUpto(p, |p.functions|), FnStart(p, f) + k, UnlinkedWords(p, f), k);
  }

  lemma OtherWordUnchanged(p: Program, f: nat, k: nat)
    requires Ready(p) && f < |p.functions| && k < |Listing(p, f)| && !Listing(p, f)[k].CallTo?
    ensures LinkedWord(p, f, k) == UnlinkedWords(p, f)[k]
  {
    hide Ready, Listing, UnlinkedWords;
  }

  lemma SameBytes(v: seq<nat>, i: nat, w: seq<nat>, k: nat)
    requires i < |v| && k < |w| && v[i] == w[k]
    ensures 4 * i + 4 <= |Bytes(v)| && 4 * k + 4 <= |Bytes(w)|
    ensures Bytes(v)[4 * i..4 * i + 4] == Bytes(w)[4 * k..4 * k + 4]
  {
    BytesAt(v, i);
    BytesAt(w, k);
  }

  lemma FetchLinked(p: Program, f: nat, k: nat)
    requires Ready(p) && f < |p.functions| && k < |Listing(p, f)| && TargetsExist(p, f, Listing(p, f)[k])
    requires FnStart(p, f) + k < |LinkedUpto(p, |p.functions|)|
    requires LinkedUpto(p, |p.functions|)[FnStart(p, f) + k] == match Listing(p, f)[k]
      case Branch(_) => Patch26(B_WORD, 4 * Displacement(p, f, k))
      case CondBranch(c, _) => Patch19(BCondWord(c), 4 * Displacement(p, f, k))
      case CallTo(_) => Patch26(BL_WORD, 4 * Displacement(p, f, k))
      case Raw(w) => w
    ensures Fetch(Bytes(LinkedUpto(p, |p.functions|)), 4 * (FnStart(p, f) + k)) == Meaning(p, f, k) <==> FitsField(p, f, k)
  {
    hide Ready, Listing, Displacement, Patch26, Patch19, BCondWord, LinkedUpto, FnStart, Decode, Bytes;
    var words := LinkedUpto(p, |p.functions|);
    var at := FnStart(p, f) + k;
    var a := Listing(p, f)[k];
    match a {
      case Branch(_) => DecodePatch26(false, 0, Displacement(p, f, k));
      case CondBranch(c, _) => DecodePatch19(c, Displacement(p, f, k));
      case CallTo(_) => DecodePatch26(true, 0, Displacement(p, f, k));
      case Raw(w) =>
    }
    FetchBytes(words, at);
  }
}
