// The object format byte by byte: a file written out, and what makes the reader refuse one.

module UoLayout {
  import opened Ast
  import opened Bits
  import opened UoFormat
  import opened UoRoundTrip

  // ---------------------------------------------------------------- a file

  const SAMPLE: Program := Program([SAMPLE_FUNCTION], 5)

  const SAMPLE_FUNCTION: Function :=
    Function("f", "m", true, [Param("x", 6), Param("y", 7)], 12, [Block("e", [SAMPLE_INSTRUCTION])])

  const SAMPLE_INSTRUCTION: Instruction := Instruction(0x0102, 6, 4, true, 10, SAMPLE_OPERANDS, 99)

  const SAMPLE_OPERANDS: seq<Operand> :=
    [Register(3), ImmediateInt(-2), ImmediateFloat(0x3FF0_0000_0000_0001), Symbol("g"), Label("h")]

  lemma Little(b0: Byte, b1: Byte, b2: Byte, b3: Byte)
    ensures LittleEndian(b0, 1) == [b0] && LittleEndian(b0 + 0x100 * b1, 2) == [b0, b1]
    ensures LittleEndian(b0 + 0x100 * (b1 + 0x100 * (b2 + 0x100 * b3)), 4) == [b0, b1, b2, b3]
  {
    var v2 := b2 + 0x100 * b3;
    var v1 := b1 + 0x100 * v2;
    var v0 := b0 + 0x100 * v1;
    assert v0 % 0x100 == b0 && v0 / 0x100 == v1 && v1 % 0x100 == b1 && v1 / 0x100 == v2 && v2 % 0x100 == b2 && v2 / 0x100 == b3;
    LastByte(b3);
    assert LittleEndian(v2, 2) == [b2] + LittleEndian(b3, 1);
    assert LittleEndian(v1, 3) == [b1] + LittleEndian(v2, 2);
    assert LittleEndian(v0, 4) == [b0] + LittleEndian(v1, 3);
    LastByte(b1);
    LastByte(b0);
    assert (b0 + 0x100 * b1) % 0x100 == b0 && (b0 + 0x100 * b1) / 0x100 == b1;
    assert LittleEndian(b0 + 0x100 * b1, 2) == [b0] + LittleEndian(b1, 1);
  }

  lemma LastByte(b: Byte)
    ensures LittleEndian(b, 1) == [b]
  {
    assert LittleEndian(b, 1) == [b % 0x100] + LittleEndian(b / 0x100, 0);
  }

  // Taking the lowest byte off a number of n bytes with another one above it.
  lemma LowestByte(lo: nat, hi: nat, n: nat)
    requires lo < Pow2(8 * n) && n > 0
    ensures lo / 0x100 < Pow2(8 * (n - 1))
    ensures var v := lo + Pow2(8 * n) * hi; v % 0x100 == lo % 0x100 && v / 0x100 == lo / 0x100 + Pow2(8 * (n - 1)) * hi
  {
    Pow2Byte(8 * (n - 1));
    assert 8 * n == 8 * (n - 1) + 8;
    hide Pow2;
    Shifted(lo, Pow2(8 * (n - 1)), hi);
  }

  lemma {:induction false} LittleJoin(lo: nat, hi: nat, n: nat, k: nat)
    requires lo < Pow2(8 * n)
    ensures LittleEndian(lo + Pow2(8 * n) * hi, n + k) == LittleEndian(lo, n) + LittleEndian(hi, k)
    decreases n
  {
    if n == 0 {
      assert lo == 0 && Pow2(0) == 1;
    } else {
      hide Pow2, LittleEndian;
      LowestByte(lo, hi, n);
      FirstByte(lo + Pow2(8 * n) * hi, n + k);
      FirstByte(lo, n);
      LittleJoin(lo / 0x100, hi, n - 1, k);
      assert n + k - 1 == (n - 1) + k;
      Assoc([lo % 0x100], LittleEndian(lo / 0x100, n - 1), LittleEndian(hi, k));
    }
  }

  lemma FirstByte(v: nat, n: nat)
    requires n > 0
    ensures LittleEndian(v, n) == [v % 0x100] + LittleEndian(v / 0x100, n - 1)
  {
  }

  lemma Shifted(lo: nat, p: nat, hi: nat)
    ensures (lo + (0x100 * p) * hi) % 0x100 == lo % 0x100 && (lo + (0x100 * p) * hi) / 0x100 == lo / 0x100 + p * hi
  {
    assert (0x100 * p) * hi == 0x100 * (p * hi);
    DivModUnique(lo + 0x100 * (p * hi), 0x100, lo / 0x100 + p * hi, lo % 0x100);
  }

  // Eight bytes of two words.
  lemma Little8(lo: UInt32, hi: UInt32)
    ensures LittleEndian(lo + 0x1_0000_0000 * hi, 8) == LittleEndian(lo, 4) + LittleEndian(hi, 4)
  {
    Pow2Literals();
    hide Pow2, LittleEndian;
    LittleJoin(lo, hi, 4, 4);
  }

  lemma ShortName(c: char, b: Byte)
    requires c as int == b
    ensures StringBytes([c]) == [1, 0, 0, 0, b]
  {
    Little(1, 0, 0, 0);
    hide LittleEndian;
    assert CharBytes([c]) == [b];
  }

  lemma SampleOperands()
    ensures |SAMPLE_OPERANDS| == 5
    ensures OperandBytes(SAMPLE_OPERANDS[0]) == [0, 3, 0, 0, 0]
    ensures OperandBytes(SAMPLE_OPERANDS[1]) == [1, 0xFE, 0xFF, 0xFF, 0xFF, 0xFF, 0xFF, 0xFF, 0xFF]
    ensures OperandBytes(SAMPLE_OPERANDS[2]) == [2, 1, 0, 0, 0, 0, 0, 0xF0, 0x3F]
    ensures OperandBytes(SAMPLE_OPERANDS[3]) == [3, 1, 0, 0, 0, 0x67]
    ensures OperandBytes(SAMPLE_OPERANDS[4]) == [3, 1, 0, 0, 0, 0x68]
  {
    hide LittleEndian, StringBytes;
    Little(3, 0, 0, 0);
    Little8(0xFFFF_FFFE, 0xFFFF_FFFF);
    Little(0xFE, 0xFF, 0xFF, 0xFF);
    Little(0xFF, 0xFF, 0xFF, 0xFF);
    Little8(1, 0x3FF0_0000);
    Little(1, 0, 0, 0);
    Little(0, 0, 0xF0, 0x3F);
    ShortName('g', 0x67);
    ShortName('h', 0x68);
  }

  lemma {:induction false} ConcatFive<T>(encode: T -> seq<Byte>, xs: seq<T>)
    requires |xs| == 5
    ensures Concat(encode, xs) == encode(xs[0]) + (encode(xs[1]) + (encode(xs[2]) + (encode(xs[3]) + encode(xs[4]))))
  {
    ConcatOne(encode, xs[4..]);
    assert xs[3..][1..] == xs[4..] && xs[2..][1..] == xs[3..] && xs[1..][1..] == xs[2..];
    assert Concat(encode, xs[3..]) == encode(xs[3]) + Concat(encode, xs[4..]);
    assert Concat(encode, xs[2..]) == encode(xs[2]) + Concat(encode, xs[3..]);
    assert Concat(encode, xs[1..]) == encode(xs[1]) + Concat(encode, xs[2..]);
  }

  lemma ConcatOne<T>(encode: T -> seq<Byte>, xs: seq<T>)
    requires |xs| == 1
    ensures Concat(encode, xs) == encode(xs[0])
  {
    assert xs[1..] == [];
    assert Concat(encode, xs[1..]) == [];
    assert encode(xs[0]) + [] == encode(xs[0]);
  }

  lemma SampleHead()
    ensures InstructionHead(SAMPLE_INSTRUCTION) == [2, 1, 6, 4, 1, 10, 0, 0, 0]
  {
    hide LittleEndian;
    Little(2, 1, 0, 0);
    Little(6, 0, 0, 0);
    Little(4, 0, 0, 0);
    Little(1, 0, 0, 0);
    Little(10, 0, 0, 0);
  }

  const SAMPLE_BODY: seq<Byte> :=
    [0, 3, 0, 0, 0]
    + ([1, 0xFE, 0xFF, 0xFF, 0xFF, 0xFF, 0xFF, 0xFF, 0xFF]
    + ([2, 1, 0, 0, 0, 0, 0, 0xF0, 0x3F]
    + ([3, 1, 0, 0, 0, 0x67]
    + [3, 1, 0, 0, 0, 0x68])))

  lemma SampleBody()
    ensures Concat(OperandBytes, SAMPLE_OPERANDS) == SAMPLE_BODY
  {
    hide OperandBytes, Concat;
    SampleOperands();
    ConcatFive(OperandBytes, SAMPLE_OPERANDS);
  }

  // Opcode, both types, whether there is a destination and which, the operands with their kinds.
  lemma SampleInstruction()
    ensures InstructionBytes(SAMPLE_INSTRUCTION) == [2, 1, 6, 4, 1, 10, 0, 0, 0] + ([5] + SAMPLE_BODY)
  {
    hide LittleEndian, Concat, InstructionHead, SAMPLE_BODY;
    Little(5, 0, 0, 0);
    SampleBody();
    SampleHead();
    assert |SAMPLE_OPERANDS| == 5;
  }

  // Name, module, whether it is exported, the parameter types, the return type, and the blocks with their labels.
  lemma SampleFunction()
    ensures FunctionBytes(SAMPLE_FUNCTION) ==
      [1, 0, 0, 0, 0x66, 1, 0, 0, 0, 0x6D, 1, 2, 6, 7, 12, 1, 0, 0, 0, 1, 0, 0, 0, 0x65, 1, 0, 0, 0]
      + InstructionBytes(SAMPLE_INSTRUCTION)
  {
    hide LittleEndian, InstructionBytes, Concat, StringBytes;
    var b := SAMPLE_FUNCTION.blocks[0];
    ShortName('f', 0x66);
    ShortName('m', 0x6D);
    ShortName('e', 0x65);
    Little(1, 0, 0, 0);
    Little(2, 0, 0, 0);
    Little(12, 0, 0, 0);
    SampleParams();
    ConcatOne(InstructionBytes, b.instructions);
    ConcatOne(BlockBytes, SAMPLE_FUNCTION.blocks);
    assert BlockBytes(b) == [1, 0, 0, 0, 0x65] + ([1, 0, 0, 0] + InstructionBytes(SAMPLE_INSTRUCTION));
    assert FunctionHead(SAMPLE_FUNCTION) == [1, 0, 0, 0, 0x66, 1, 0, 0, 0, 0x6D, 1];
    hide FunctionHead, BlockBytes;
    assert FunctionTail(SAMPLE_FUNCTION) == [12] + ([1, 0, 0, 0] + BlockBytes(b));
    hide FunctionTail;
  }

  lemma SampleParams()
    ensures Concat(ParamBytes, SAMPLE_FUNCTION.params) == [6, 7]
  {
    var ps := SAMPLE_FUNCTION.params;
    Little(6, 0, 0, 0);
    Little(7, 0, 0, 0);
    hide LittleEndian;
    ConcatOne(ParamBytes, ps[1..]);
  }

  // The file: magic, sentinel, version, the number of functions, the functions, the entry.
  lemma SampleFile()
    ensures UoBytes(SAMPLE) ==
      [0x55, 0x41, 0x53, 0x4D, 0x21, 0x30, 0xFF, 0xFF, 0xFF, 0xFF, 1, 0, 0, 0, 1, 0, 0, 0]
      + FunctionBytes(SAMPLE_FUNCTION) + [5, 0, 0, 0]
  {
    hide LittleEndian, FunctionBytes, Concat;
    Little(0xFF, 0xFF, 0xFF, 0xFF);
    Little(1, 0, 0, 0);
    Little(5, 0, 0, 0);
    ConcatOne(FunctionBytes, SAMPLE.functions);
  }

  // ---------------------------------------------------------------- files that are refused

  predicate StartsLike(bytes: seq<Byte>, s: string) { |bytes| >= |s| && forall i :: 0 <= i < |s| ==> bytes[i] == s[i] as int }

  lemma Magics(bytes: seq<Byte>)
    ensures |bytes| >= 6 ==> (bytes[..6] == MAGIC <==> StartsLike(bytes, "UASM!0"))
    ensures |bytes| >= 6 ==> (bytes[..6] == LIB_MAGIC <==> StartsLike(bytes, "UASM!1"))
  {
    var s, t := "UASM!0", "UASM!1";
    assert forall i :: 0 <= i < 6 ==> MAGIC[i] == s[i] as int && LIB_MAGIC[i] == t[i] as int;
    if |bytes| >= 6 {
      assert forall i :: 0 <= i < 6 ==> bytes[..6][i] == bytes[i];
      if StartsLike(bytes, s) { assert forall i :: 0 <= i < 6 ==> bytes[..6][i] == MAGIC[i]; }
      if StartsLike(bytes, t) { assert forall i :: 0 <= i < 6 ==> bytes[..6][i] == LIB_MAGIC[i]; }
    }
  }

  // The number that four bytes hold.
  function Word(b: seq<Byte>): int
    requires |b| == 4
  {
    var b0: int, b1: int, b2: int, b3: int := b[0], b[1], b[2], b[3];
    b0 + 0x100 * b1 + 0x1_0000 * b2 + 0x100_0000 * b3
  }

  lemma WordIs(b: seq<Byte>)
    requires |b| == 4
    ensures FromLittleEndian(b) == Word(b)
    ensures Word(b) == 0xFFFF_FFFF <==> b == [0xFF, 0xFF, 0xFF, 0xFF]
  {
    FirstAndMore(b);
    FirstAndMore(b[1..]);
    FirstAndMore(b[2..]);
    FirstAndMore(b[3..]);
    hide FromLittleEndian;
    assert b[1..][1..] == b[2..] && b[2..][1..] == b[3..] && b[3..][1..] == [];
    assert b == [b[0], b[1], b[2], b[3]];
  }

  lemma FirstAndMore(b: seq<Byte>)
    requires b != []
    ensures FromLittleEndian(b) == b[0] + 0x100 * FromLittleEndian(b[1..]) && FromLittleEndian([]) == 0
  {
  }

  predicate HasVersion(bytes: seq<Byte>) {
    StartsLike(bytes, "UASM!0") && |bytes| >= 14 && bytes[6..10] == [0xFF, 0xFF, 0xFF, 0xFF]
  }

  // How a file begins decides how it is read.
  lemma HeaderExactly(bytes: seq<Byte>)
    ensures HeaderOf(bytes) ==
      if StartsLike(bytes, "UASM!1") then Err(LibraryMagic)
      else if !StartsLike(bytes, "UASM!0") then Err(BadMagic)
      else if !HasVersion(bytes) then Ok((6, 0))
      else if Word(bytes[10..14]) > 1 then Err(NewerVersion(Word(bytes[10..14])))
      else Ok((14, Word(bytes[10..14])))
  {
    Magics(bytes);
    NotBoth(bytes);
    if |bytes| >= 14 {
      WordIs(bytes[6..10]);
      WordIs(bytes[10..14]);
    }
    hide StartsLike, FromLittleEndian, Word;
  }

  lemma NotBoth(bytes: seq<Byte>)
    ensures !(StartsLike(bytes, "UASM!0") && StartsLike(bytes, "UASM!1"))
    ensures StartsLike(bytes, "UASM!0") || StartsLike(bytes, "UASM!1") ==> |bytes| >= 6
  {
    var s, t := "UASM!0", "UASM!1";
    assert s[5] != t[5];
  }

  // An operand is refused exactly for a kind above 3 or for want of bytes.
  lemma OperandErrors(d: seq<Byte>, pos: nat)
    ensures OperandAt(d, pos) == Err(CorruptOperandKind) <==> pos < |d| && d[pos] > 3
    ensures OperandAt(d, pos) == Err(UnexpectedEnd) <==> pos >= |d| || pos + OperandSize(d, pos) > |d|
    ensures OperandAt(d, pos).Ok? ==> OperandAt(d, pos).value.1 == pos + OperandSize(d, pos)
  {
    if pos + 5 <= |d| { WordIs(d[pos + 1..pos + 5]); }
    hide FromLittleEndian;
  }

  // The bytes of the operand at pos: its kind and payload, a string with the length in front.
  function OperandSize(d: seq<Byte>, pos: nat): int {
    if pos >= |d| || d[pos] > 3 then 0
    else if d[pos] == 0 then 5
    else if d[pos] == 1 || d[pos] == 2 then 9
    else if pos + 5 > |d| then 5
    else 5 + Word(d[pos + 1..pos + 5])
  }

  // ---------------------------------------------------------------- flags

  // Any byte but zero is a set flag: the destination flag of an instruction, behind its opcode and types, ...
  lemma DestFlag(d: seq<Byte>, pos: nat, version: nat)
    requires InstructionAt(d, pos, version).Ok?
    ensures var at := pos + if version >= 1 then 4 else 2;
      at < |d| && (InstructionAt(d, pos, version).value.0.hasDest <==> d[at] != 0)
  {
    OpcodeEnds(d, pos, version);
    hide OpcodeAt, U32At, ListAt, OperandReader;
  }

  lemma OpcodeEnds(d: seq<Byte>, pos: nat, version: nat)
    requires OpcodeAt(d, pos, version).Ok?
    ensures OpcodeAt(d, pos, version).value.1 == pos + if version >= 1 then 4 else 2
  {
    hide FromLittleEndian;
  }

  // ... and the export flag of a function, behind its name and its module.
  lemma ExportFlag(d: seq<Byte>, pos: nat)
    requires HeadAt(d, pos).Ok?
    ensures var (head, end) := HeadAt(d, pos).value;
      0 < end <= |d| && (head.2 <==> d[end - 1] != 0)
  {
    hide FromLittleEndian, Chars;
  }
}
