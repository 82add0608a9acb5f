// Exactly what the UTF-8 instructions accept, reject and compute, in terms of the byte ranges of section 3 of
// RFC 3629.

module Utf8Exact {
  import opened Ast
  import opened Bits
  import opened Utf8

  // How many bytes a character with this lead byte has; 0 for a byte that leads none.
  function LeadLength(c: Byte): nat {
    if c < 0x80 then 1
    else if 0xC0 <= c < 0xE0 then 2
    else if 0xE0 <= c < 0xF0 then 3
    else if 0xF0 <= c < 0xF8 then 4
    else 0
  }

  predicate Continues(c: Byte) { 0x80 <= c < 0xC0 }

  lemma ByteKinds(c: Byte)
    ensures Extra(c) == if LeadLength(c) == 0 then None else Some(LeadLength(c) - 1)
    ensures IsContinuation(c) <==> Continues(c)
    ensures LeadLength(c) > 0 ==>
      LeadBits(c) == if LeadLength(c) == 1 then c else if LeadLength(c) == 2 then Above(c, 0xC0)
                     else if LeadLength(c) == 3 then Above(c, 0xE0) else Above(c, 0xF0)
  {
    LeadIs(c);
    hide Extra, LeadBits, IsContinuation;
  }

  // ---------------------------------------------------------------- validity

  // A character of n bytes stands at p: its lead byte and n - 1 continuation bytes.
  predicate IsPiece(m: seq<Byte>, p: nat, n: nat) {
    && n > 0 && p + n <= |m| && LeadLength(m[p]) == n
    && forall j :: p < j < p + n ==> Continues(m[j])
  }

  // Characters of these lengths stand one after the other from p on.
  predicate Pieces(m: seq<Byte>, p: nat, lengths: seq<nat>)
    decreases |lengths|
  {
    lengths == [] || (IsPiece(m, p, lengths[0]) && Pieces(m, p + lengths[0], lengths[1..]))
  }

  function Total(lengths: seq<nat>): nat { if lengths == [] then 0 else lengths[0] + Total(lengths[1..]) }

  ghost predicate IsText(m: seq<Byte>, p: nat, len: nat) {
    exists lengths :: Pieces(m, p, lengths) && Total(lengths) == len
  }

  lemma TailsContinue(m: seq<Byte>, p: nat, n: nat)
    requires p + n <= |m|
    ensures Tails(m, p, n) <==> forall j :: p < j < p + n ==> Continues(m[j])
  {
    hide IsContinuation, Continues;
    forall j | p < j < p + n ensures IsContinuation(m[j]) <==> Continues(m[j]) { ByteKinds(m[j]); }
  }

  lemma PieceIs(m: seq<Byte>, p: nat, extra: nat)
    requires p + extra < |m| && Extra(m[p]) == Some(extra)
    ensures IsPiece(m, p, extra + 1) <==> Tails(m, p, extra + 1)
  {
    hide Extra, Continues, Tails;
    ByteKinds(m[p]);
    TailsContinue(m, p, extra + 1);
  }

  lemma {:induction false} ValidHasPieces(m: seq<Byte>, p: nat, i: nat, len: nat) returns (lengths: seq<nat>)
    requires p + len <= |m| && i <= len && ValidFrom(m, p, i, len)
    ensures Pieces(m, p + i, lengths) && Total(lengths) == len - i
    decreases len - i
  {
    hide Extra, Tails, IsPiece;
    if i == len {
      lengths := [];
    } else {
      var extra := Extra(m[p + i]).value;
      PieceIs(m, p + i, extra);
      var rest := ValidHasPieces(m, p, i + extra + 1, len);
      lengths := [extra + 1] + rest;
    }
  }

  lemma {:induction false} PiecesAreValid(m: seq<Byte>, p: nat, i: nat, len: nat, lengths: seq<nat>)
    requires p + len <= |m| && i <= len && Pieces(m, p + i, lengths) && Total(lengths) == len - i
    ensures ValidFrom(m, p, i, len)
    decreases |lengths|
  {
    hide Extra, Tails, Continues;
    if lengths != [] {
      var n := lengths[0];
      ByteKinds(m[p + i]);
      PieceIs(m, p + i, n - 1);
      PiecesAreValid(m, p, i + n, len, lengths[1..]);
    }
  }

  // The validity instruction accepts exactly the bytes that split into characters.
  lemma ValidExactly(m: seq<Byte>, p: nat, len: nat)
    requires p + len <= |m|
    ensures ValidFrom(m, p, 0, len) <==> IsText(m, p, len)
  {
    hide ValidFrom, Pieces, Total;
    if ValidFrom(m, p, 0, len) {
      var lengths := ValidHasPieces(m, p, 0, len);
      assert Pieces(m, p, lengths) && Total(lengths) == len;
    }
    if IsText(m, p, len) {
      var lengths :| Pieces(m, p, lengths) && Total(lengths) == len;
      PiecesAreValid(m, p, 0, len, lengths);
    }
  }

  // So a byte that leads nothing, a character cut off by the end and a missing continuation byte are rejected.
  lemma BadFirstIsRejected(m: seq<Byte>, p: nat, len: nat)
    requires p + len <= |m| && len > 0
    ensures LeadLength(m[p]) == 0 || LeadLength(m[p]) > len || (exists j :: p < j < p + LeadLength(m[p]) && j < |m| && !Continues(m[j])) ==>
      !ValidFrom(m, p, 0, len)
  {
    hide ValidFrom;
    ValidExactly(m, p, len);
    if lengths :| Pieces(m, p, lengths) && Total(lengths) == len {
      assert lengths != [] && IsPiece(m, p, lengths[0]);
    }
  }

  // ---------------------------------------------------------------- decoding

  function Above(c: int, base: int): int { c - base }

  // The code point of the character of n bytes at p.
  function Scalar(m: seq<Byte>, p: nat, n: nat): int
    requires IsPiece(m, p, n)
  {
    if n == 1 then m[p]
    else if n == 2 then Above(m[p], 0xC0) * 0x40 + Above(m[p + 1], 0x80)
    else if n == 3 then Above(m[p], 0xE0) * 0x1000 + Above(m[p + 1], 0x80) * 0x40 + Above(m[p + 2], 0x80)
    else
      Above(m[p], 0xF0) * 0x4_0000 + Above(m[p + 1], 0x80) * 0x1000 + Above(m[p + 2], 0x80) * 0x40 + Above(m[p + 3], 0x80)
  }

  lemma ContinuesIs(c: Byte)
    ensures Continues(c) <==> c / 0x40 == 2
    ensures Continues(c) ==> c % 0x40 == Above(c, 0x80)
  {
  }

  // Six more bits.
  function Joined(m: seq<Byte>, at: nat, cp: int): int
    requires at < |m|
  {
    0x40 * cp + Above(m[at], 0x80)
  }

  lemma OneMore(m: seq<Byte>, at: nat, n: nat, cp: nat)
    requires at + n <= |m| && n > 0
    ensures Continue(m, at, n, cp) ==
      if Continues(m[at]) then Continue(m, at + 1, n - 1, 0x40 * cp + Above(m[at], 0x80)) else Err(InvalidContinuation)
  {
    hide Continue, Continues;
    ContinueStep(m, at, n, cp);
    ContinuesIs(m[at]);
  }

  lemma ContinueExactly(m: seq<Byte>, p: nat, n: nat, cp: nat)
    requires 1 <= n <= 4 && p + n <= |m|
    ensures (exists j :: p < j < p + n && !Continues(m[j])) ==> Continue(m, p + 1, n - 1, cp) == Err(InvalidContinuation)
    ensures (forall j :: p < j < p + n ==> Continues(m[j])) ==>
      Continue(m, p + 1, n - 1, cp) == Ok(if n == 1 then cp else if n == 2 then Joined(m, p + 1, cp)
        else if n == 3 then Joined(m, p + 2, Joined(m, p + 1, cp)) else Joined(m, p + 3, Joined(m, p + 2, Joined(m, p + 1, cp))))
  {
    hide Continue, Continues;
    ContinueDone(m, p + n);
    var c1: nat := cp;
    if n > 1 {
      OneMore(m, p + 1, n - 1, c1);
      if Continues(m[p + 1]) {
        InRange(m[p + 1]);
        var c2: nat := 0x40 * c1 + Above(m[p + 1], 0x80);
        if n > 2 {
          OneMore(m, p + 2, n - 2, c2);
          if Continues(m[p + 2]) {
            InRange(m[p + 2]);
            var c3: nat := 0x40 * c2 + Above(m[p + 2], 0x80);
            if n > 3 {
              OneMore(m, p + 3, n - 3, c3);
              if Continues(m[p + 3]) { InRange(m[p + 3]); }
            }
          }
        }
      }
    }
  }

  lemma InRange(c: Byte)
    requires Continues(c)
    ensures 0x80 <= c < 0xC0
  {
  }

  // Decoding succeeds exactly where a character stands, with its code point, and each error has its cause.
  lemma DecodeExactly(m: seq<Byte>, p: nat)
    ensures p >= |m| ==> DecodeAt(m, p) == Err(OutOfBounds)
    ensures p < |m| && LeadLength(m[p]) == 0 ==> DecodeAt(m, p) == Err(InvalidLead)
    ensures p < |m| && LeadLength(m[p]) > 0 ==>
      var n := LeadLength(m[p]);
      && (p + n > |m| ==> DecodeAt(m, p) == Err(OutOfBounds))
      && (IsPiece(m, p, n) ==> Scalar(m, p, n) >= 0 && DecodeAt(m, p) == Ok(Scalar(m, p, n)))
      && (p + n <= |m| && !IsPiece(m, p, n) ==> DecodeAt(m, p) == Err(InvalidContinuation))
  {
    if p < |m| {
      ByteKinds(m[p]);
      var n := LeadLength(m[p]);
      hide Extra, LeadBits, Continue;
      if n > 0 && p + n <= |m| { ContinueExactly(m, p, n, LeadBits(m[p])); }
    }
  }

  // ---------------------------------------------------------------- length

  function LeadSet(m: seq<Byte>, p: nat, len: nat): set<int>
    requires p + len <= |m|
  {
    set i | p <= i < p + len && !Continues(m[i])
  }

  lemma {:induction false} LeadsAreCounted(m: seq<Byte>, p: nat, len: nat)
    requires p + len <= |m|
    ensures Leads(m, p, len) == |LeadSet(m, p, len)|
    decreases len
  {
    hide Continues, IsContinuation;
    if len == 0 {
      assert LeadSet(m, p, 0) == {};
    } else {
      LeadsAreCounted(m, p, len - 1);
      ByteKinds(m[p + (len - 1)]);
      var before := LeadSet(m, p, len - 1);
      assert LeadSet(m, p, len) == if Continues(m[p + (len - 1)]) then before else before + {p + (len - 1)};
    }
  }

  lemma {:induction false} FirstZeroExactly(m: seq<Byte>, p: nat, i: nat)
    ensures match FirstZero(m, p, i)
            case None => forall j :: p + i <= j < |m| ==> m[j] != 0
            case Some(n) => n >= i && p + n < |m| && m[p + n] == 0 && forall j :: p + i <= j < p + n ==> m[j] != 0
    decreases |m| - (p + i)
  {
    if p + i < |m| && m[p + i] != 0 { FirstZeroExactly(m, p, i + 1); }
  }

  // The length instruction counts the bytes before the first zero that are no continuation bytes, and fails
  // exactly when there is no zero.
  lemma LenExactly(m: seq<Byte>, p: nat)
    ensures (forall j :: p <= j < |m| ==> m[j] != 0) <==> LenSpec(m, p) == Err(Unterminated)
    ensures forall n: nat :: p + n < |m| && m[p + n] == 0 && (forall j :: p <= j < p + n ==> m[j] != 0) ==>
      LenSpec(m, p) == Ok(|LeadSet(m, p, n)|)
  {
    FirstZeroExactly(m, p, 0);
    hide FirstZero, Leads, LeadSet;
    forall n: nat | p + n < |m| && m[p + n] == 0 && (forall j :: p <= j < p + n ==> m[j] != 0)
      ensures LenSpec(m, p) == Ok(|LeadSet(m, p, n)|)
    {
      LeadsAreCounted(m, p, n);
    }
  }

  // ---------------------------------------------------------------- encoding beyond 21 bits

  lemma LowNibble(x: nat)
    requires x < 16
    ensures Or(15, x) == 15
  {
    hide Or;
    var a, b, c := x / 2, x / 2 / 2, x / 2 / 2 / 2;
    OpStep(15, x);
    OpStep(7, a);
    OpStep(3, b);
    OpStep(1, c);
    OpZero(0);
    assert c < 2;
  }

  lemma {:induction false} OrNibble(x: nat)
    ensures Or(15, x) % 16 == 15
  {
    hide Or, Shl, Shr, Low;
    Pow2Four();
    OrSplit(15, x, 4);
    ShrLowAreDivMod(15, 4);
    ShrLowAreDivMod(x, 4);
    LowNibble(x % 16);
    ShlIsMul(Or(0, x / 16), 4);
  }

  lemma Pow2Four()
    ensures Pow2(4) == 16
  {
  }

  // Whatever the size of the code point, four bytes keep its low 22 bits, the uppermost in the lead byte.
  lemma EncodedBeyond(cp: nat)
    requires cp >= 0x1_0000
    ensures Encoded(cp) == [0xF0 + cp / 0x4_0000 % 16, 0x80 + cp / 0x1000 % 0x40, 0x80 + cp / 0x40 % 0x40, 0x80 + cp % 0x40]
  {
    hide Or, And, Shr, Shl, Low, ToByte;
    Shifts(cp);
    Tail(cp);
    Tail(cp / 0x40);
    Tail(cp / 0x40 / 0x40);
    LeadNibble(cp / 0x40 / 0x40 / 0x40);
    Quotients(cp);
  }

  lemma Quotients(cp: nat)
    ensures cp / 0x40 / 0x40 == cp / 0x1000 && cp / 0x40 / 0x40 / 0x40 == cp / 0x4_0000
  {
  }

  lemma LeadNibble(d: nat)
    ensures ToByte(Or(0xF0, d)) == 0xF0 + d % 16
  {
    hide Or, And, Shr, Shl, Low, Pow2;
    Pow2Four();
    OrSplit(0xF0, d, 4);
    ShrLowAreDivMod(0xF0, 4);
    ShrLowAreDivMod(d, 4);
    OpZero(d % 16);
    ShlIsMul(Or(15, d / 16), 4);
    OrNibble(d / 16);
    NibbleByte(Or(15, d / 16), d % 16);
  }

  lemma NibbleByte(x: nat, y: nat)
    requires x % 16 == 15 && y < 16
    ensures (x * 16 + y) % 0x100 == 0xF0 + y
  {
  }
}
