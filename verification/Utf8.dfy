// The UTF-8 instructions (src/vm/interpreter.cpp): encode, decode, length and validity over the flat byte
// memory. The bit layout is that of section 3 of RFC 3629; its range limits are not enforced.

module Utf8 {
  import opened Ast
  import opened Bits

  datatype Utf8Error = OutOfBounds | InvalidLead | InvalidContinuation | Unterminated

  const CODE_LIMIT: nat := 0x20_0000

  // ---------------------------------------------------------------- one code point

  function ToByte(v: nat): Byte { v % 0x100 }

  // The bytes the encoder writes; above 21 bits the lead byte loses the upper ones.
  function Encoded(cp: nat): (b: seq<Byte>)
    ensures 1 <= |b| <= 4
  {
    if cp < 0x80 then [ToByte(cp)]
    else if cp < 0x800 then [ToByte(Or(0xC0, Shr(cp, 6))), ToByte(Or(0x80, And(cp, 0x3F)))]
    else if cp < 0x1_0000 then
      [ToByte(Or(0xE0, Shr(cp, 12))), ToByte(Or(0x80, And(Shr(cp, 6), 0x3F))), ToByte(Or(0x80, And(cp, 0x3F)))]
    else
      [ToByte(Or(0xF0, Shr(cp, 18))), ToByte(Or(0x80, And(Shr(cp, 12), 0x3F))),
       ToByte(Or(0x80, And(Shr(cp, 6), 0x3F))), ToByte(Or(0x80, And(cp, 0x3F)))]
  }

  // How many continuation bytes the lead byte announces.
  function Extra(c: Byte): Option<nat> {
    if c < 0x80 then Some(0)
    else if And(c, 0xE0) == 0xC0 then Some(1)
    else if And(c, 0xF0) == 0xE0 then Some(2)
    else if And(c, 0xF8) == 0xF0 then Some(3)
    else None
  }

  function LeadBits(c: Byte): nat {
    if c < 0x80 then c
    else if And(c, 0xE0) == 0xC0 then And(c, 0x1F)
    else if And(c, 0xF0) == 0xE0 then And(c, 0x0F)
    else And(c, 0x07)
  }

  predicate IsContinuation(c: Byte) { And(c, 0xC0) == 0x80 }

  // The code point once `n` more continuation bytes are taken in.
  function Continue(m: seq<Byte>, at: nat, n: nat, cp: nat): Result<nat, Utf8Error>
    requires at + n <= |m|
    decreases n
  {
    if n == 0 then Ok(cp)
    else if !IsContinuation(m[at]) then Err(InvalidContinuation)
    else Continue(m, at + 1, n - 1, Or(Shl(cp, 6), And(m[at], 0x3F)))
  }

  function DecodeAt(m: seq<Byte>, p: nat): Result<nat, Utf8Error> {
    if p + 1 > |m| then Err(OutOfBounds)
    else
      match Extra(m[p])
      case None => Err(InvalidLead)
      case Some(extra) =>
        if p + extra + 1 > |m| then Err(OutOfBounds) else Continue(m, p + 1, extra, LeadBits(m[p]))
  }

  // ---------------------------------------------------------------- the bit operations as arithmetic

  // A mask of the upper bits of a byte, from bit k up.
  lemma HighMask(c: Byte, k: nat, mask: nat, ones: nat)
    requires k <= 8 && ones == Pow2(8 - k) - 1 && Shr(mask, k) == ones && Low(mask, k) == 0
    ensures And(c, mask) == c / Pow2(k) * Pow2(k)
  {
    hide And, Shr, Shl, Low, Pow2;
    var d := c / Pow2(k);
    ShrLowAreDivMod(c, k);
    AndSplit(c, mask, k);
    AndLowMask(d, 8 - k);
    ShrLowAreDivMod(d, 8 - k);
    OpZero(Low(c, k));
    ShlIsMul(d, k);
    SmallPowers();
    Pow2Add(8 - k, k);
    hide *;
    TopDigit(c, Pow2(k), Pow2(8 - k));
  }

  lemma ProductGrows(a: nat, b: nat, p: nat)
    requires a <= b
    ensures a * p <= b * p
  {
  }

  lemma TopDigit(c: nat, p: nat, q: nat)
    requires p > 0 && q > 0 && c < q * p
    ensures (c / p) % q == c / p
  {
    var d := c / p;
    assert c == d * p + c % p;
    if d >= q { ProductGrows(q, d, p); }
    DivModUnique(d, q, 0, d);
  }

  lemma HighMasks(c: Byte)
    ensures And(c, 0xC0) == c / 0x40 * 0x40 && And(c, 0xE0) == c / 0x20 * 0x20
    ensures And(c, 0xF0) == c / 0x10 * 0x10 && And(c, 0xF8) == c / 8 * 8
  {
    SmallPowers();
    MaskParts();
    hide *;
    HighMask(c, 6, 0xC0, 3);
    HighMask(c, 5, 0xE0, 7);
    HighMask(c, 4, 0xF0, 15);
    HighMask(c, 3, 0xF8, 31);
  }

  lemma MaskParts()
    ensures Shr(0xC0, 6) == 3 && Low(0xC0, 6) == 0 && Shr(0xE0, 5) == 7 && Low(0xE0, 5) == 0
    ensures Shr(0xF0, 4) == 15 && Low(0xF0, 4) == 0 && Shr(0xF8, 3) == 31 && Low(0xF8, 3) == 0
  {
  }

  lemma SmallPowers()
    ensures Pow2(2) == 4 && Pow2(3) == 8 && Pow2(4) == 0x10 && Pow2(5) == 0x20 && Pow2(6) == 0x40 && Pow2(8) == 0x100
  {
  }

  lemma LowMasks(v: nat)
    ensures And(v, 0x3F) == v % 0x40 && And(v, 0x1F) == v % 0x20 && And(v, 0x0F) == v % 0x10 && And(v, 0x07) == v % 8
  {
    SmallPowers();
    hide *;
    AndLowMask(v, 6);
    AndLowMask(v, 5);
    AndLowMask(v, 4);
    AndLowMask(v, 3);
    ShrLowAreDivMod(v, 6);
    ShrLowAreDivMod(v, 5);
    ShrLowAreDivMod(v, 4);
    ShrLowAreDivMod(v, 3);
  }

  lemma Shifts(v: nat)
    ensures Shr(v, 6) == v / 0x40 && Shr(v, 12) == v / 0x40 / 0x40 && Shr(v, 18) == v / 0x40 / 0x40 / 0x40
  {
    SmallPowers();
    hide *;
    ShrShr(v, 6, 6);
    ShrShr(v, 12, 6);
    ShrLowAreDivMod(v, 6);
    ShrLowAreDivMod(v / 0x40, 6);
    ShrLowAreDivMod(v / 0x40 / 0x40, 6);
  }

  lemma LeadMarks(x: nat)
    ensures x < 0x20 ==> Or(0xC0, x) == 0xC0 + x
    ensures x < 0x10 ==> Or(0xE0, x) == 0xE0 + x
    ensures x < 8 ==> Or(0xF0, x) == 0xF0 + x
    ensures x < 0x40 ==> Or(0x80, x) == 0x80 + x
  {
    SmallPowers();
    assert Shl(6, 5) == 0xC0 && Shl(14, 4) == 0xE0 && Shl(30, 3) == 0xF0 && Shl(2, 6) == 0x80;
    hide *;
    if x < 0x20 { OrDisjoint(6, 5, x); }
    if x < 0x10 { OrDisjoint(14, 4, x); }
    if x < 8 { OrDisjoint(30, 3, x); }
    if x < 0x40 { OrDisjoint(2, 6, x); }
  }

  // The layout of RFC 3629.
  function Layout(cp: nat): seq<nat> {
    var b := cp / 0x40;
    var c := b / 0x40;
    var d := c / 0x40;
    if cp < 0x80 then [cp]
    else if cp < 0x800 then [0xC0 + b, 0x80 + cp % 0x40]
    else if cp < 0x1_0000 then [0xE0 + c, 0x80 + b % 0x40, 0x80 + cp % 0x40]
    else [0xF0 + d, 0x80 + c % 0x40, 0x80 + b % 0x40, 0x80 + cp % 0x40]
  }

  lemma Tail(v: nat)
    ensures ToByte(Or(0x80, And(v, 0x3F))) == 0x80 + v % 0x40
  {
    hide Or, And;
    LowMasks(v);
    LeadMarks(v % 0x40);
  }

  lemma Lead(v: nat)
    ensures v < 0x80 ==> ToByte(v) == v
    ensures v < 0x20 ==> ToByte(Or(0xC0, v)) == 0xC0 + v
    ensures v < 0x10 ==> ToByte(Or(0xE0, v)) == 0xE0 + v
    ensures v < 8 ==> ToByte(Or(0xF0, v)) == 0xF0 + v
  {
    hide Or;
    LeadMarks(v);
  }

  lemma EncodedIsLayout(cp: nat)
    requires cp < CODE_LIMIT
    ensures Encoded(cp) == Layout(cp)
  {
    hide Or, And, Shr, ToByte;
    var b, c, d := cp / 0x40, cp / 0x40 / 0x40, cp / 0x40 / 0x40 / 0x40;
    Digits(cp, b, c, d);
    Shifts(cp);
    Tail(cp);
    Tail(b);
    Tail(c);
    Lead(cp);
    Lead(b);
    Lead(c);
    Lead(d);
  }

  lemma LeadIs(c: Byte)
    ensures Extra(c) == if c < 0x80 then Some(0) else if c / 0x20 == 6 then Some(1)
                        else if c / 0x10 == 14 then Some(2) else if c / 8 == 30 then Some(3) else None
    ensures LeadBits(c) == if c < 0x80 then c else if c / 0x20 == 6 then c % 0x20 else if c / 0x10 == 14 then c % 0x10 else c % 8
    ensures IsContinuation(c) <==> c / 0x40 == 2
  {
    hide And;
    HighMasks(c);
    LowMasks(c);
  }

  lemma ShiftIn(cp: nat, c: Byte)
    ensures Or(Shl(cp, 6), And(c, 0x3F)) == 0x40 * cp + c % 0x40
  {
    SmallPowers();
    hide Or, And, Shl, Pow2;
    LowMasks(c);
    OrDisjoint(cp, 6, c % 0x40);
    ShlIsMul(cp, 6);
  }

  // One continuation byte.
  lemma ContinueStep(m: seq<Byte>, at: nat, n: nat, cp: nat)
    requires at + n <= |m| && n > 0
    ensures Continue(m, at, n, cp) ==
      if m[at] / 0x40 == 2 then Continue(m, at + 1, n - 1, 0x40 * cp + m[at] % 0x40) else Err(InvalidContinuation)
  {
    hide Or, And, Shl;
    LeadIs(m[at]);
    ShiftIn(cp, m[at]);
  }

  predicate At(m: seq<Byte>, p: nat, b: seq<Byte>) {
    p + |b| <= |m| && m[p..p + |b|] == b
  }

  // One lead byte and its tail, for the lengths one to four.

  lemma Decode1(m: seq<Byte>, p: nat)
    requires p < |m| && m[p] < 0x80
    ensures DecodeAt(m, p) == Ok(m[p]) && Extra(m[p]) == Some(0) && !IsContinuation(m[p])
  {
    hide And;
    LeadIs(m[p]);
  }

  lemma Decode2(m: seq<Byte>, p: nat, x: nat, c: nat)
    requires p + 2 <= |m| && x < 0x20 && c < 0x40 && m[p] == 0xC0 + x && m[p + 1] == 0x80 + c
    ensures DecodeAt(m, p) == Ok(0x40 * x + c) && Extra(m[p]) == Some(1) && !IsContinuation(m[p])
    ensures IsContinuation(m[p + 1])
  {
    hide Continue, Extra, LeadBits, IsContinuation;
    LeadIs(m[p]);
    LeadIs(m[p + 1]);
    ContinueStep(m, p + 1, 1, x);
    ContinueDone(m, p + 2);
  }

  lemma Decode3(m: seq<Byte>, p: nat, x: nat, b: nat, c: nat)
    requires p + 3 <= |m| && x < 0x10 && b < 0x40 && c < 0x40
    requires m[p] == 0xE0 + x && m[p + 1] == 0x80 + b && m[p + 2] == 0x80 + c
    ensures DecodeAt(m, p) == Ok(0x40 * (0x40 * x + b) + c) && Extra(m[p]) == Some(2) && !IsContinuation(m[p])
    ensures IsContinuation(m[p + 1]) && IsContinuation(m[p + 2])
  {
    hide Continue, Extra, LeadBits, IsContinuation;
    LeadIs(m[p]);
    LeadIs(m[p + 1]);
    LeadIs(m[p + 2]);
    ContinueStep(m, p + 1, 2, x);
    ContinueStep(m, p + 2, 1, 0x40 * x + b);
    ContinueDone(m, p + 3);
  }

  lemma Decode4(m: seq<Byte>, p: nat, x: nat, a: nat, b: nat, c: nat)
    requires p + 4 <= |m| && x < 8 && a < 0x40 && b < 0x40 && c < 0x40
    requires m[p] == 0xF0 + x && m[p + 1] == 0x80 + a && m[p + 2] == 0x80 + b && m[p + 3] == 0x80 + c
    ensures DecodeAt(m, p) == Ok(0x40 * (0x40 * (0x40 * x + a) + b) + c) && Extra(m[p]) == Some(3) && !IsContinuation(m[p])
    ensures IsContinuation(m[p + 1]) && IsContinuation(m[p + 2]) && IsContinuation(m[p + 3])
  {
    hide Continue, Extra, LeadBits, IsContinuation;
    LeadIs(m[p]);
    LeadIs(m[p + 1]);
    LeadIs(m[p + 2]);
    LeadIs(m[p + 3]);
    ContinueStep(m, p + 1, 3, x);
    ContinueStep(m, p + 2, 2, 0x40 * x + a);
    ContinueStep(m, p + 3, 1, 0x40 * (0x40 * x + a) + b);
    ContinueDone(m, p + 4);
  }

  // Bytes p + 1 up to, but without, p + n are continuation bytes.
  predicate Tails(m: seq<Byte>, p: nat, n: nat)
    requires p + n <= |m|
  {
    forall j :: p < j < p + n ==> IsContinuation(m[j])
  }

  lemma Digits(cp: nat, b: nat, c: nat, d: nat)
    requires b == cp / 0x40 && c == b / 0x40 && d == c / 0x40
    ensures cp == 0x40 * b + cp % 0x40 && b == 0x40 * c + b % 0x40 && c == 0x40 * d + c % 0x40
    ensures (cp < 0x800 ==> b < 0x20) && (cp < 0x1_0000 ==> c < 0x10) && (cp < CODE_LIMIT ==> d < 8)
  {
  }

  lemma AtBytes(m: seq<Byte>, p: nat, b: seq<nat>)
    requires p + |b| <= |m| && m[p..p + |b|] == b
    ensures forall i :: 0 <= i < |b| ==> m[p + i] == b[i]
  {
    forall i | 0 <= i < |b| ensures m[p + i] == b[i] { assert m[p + i] == m[p..p + |b|][i]; }
  }

  lemma LayoutDecodes(m: seq<Byte>, p: nat, cp: nat)
    requires cp < CODE_LIMIT && p + |Layout(cp)| <= |m| && m[p..p + |Layout(cp)|] == Layout(cp)
    ensures |Layout(cp)| >= 1 && DecodeAt(m, p) == Ok(cp) && Extra(m[p]) == Some(|Layout(cp)| - 1)
    ensures !IsContinuation(m[p]) && Tails(m, p, |Layout(cp)|)
  {
    hide DecodeAt, Extra, IsContinuation;
    var w := Layout(cp);
    var b, c, d := cp / 0x40, cp / 0x40 / 0x40, cp / 0x40 / 0x40 / 0x40;
    AtBytes(m, p, w);
    Digits(cp, b, c, d);
    assert m[p] == w[0];
    if cp < 0x80 {
      Decode1(m, p);
    } else if cp < 0x800 {
      assert m[p + 1] == w[1];
      Decode2(m, p, b, cp % 0x40);
    } else if cp < 0x1_0000 {
      assert m[p + 1] == w[1] && m[p + 2] == w[2];
      Decode3(m, p, c, b % 0x40, cp % 0x40);
    } else {
      assert m[p + 1] == w[1] && m[p + 2] == w[2] && m[p + 3] == w[3];
      Decode4(m, p, d, c % 0x40, b % 0x40, cp % 0x40);
    }
  }

  // What is encoded decodes to itself, and starts with the right lead byte.
  lemma EncodedDecodes(m: seq<Byte>, p: nat, cp: nat)
    requires cp < CODE_LIMIT && At(m, p, Encoded(cp))
    ensures DecodeAt(m, p) == Ok(cp) && Extra(m[p]) == Some(|Encoded(cp)| - 1)
    ensures !IsContinuation(m[p]) && Tails(m, p, |Encoded(cp)|)
  {
    hide Encoded, DecodeAt, Extra, IsContinuation, Layout, Tails;
    EncodedIsLayout(cp);
    LayoutDecodes(m, p, cp);
  }

  lemma ContinueDone(m: seq<Byte>, at: nat)
    requires at <= |m|
    ensures forall cp: nat :: Continue(m, at, 0, cp) == Ok(cp)
  {
  }

  lemma {:induction false} ContinueBound(m: seq<Byte>, at: nat, n: nat, cp: nat, bound: nat)
    requires at + n <= |m| && n <= 3 && cp < bound
    ensures Continue(m, at, n, cp).Ok? ==>
      Continue(m, at, n, cp).value < bound * (if n == 0 then 1 else if n == 1 then 0x40 else if n == 2 then 0x1000 else 0x4_0000)
    decreases n
  {
    if n > 0 {
      ContinueStep(m, at, n, cp);
      hide Continue;
      if m[at] / 0x40 == 2 { ContinueBound(m, at + 1, n - 1, 0x40 * cp + m[at] % 0x40, 0x40 * bound); }
    }
  }

  // Exactly the code points of up to 21 bits survive encoding and decoding.
  lemma RoundTripExactly(m: seq<Byte>, p: nat, cp: nat)
    requires At(m, p, Encoded(cp))
    ensures DecodeAt(m, p) == Ok(cp) <==> cp < CODE_LIMIT
  {
    hide Encoded, Continue, Extra, LeadBits;
    if cp < CODE_LIMIT {
      EncodedDecodes(m, p, cp);
    } else if DecodeAt(m, p).Ok? {
      LeadIs(m[p]);
      var extra := Extra(m[p]).value;
      ContinueBound(m, p + 1, extra, LeadBits(m[p]), if extra == 0 then 0x80 else if extra == 1 then 0x20 else if extra == 2 then 0x10 else 8);
    }
  }

  // ---------------------------------------------------------------- strings

  function EncodedAll(cps: seq<nat>): seq<Byte> {
    if cps == [] then [] else Encoded(cps[0]) + EncodedAll(cps[1..])
  }

  predicate Encodable(cps: seq<nat>) { forall i :: 0 <= i < |cps| ==> 0 < cps[i] < CODE_LIMIT }

  lemma AtSplit(m: seq<Byte>, p: nat, a: seq<Byte>, b: seq<Byte>)
    requires At(m, p, a + b)
    ensures At(m, p, a) && At(m, p + |a|, b)
  {
    var w := m[p..p + |a + b|];
    assert m[p..p + |a|] == w[..|a|];
    assert m[p + |a|..p + |a| + |b|] == w[|a|..];
  }

  // Position k of the string decodes to its code point.
  lemma {:induction false} EachDecodes(m: seq<Byte>, p: nat, cps: seq<nat>, k: nat)
    requires Encodable(cps) && k < |cps| && At(m, p, EncodedAll(cps))
    ensures DecodeAt(m, p + |EncodedAll(cps[..k])|) == Ok(cps[k])
    decreases k
  {
    hide At, Encoded, DecodeAt;
    AtSplit(m, p, Encoded(cps[0]), EncodedAll(cps[1..]));
    if k == 0 {
      EncodedDecodes(m, p, cps[0]);
    } else {
      EachDecodes(m, p + |Encoded(cps[0])|, cps[1..], k - 1);
      assert cps[..k][1..] == cps[1..][..k - 1];
    }
  }

  // utf8valid from offset i of the string at p on.
  predicate ValidFrom(m: seq<Byte>, p: nat, i: nat, len: nat)
    requires p + len <= |m|
    decreases len - i
  {
    if i >= len then true
    else
      match Extra(m[p + i])
      case None => false
      case Some(extra) =>
        i + extra < len && Tails(m, p + i, extra + 1) && ValidFrom(m, p, i + extra + 1, len)
  }

  lemma ValidStep(m: seq<Byte>, p: nat, i: nat, len: nat, extra: nat)
    requires p + len <= |m| && i + extra < len && Extra(m[p + i]) == Some(extra) && Tails(m, p + i, extra + 1)
    ensures ValidFrom(m, p, i, len) == ValidFrom(m, p, i + extra + 1, len)
  {
    hide Extra, Tails;
  }

  lemma ValidEnd(m: seq<Byte>, p: nat, len: nat)
    requires p + len <= |m|
    ensures ValidFrom(m, p, len, len)
  {
  }

  lemma {:induction false} EncodedIsValid(m: seq<Byte>, p: nat, i: nat, cps: seq<nat>)
    requires Encodable(cps) && At(m, p + i, EncodedAll(cps))
    ensures p + i + |EncodedAll(cps)| <= |m| && ValidFrom(m, p, i, i + |EncodedAll(cps)|)
    decreases |cps|
  {
    hide Encoded, DecodeAt, Extra, Tails, ValidFrom;
    if cps == [] {
      ValidEnd(m, p, i);
    } else {
      var first := Encoded(cps[0]);
      AtSplit(m, p + i, first, EncodedAll(cps[1..]));
      EncodedDecodes(m, p + i, cps[0]);
      EncodedIsValid(m, p, i + |first|, cps[1..]);
      ValidStep(m, p, i, i + |EncodedAll(cps)|, |first| - 1);
    }
  }

  // Characters are counted by their lead bytes.
  function Leads(m: seq<Byte>, p: nat, len: nat): nat
    requires p + len <= |m|
    decreases len
  {
    if len == 0 then 0 else Leads(m, p, len - 1) + BoolBit(!IsContinuation(m[p + len - 1]))
  }

  lemma {:induction false} LeadsSplit(m: seq<Byte>, p: nat, a: nat, b: nat)
    requires p + a + b <= |m|
    ensures Leads(m, p, a + b) == Leads(m, p, a) + Leads(m, p + a, b)
    decreases b
  {
    if b > 0 { LeadsSplit(m, p, a, b - 1); }
  }

  // A character counts once.
  lemma {:induction false} OneLead(m: seq<Byte>, p: nat, n: nat)
    requires n >= 1 && p + n <= |m| && !IsContinuation(m[p]) && Tails(m, p, n)
    ensures Leads(m, p, n) == 1
    decreases n
  {
    hide IsContinuation;
    if n > 1 { OneLead(m, p, n - 1); } else { assert Leads(m, p, 0) == 0; }
  }

  lemma {:induction false} LeadsCount(m: seq<Byte>, p: nat, cps: seq<nat>)
    requires Encodable(cps) && At(m, p, EncodedAll(cps))
    ensures Leads(m, p, |EncodedAll(cps)|) == |cps|
    decreases |cps|
  {
    hide At, Encoded, DecodeAt, Extra, Tails, IsContinuation;
    if cps != [] {
      var n := |Encoded(cps[0])|;
      AtSplit(m, p, Encoded(cps[0]), EncodedAll(cps[1..]));
      EncodedDecodes(m, p, cps[0]);
      OneLead(m, p, n);
      LeadsCount(m, p + n, cps[1..]);
      LeadsSplit(m, p, n, |EncodedAll(cps[1..])|);
    }
  }

  // stringLength: the distance to the first zero byte.
  function FirstZero(m: seq<Byte>, p: nat, i: nat): Option<nat>
    decreases |m| - (p + i)
  {
    if p + i >= |m| then None else if m[p + i] == 0 then Some(i) else FirstZero(m, p, i + 1)
  }

  lemma {:induction false} FirstZeroIs(m: seq<Byte>, p: nat, i: nat, n: nat)
    requires i <= n && p + n < |m| && m[p + n] == 0 && 0 !in m[p + i..p + n]
    ensures FirstZero(m, p, i) == Some(n)
    decreases n - i
  {
    if i < n {
      assert m[p + i] == m[p + i..p + n][0];
      assert m[p + i + 1..p + n] == m[p + i..p + n][1..];
      FirstZeroIs(m, p, i + 1, n);
    }
  }

  lemma {:induction false} NoZeroInside(cps: seq<nat>)
    requires Encodable(cps)
    ensures 0 !in EncodedAll(cps)
  {
    if cps != [] {
      EncodedIsLayout(cps[0]);
      NoZeroInside(cps[1..]);
    }
  }

  // utf8len of a string: lead bytes up to the terminator.
  function LenSpec(m: seq<Byte>, p: nat): Result<nat, Utf8Error> {
    match FirstZero(m, p, 0)
    case None => Err(Unterminated)
    case Some(len) => ZeroInside(m, p, 0); Ok(Leads(m, p, len))
  }

  lemma {:induction false} ZeroInside(m: seq<Byte>, p: nat, i: nat)
    ensures FirstZero(m, p, i).Some? ==> p + FirstZero(m, p, i).value < |m|
    decreases |m| - (p + i)
  {
    if p + i < |m| && m[p + i] != 0 { ZeroInside(m, p, i + 1); }
  }

  lemma TerminatorFound(m: seq<Byte>, p: nat, b: seq<Byte>)
    requires At(m, p, b + [0]) && 0 !in b
    ensures At(m, p, b) && FirstZero(m, p, 0) == Some(|b|)
  {
    AtSplit(m, p, b, [0]);
    assert m[p + |b|] == m[p + |b|..p + |b| + 1][0];
    FirstZeroIs(m, p, 0, |b|);
  }

  // Code points encoded back to back and terminated: the length instruction counts them, the validity
  // instruction accepts the bytes, and each decodes at its start.
  lemma EncodedString(m: seq<Byte>, p: nat, cps: seq<nat>)
    requires Encodable(cps) && At(m, p, EncodedAll(cps) + [0])
    ensures LenSpec(m, p) == Ok(|cps|)
    ensures p + |EncodedAll(cps)| <= |m| && ValidFrom(m, p, 0, |EncodedAll(cps)|)
    ensures forall k :: 0 <= k < |cps| ==> DecodeAt(m, p + |EncodedAll(cps[..k])|) == Ok(cps[k])
  {
    hide At, EncodedAll, DecodeAt, Encoded, ValidFrom, FirstZero, Leads, Encodable;
    NoZeroInside(cps);
    TerminatorFound(m, p, EncodedAll(cps));
    LeadsCount(m, p, cps);
    EncodedIsValid(m, p, 0, cps);
    forall k | 0 <= k < |cps| ensures DecodeAt(m, p + |EncodedAll(cps[..k])|) == Ok(cps[k]) {
      EachDecodes(m, p, cps, k);
    }
  }

  // ---------------------------------------------------------------- the instructions

  method CheckRange(memory: array<Byte>, addr: nat, len: nat) returns (r: Result<(), Utf8Error>)
    ensures r == if addr + len > memory.Length then Err(OutOfBounds) else Ok(())
  {
    r := if addr + len > memory.Length then Err(OutOfBounds) else Ok(());
  }

  method Utf8Encode(memory: array<Byte>, p: nat, cp: UInt32) returns (r: Result<nat, Utf8Error>)
    modifies memory
    ensures r == if p + |Encoded(cp)| > memory.Length then Err(OutOfBounds) else Ok(|Encoded(cp)|)
    ensures r.Ok? ==> At(memory[..], p, Encoded(cp))
    ensures forall a :: 0 <= a < memory.Length && (r.Err? || a < p || a >= p + |Encoded(cp)|) ==> memory[a] == old(memory[a])
  {
    var buf := [];
    if cp < 0x80 {
      buf := [ToByte(cp)];
    } else if cp < 0x800 {
      buf := [ToByte(Or(0xC0, Shr(cp, 6))), ToByte(Or(0x80, And(cp, 0x3F)))];
    } else if cp < 0x1_0000 {
      buf := [ToByte(Or(0xE0, Shr(cp, 12))), ToByte(Or(0x80, And(Shr(cp, 6), 0x3F))), ToByte(Or(0x80, And(cp, 0x3F)))];
    } else {
      buf := [ToByte(Or(0xF0, Shr(cp, 18))), ToByte(Or(0x80, And(Shr(cp, 12), 0x3F))),
              ToByte(Or(0x80, And(Shr(cp, 6), 0x3F))), ToByte(Or(0x80, And(cp, 0x3F)))];
    }
    assert buf == Encoded(cp);
    hide Encoded;
    var _ :- CheckRange(memory, p, |buf|);
    for k := 0 to |buf|
      invariant forall i :: 0 <= i < k ==> memory[p + i] == buf[i]
      invariant forall a :: 0 <= a < memory.Length && (a < p || a >= p + |buf|) ==> memory[a] == old(memory[a])
    {
      memory[p + k] := buf[k];
    }
    assert memory[..][p..p + |buf|] == buf;
    r := Ok(|buf|);
  }

  method Utf8Decode(memory: array<Byte>, p: nat) returns (r: Result<nat, Utf8Error>)
    ensures r == DecodeAt(memory[..], p)
  {
    ghost var m := memory[..];
    hide IsContinuation, Continue;
    var _ :- CheckRange(memory, p, 1);
    var c0 := memory[p];
    var cp: nat, extra: nat := 0, 0;
    if c0 < 0x80 { cp := c0; }
    else if And(c0, 0xE0) == 0xC0 { cp := And(c0, 0x1F); extra := 1; }
    else if And(c0, 0xF0) == 0xE0 { cp := And(c0, 0x0F); extra := 2; }
    else if And(c0, 0xF8) == 0xF0 { cp := And(c0, 0x07); extra := 3; }
    else { return Err(InvalidLead); }
    assert Extra(c0) == Some(extra) && LeadBits(c0) == cp;
    var _ :- CheckRange(memory, p, extra + 1);
    var k := 1;
    while k <= extra
      invariant 1 <= k <= extra + 1
      invariant DecodeAt(m, p) == Continue(m, p + k, extra + 1 - k, cp)
    {
      var cc := memory[p + k];
      ContinueUnfolds(m, p + k, extra + 1 - k, cp);
      if !IsContinuation(cc) { return Err(InvalidContinuation); }
      cp := Or(Shl(cp, 6), And(cc, 0x3F));
      k := k + 1;
    }
    ContinueDone(m, p + k);
    r := Ok(cp);
  }

  lemma ContinueUnfolds(m: seq<Byte>, at: nat, n: nat, cp: nat)
    requires at + n <= |m| && n > 0
    ensures Continue(m, at, n, cp) ==
      if !IsContinuation(m[at]) then Err(InvalidContinuation)
      else Continue(m, at + 1, n - 1, Or(Shl(cp, 6), And(m[at], 0x3F)))
  {
  }

  method StringLength(memory: array<Byte>, addr: nat) returns (r: Result<nat, Utf8Error>)
    ensures r == match FirstZero(memory[..], addr, 0) case None => Err(Unterminated) case Some(n) => Ok(n)
  {
    var i := addr;
    while i < memory.Length
      invariant i >= addr && FirstZero(memory[..], addr, 0) == FirstZero(memory[..], addr, i - addr)
    {
      if memory[i] == 0 { return Ok(i - addr); }
      i := i + 1;
    }
    r := Err(Unterminated);
  }

  method Utf8Len(memory: array<Byte>, p: nat) returns (r: Result<nat, Utf8Error>)
    ensures r == LenSpec(memory[..], p)
  {
    var len :- StringLength(memory, p);
    ZeroInside(memory[..], p, 0);
    var n := 0;
    for i := 0 to len
      invariant n == Leads(memory[..], p, i)
    {
      if !IsContinuation(memory[p + i]) { n := n + 1; }
    }
    r := Ok(n);
  }

  method Utf8Valid(memory: array<Byte>, p: nat, len: nat) returns (r: Result<bool, Utf8Error>)
    ensures r == if p + len > memory.Length then Err(OutOfBounds) else Ok(ValidFrom(memory[..], p, 0, len))
  {
    hide IsContinuation;
    var _ :- CheckRange(memory, p, len);
    ghost var m := memory[..];
    var i := 0;
    while i < len
      invariant ValidFrom(m, p, 0, len) == ValidFrom(m, p, i, len)
    {
      var c0 := memory[p + i];
      var extra := 0;
      if c0 < 0x80 { extra := 0; }
      else if And(c0, 0xE0) == 0xC0 { extra := 1; }
      else if And(c0, 0xF0) == 0xE0 { extra := 2; }
      else if And(c0, 0xF8) == 0xF0 { extra := 3; }
      else { return Ok(false); }
      assert Extra(m[p + i]) == Some(extra);
      if i + extra >= len { return Ok(false); }
      var k := 1;
      while k <= extra
        invariant 1 <= k <= extra + 1 && Tails(m, p + i, k)
      {
        if !IsContinuation(memory[p + i + k]) {
          assert !IsContinuation(m[p + i + k]);
          return Ok(false);
        }
        k := k + 1;
      }
      ValidStep(m, p, i, len, extra);
      i := i + extra + 1;
    }
    r := Ok(true);
  }
}
