// Lexing what the disassembler prints: each piece of the text becomes the tokens it was meant to be.

module TextTokens {
  import opened Ast
  import opened Lexer
  import opened Opcodes
  import opened Disassembler

  // ---------------------------------------------------------------- lexing without line numbers

  // The tokens of a text, all on line 0.
  function LexCore(s: string, strtod: string -> UInt64): Option<seq<Token>>
    decreases |s|
  {
    if s == "" then Some([Plain(End, "")])
    else
      match Front(s, strtod)
      case Blank(n) => LexCore(s[n..], strtod)
      case Piece(t, n) => Then([t.(line := 0)], LexCore(s[n..], strtod))
      case Unknown(e) => None
  }

  function Then(ts: seq<Token>, r: Option<seq<Token>>): Option<seq<Token>> {
    match r
    case Some(us) => Some(ts + us)
    case None => None
  }

  lemma ThenMore(a: seq<Token>, b: seq<Token>, r: Option<seq<Token>>)
    ensures Then(a, Then(b, r)) == Then(a + b, r)
    ensures Then([], r) == r
  {
    if r.Some? {
      assert a + (b + r.value) == (a + b) + r.value;
      assert [] + r.value == r.value;
    }
  }

  function Strip(ts: seq<Token>): (r: seq<Token>)
    ensures |r| == |ts|
  {
    seq(|ts|, i requires 0 <= i < |ts| => ts[i].(line := 0))
  }

  lemma {:induction false} StripIsCore(s: string, line: nat, strtod: string -> UInt64)
    ensures match LexSpec(s, line, strtod)
            case Ok(ts) => LexCore(s, strtod) == Some(Strip(ts))
            case Err(_) => LexCore(s, strtod) == None
    decreases |s|
  {
    hide Front;
    if s != "" {
      match Front(s, strtod)
      case Blank(n) => StripIsCore(s[n..], if s[0] == '\n' then line + 1 else line, strtod);
      case Piece(t, n) =>
        StripIsCore(s[n..], line, strtod);
        if LexSpec(s[n..], line, strtod).Ok? {
          var ts := LexSpec(s[n..], line, strtod).value;
          assert Strip([t.(line := line)] + ts) == [t.(line := 0)] + Strip(ts);
        }
      case Unknown(e) =>
    } else {
      assert Strip([Token(End, "", 0, 0, line)]) == [Plain(End, "")];
    }
  }

  // ---------------------------------------------------------------- single pieces

  lemma {:induction false} RunAppend(a: string, b: string, p: char -> bool)
    requires (forall i :: 0 <= i < |a| ==> p(a[i])) && (b == "" || !p(b[0]))
    ensures Run(a + b, p) == |a|
    decreases |a|
  {
    if a == "" {
      assert a + b == b;
    } else {
      RunAppend(a[1..], b, p);
      assert (a + b)[1..] == a[1..] + b;
    }
  }

  lemma Behind(a: string, b: string)
    ensures (a + b)[|a|..] == b && (a + b)[..|a|] == a
  {
  }

  lemma LexBlank(c: char, rest: string, strtod: string -> UInt64)
    requires IsSpace(c)
    ensures LexCore([c] + rest, strtod) == LexCore(rest, strtod)
  {
    Behind([c], rest);
  }

  // Four blanks, a blank and a line feed, as the disassembler writes them.
  lemma LexBlanks(rest: string, strtod: string -> UInt64)
    ensures LexCore("    " + rest, strtod) == LexCore(rest, strtod)
    ensures LexCore(" " + rest, strtod) == LexCore(rest, strtod)
    ensures LexCore("\n" + rest, strtod) == LexCore(rest, strtod)
    ensures LexCore("\n\n" + rest, strtod) == LexCore(rest, strtod)
  {
    hide LexCore;
    LexBlank(' ', rest, strtod);
    LexBlank(' ', " " + rest, strtod);
    LexBlank(' ', "  " + rest, strtod);
    LexBlank(' ', "   " + rest, strtod);
    assert " " + (" " + rest) == "  " + rest && " " + ("  " + rest) == "   " + rest && " " + ("   " + rest) == "    " + rest;
    LexBlank('\n', rest, strtod);
    LexBlank('\n', "\n" + rest, strtod);
    assert "\n" + ("\n" + rest) == "\n\n" + rest;
  }

  predicate NotIdent(rest: string) { rest == "" || !IsIdentChar(rest[0]) }

  function IdentToken(s: string): Token { Plain(Identifier, s) }

  lemma LexName(s: string, rest: string, strtod: string -> UInt64)
    requires IsName(s) && NotIdent(rest)
    ensures LexCore(s + rest, strtod) == Then([IdentToken(s)], LexCore(rest, strtod))
  {
    var all := s + rest;
    Behind(s, rest);
    RunAppend(s, rest, IsIdentChar);
    assert all[0] == s[0];
    assert all != "" && |all| > 1 ==> all[1] == if |s| > 1 then s[1] else rest[0];
    assert FrontIdentifier(all) == Piece(Plain(Identifier, s), |s|);
    assert !(all[0] == 'r' && SecondIs(all, IsDigit));
    assert Front(all, strtod) == FrontIdentifier(all);
    hide Front, Run;
  }

  predicate SingleMark(c: char) { c == ':' || c == ',' || c == '(' || c == ')' || c == '{' || c == '}' || c == '.' }

  function MarkToken(c: char): Token
    requires SingleMark(c)
  {
    Plain(Punctuation(c).value, [c])
  }

  lemma LexMark(c: char, rest: string, strtod: string -> UInt64)
    requires SingleMark(c)
    ensures LexCore([c] + rest, strtod) == Then([MarkToken(c)], LexCore(rest, strtod))
  {
    var all := [c] + rest;
    Behind([c], rest);
    assert Front(all, strtod) == FrontOther(c);
    hide Front;
  }

  const ARROW: Token := Plain(Arrow, "->")

  lemma LexArrow(rest: string, strtod: string -> UInt64)
    ensures LexCore("->" + rest, strtod) == Then([ARROW], LexCore(rest, strtod))
  {
    var all := "->" + rest;
    Behind("->", rest);
    assert all[0] == '-' && all[1] == '>';
    assert Front(all, strtod) == Piece(Plain(Arrow, "->"), 2);
    hide Front;
  }

  // ---------------------------------------------------------------- numbers

  lemma {:induction false} DecimalDigits(n: nat)
    ensures forall i :: 0 <= i < |Decimal(n)| ==> IsDigit(Decimal(n)[i])
    decreases n
  {
    if n >= 10 { DecimalDigits(n / 10); }
  }

  lemma {:induction false} DecimalReads(n: nat)
    ensures DecimalValue(Decimal(n)) == n
    decreases n
  {
    if n >= 10 {
      DecimalReads(n / 10);
      var s := Decimal(n);
      assert s[..|s| - 1] == Decimal(n / 10);
    } else {
      assert Decimal(n)[..0] == "";
    }
  }

  predicate NotNumber(rest: string) { rest == "" || (!IsDigit(rest[0]) && rest[0] != '.') }

  // A sign, digits and what follows.
  lemma NumberFront(sign: nat, digits: string, rest: string, strtod: string -> UInt64)
    requires digits != "" && (forall i :: 0 <= i < |digits| ==> IsDigit(digits[i])) && NotNumber(rest)
    requires sign <= 1
    ensures var s := (if sign == 1 then "-" else "") + digits;
      && !HasFraction(s + rest, sign) && NumberEnd(s + rest, sign) == |s|
      && NumberToken(s + rest, sign, strtod) == Token(IntLiteral, s, Strtoll(s), 0, 0)
  {
    var mark := if sign == 1 then "-" else "";
    var all := (mark + digits) + rest;
    assert all == mark + (digits + rest);
    Behind(mark, digits + rest);
    Behind(mark + digits, rest);
    RunAppend(digits, rest, IsDigit);
    hide Run, Strtoll;
    assert all[sign..] == digits + rest;
    assert rest != "" ==> all[|mark + digits|] == rest[0];
  }

  function IntToken(v: Int64): Token { Token(IntLiteral, SignedDecimal(v), v, 0, 0) }

  predicate AllDigits(s: string) { s != "" && forall i :: 0 <= i < |s| ==> IsDigit(s[i]) }

  lemma StrtollReads(digits: string, v: Int64)
    requires AllDigits(digits)
    requires DecimalValue(digits) == if v < 0 then -1 * v else v
    ensures Strtoll(if v < 0 then "-" + digits else digits) == v
  {
    hide DecimalValue;
    if v < 0 {
      var s := "-" + digits;
      assert s[0] == '-' && s[1..] == digits;
    } else {
      assert IsDigit(digits[0]);
    }
  }

  lemma SignedParts(v: Int64)
    ensures var m: nat := if v < 0 then -1 * v else v;
      SignedDecimal(v) == (if v < 0 then "-" else "") + Decimal(m) && AllDigits(Decimal(m))
    ensures Strtoll(SignedDecimal(v)) == v
  {
    var m: nat := if v < 0 then -1 * v else v;
    DecimalDigits(m);
    DecimalReads(m);
    StrtollReads(Decimal(m), v);
    hide Decimal, DecimalValue, Strtoll;
    assert "" + Decimal(m) == Decimal(m);
  }

  lemma IntFront(sign: nat, digits: string, rest: string, strtod: string -> UInt64)
    requires sign <= 1 && AllDigits(digits) && NotNumber(rest)
    ensures var s := (if sign == 1 then "-" else "") + digits;
      Front(s + rest, strtod) == Piece(Token(IntLiteral, s, Strtoll(s), 0, 0), |s|)
  {
    NumberFront(sign, digits, rest, strtod);
    var s := (if sign == 1 then "-" else "") + digits;
    var all := s + rest;
    assert all[sign] == digits[0] && (sign == 1 ==> all[0] == '-');
    hide Run, NumberEnd, NumberToken, Strtoll, HasFraction;
    assert Front(all, strtod) == FrontNumber(all, sign, strtod);
  }

  lemma LexInt(v: Int64, rest: string, strtod: string -> UInt64)
    requires NotNumber(rest)
    ensures LexCore(SignedDecimal(v) + rest, strtod) == Then([IntToken(v)], LexCore(rest, strtod))
  {
    hide Front, Strtoll, SignedDecimal, Decimal, NotNumber, AllDigits;
    SignedParts(v);
    IntFront(if v < 0 then 1 else 0, Decimal(if v < 0 then -1 * v else v), rest, strtod);
    Behind(SignedDecimal(v), rest);
  }

  function RegToken(r: UInt32): Token { Token(Reg, RegisterText(r), r, 0, 0) }

  lemma RegisterParts(r: UInt32)
    ensures RegisterText(r) == "r" + Decimal(r) && AllDigits(Decimal(r)) && Strtoll(Decimal(r)) == r
  {
    DecimalDigits(r);
    DecimalReads(r);
    hide Decimal, DecimalValue;
    assert IsDigit(Decimal(r)[0]);
  }

  lemma RegisterFront(digits: string, rest: string, strtod: string -> UInt64)
    requires AllDigits(digits) && (rest == "" || !IsDigit(rest[0]))
    ensures Front(("r" + digits) + rest, strtod) == Piece(Token(Reg, "r" + digits, Strtoll(digits), 0, 0), 1 + |digits|)
  {
    var all := ("r" + digits) + rest;
    hide Strtoll;
    RunAppend(digits, rest, IsDigit);
    Assoc("r", digits, rest);
    Behind("r", digits + rest);
    Behind("r" + digits, rest);
    hide Run;
    Behind(digits, rest);
    assert all[0] == 'r' && all[1] == digits[0];
    assert all[1..1 + |digits|] == all[1..][..|digits|];
    assert Front(all, strtod) == FrontRegister(all);
  }

  lemma LexReg(r: UInt32, rest: string, strtod: string -> UInt64)
    requires rest == "" || !IsDigit(rest[0])
    ensures LexCore(RegisterText(r) + rest, strtod) == Then([RegToken(r)], LexCore(rest, strtod))
  {
    hide Front, Strtoll, RegisterText, Decimal, AllDigits;
    RegisterParts(r);
    RegisterFront(Decimal(r), rest, strtod);
    Behind(RegisterText(r), rest);
  }

  // ---------------------------------------------------------------- types, suffixes and operands

  lemma IntegerNames()
    ensures IsName("i8") && IsName("u8") && IsName("i16") && IsName("u16") && IsName("i32") && IsName("u32")
    ensures IsName("i64") && IsName("u64") && IsName("i128") && IsName("u128")
  {
  }

  lemma OtherNames()
    ensures IsName("f32") && IsName("f64") && IsName("void") && IsName("ptr")
    ensures IsName("v128") && IsName("v256") && IsName("v512")
  {
  }

  lemma TypeNameIsName(t: nat)
    requires t < 17
    ensures IsName(TYPE_NAMES[t])
  {
    hide IsName;
    IntegerNames();
    OtherNames();
    if t < 8 {
      if t < 4 { if t < 2 { assert t == 0 || t == 1; } else { assert t == 2 || t == 3; } }
      else { if t < 6 { assert t == 4 || t == 5; } else { assert t == 6 || t == 7; } }
    } else if t < 12 {
      if t < 10 { assert t == 8 || t == 9; } else { assert t == 10 || t == 11; }
    } else {
      assert t == 12 || t == 13 || t == 14 || t == 15 || t == 16;
    }
  }

  lemma LexType(t: Byte, rest: string, strtod: string -> UInt64)
    requires t < TYPE_COUNT && NotIdent(rest)
    ensures LexCore(TypeText(t) + rest, strtod) == Then([IdentToken(TypeName(t))], LexCore(rest, strtod))
  {
    hide LexCore, IsName;
    TypeNameIsName(t);
    LexName(TypeName(t), rest, strtod);
  }

  function SuffixTokens(takes: bool, t: Byte): seq<Token>
    requires t < TYPE_COUNT
  {
    if takes then [MarkToken('.'), IdentToken(TypeName(t))] else []
  }

  lemma LexSuffix(takes: bool, t: Byte, rest: string, strtod: string -> UInt64)
    requires t < TYPE_COUNT && NotIdent(rest)
    ensures LexCore(SuffixText(takes, t) + rest, strtod) == Then(SuffixTokens(takes, t), LexCore(rest, strtod))
    ensures NotIdent(SuffixText(takes, t) + rest)
  {
    hide LexCore, TypeText, TypeName, IsName;
    var core := LexCore(rest, strtod);
    if takes {
      LexType(t, rest, strtod);
      LexMark('.', TypeText(t) + rest, strtod);
      Assoc(".", TypeText(t), rest);
      ThenMore([MarkToken('.')], [IdentToken(TypeName(t))], core);
      assert [MarkToken('.')] + [IdentToken(TypeName(t))] == SuffixTokens(takes, t);
      assert (SuffixText(takes, t) + rest)[0] == '.';
    } else {
      assert "" + rest == rest;
      ThenMore([], [], core);
    }
  }

  // Operands that the text can express.
  predicate Printable(op: Operand) {
    match op
    case Register(_) => true
    case ImmediateInt(_) => true
    case ImmediateFloat(_) => false
    case Symbol(name) => IsName(name)
    case Label(_) => false
  }

  predicate AllPrintable(ops: seq<Operand>) { forall i :: 0 <= i < |ops| ==> Printable(ops[i]) }

  function OperandToken(op: Operand): Token
    requires Printable(op)
  {
    match op
    case Register(r) => RegToken(r)
    case ImmediateInt(v) => IntToken(v)
    case Symbol(name) => IdentToken(name)
  }

  // An operand is followed by a comma or the end of the line.
  predicate EndsOperand(rest: string) { rest != "" && (rest[0] == ',' || rest[0] == '\n') }

  lemma LexOperand(op: Operand, rest: string, show: UInt64 -> string, strtod: string -> UInt64)
    requires Printable(op) && EndsOperand(rest)
    ensures LexCore(OperandText(op, show) + rest, strtod) == Then([OperandToken(op)], LexCore(rest, strtod))
  {
    hide LexCore, IsName, RegisterText, SignedDecimal;
    match op
    case Register(r) => LexReg(r, rest, strtod);
    case ImmediateInt(v) => LexInt(v, rest, strtod);
    case Symbol(name) => LexName(name, rest, strtod);
  }

  function MoreTokens(ops: seq<Operand>): seq<Token>
    requires AllPrintable(ops)
  {
    if ops == [] then [] else [MarkToken(','), OperandToken(ops[0])] + MoreTokens(ops[1..])
  }

  function OperandTokens(ops: seq<Operand>): seq<Token>
    requires AllPrintable(ops)
  {
    if ops == [] then [] else [OperandToken(ops[0])] + MoreTokens(ops[1..])
  }

  lemma MoreEnds(ops: seq<Operand>, show: UInt64 -> string, rest: string)
    ensures EndsOperand(MoreOperands(ops, show) + ("\n" + rest))
  {
    hide OperandText;
    if ops == [] {
      assert "" + ("\n" + rest) == "\n" + rest;
    } else {
      var t := MoreOperands(ops, show);
      assert t[0] == ',';
    }
  }

  lemma {:induction false} LexMore(ops: seq<Operand>, rest: string, show: UInt64 -> string, strtod: string -> UInt64)
    requires AllPrintable(ops)
    ensures LexCore(MoreOperands(ops, show) + ("\n" + rest), strtod) == Then(MoreTokens(ops), LexCore(rest, strtod))
    decreases |ops|
  {
    hide LexCore, OperandText, OperandToken, Printable, EndsOperand;
    var core := LexCore(rest, strtod);
    LexBlanks(rest, strtod);
    if ops == [] {
      assert "" + ("\n" + rest) == "\n" + rest;
      ThenMore([], [], core);
    } else {
      var tail := MoreOperands(ops[1..], show) + ("\n" + rest);
      LexMore(ops[1..], rest, show, strtod);
      MoreEnds(ops[1..], show, rest);
      LexOperand(ops[0], tail, show, strtod);
      LexBlanks(OperandText(ops[0], show) + tail, strtod);
      LexMark(',', " " + (OperandText(ops[0], show) + tail), strtod);
      MoreUnfolds(ops, rest, show);
      ThenMore([OperandToken(ops[0])], MoreTokens(ops[1..]), core);
      ThenMore([MarkToken(',')], [OperandToken(ops[0])] + MoreTokens(ops[1..]), core);
      assert [MarkToken(',')] + ([OperandToken(ops[0])] + MoreTokens(ops[1..])) == MoreTokens(ops);
    }
  }

  lemma MoreUnfolds(ops: seq<Operand>, rest: string, show: UInt64 -> string)
    requires ops != []
    ensures MoreOperands(ops, show) + ("\n" + rest) ==
      "," + (" " + (OperandText(ops[0], show) + (MoreOperands(ops[1..], show) + ("\n" + rest))))
  {
    hide OperandText;
    var o, m, e := OperandText(ops[0], show), MoreOperands(ops[1..], show), "\n" + rest;
    assert MoreOperands(ops, show) == ", " + o + m;
    hide MoreOperands;
    Assoc(", " + o, m, e);
    Assoc(", ", o, m + e);
    CommaBlank(o + (m + e));
  }

  lemma CommaBlank(rest: string)
    ensures ", " + rest == "," + (" " + rest)
  {
  }

  lemma LexOperands(ops: seq<Operand>, rest: string, show: UInt64 -> string, strtod: string -> UInt64)
    requires AllPrintable(ops)
    ensures LexCore(OperandsText(ops, show) + ("\n" + rest), strtod) == Then(OperandTokens(ops), LexCore(rest, strtod))
  {
    hide LexCore, OperandText, OperandToken, Printable, EndsOperand, MoreOperands, MoreTokens;
    var core := LexCore(rest, strtod);
    LexBlanks(rest, strtod);
    if ops == [] {
      assert "" + ("\n" + rest) == "\n" + rest;
      ThenMore([], [], core);
    } else {
      var more := MoreOperands(ops[1..], show);
      LexMore(ops[1..], rest, show, strtod);
      MoreEnds(ops[1..], show, rest);
      LexOperand(ops[0], more + ("\n" + rest), show, strtod);
      Assoc(OperandText(ops[0], show), more, "\n" + rest);
      ThenMore([OperandToken(ops[0])], MoreTokens(ops[1..]), core);
    }
  }
}
