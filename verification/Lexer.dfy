// The lexer (src/frontend/lexer.cpp): characters are ASCII, as in the "C" locale. What strtod makes of the
// digits of a floating-point literal is a parameter.

module Lexer {
  import opened Ast

  datatype TokenKind =
    | Identifier | Reg | ParamRef | IntLiteral | FloatLiteral | Arrow | Colon | Comma
    | LParen | RParen | LBrace | RBrace | Dot | Minus | End

  datatype Token = Token(kind: TokenKind, text: string, intValue: Int64, floatValue: UInt64, line: nat)

  datatype LexError = ExpectedParameterName(line: nat) | UnexpectedCharacter(c: char, line: nat)

  // ---------------------------------------------------------------- characters

  predicate IsDigit(c: char) { '0' <= c <= '9' }

  predicate IsAlpha(c: char) { 'a' <= c <= 'z' || 'A' <= c <= 'Z' }

  predicate IsIdentStart(c: char) { IsAlpha(c) || c == '_' }

  predicate IsIdentChar(c: char) { IsAlpha(c) || IsDigit(c) || c == '_' }

  // Blanks, tabs, line feeds, vertical tabs, form feeds and carriage returns.
  predicate IsSpace(c: char) { c == ' ' || 9 <= c as int <= 13 }

  predicate NotNewline(c: char) { c != '\n' }

  // How many characters at the front satisfy p.
  function Run(s: string, p: char -> bool): (n: nat)
    ensures n <= |s| && (forall i :: 0 <= i < n ==> p(s[i])) && (n < |s| ==> !p(s[n]))
  {
    if s == "" || !p(s[0]) then 0 else 1 + Run(s[1..], p)
  }

  // ---------------------------------------------------------------- numbers

  function DigitValue(c: char): nat { if IsDigit(c) then c as int - '0' as int else 0 }

  function DecimalValue(s: string): nat {
    if s == "" then 0 else 10 * DecimalValue(s[..|s| - 1]) + DigitValue(s[|s| - 1])
  }

  function Saturate(v: int): Int64 {
    if v < -0x8000_0000_0000_0000 then -0x8000_0000_0000_0000
    else if v >= 0x8000_0000_0000_0000 then 0x7FFF_FFFF_FFFF_FFFF
    else v
  }

  // strtoll on an optional minus sign and digits: out of range values saturate.
  function Strtoll(text: string): Int64 {
    if text != "" && text[0] == '-' then Saturate(-1 * DecimalValue(text[1..])) else Saturate(DecimalValue(text))
  }

  // ---------------------------------------------------------------- one step of the loop

  // What stands at the front of the text: `n` characters to skip, a token of `n` characters (its line still
  // open), or nothing the lexer knows.
  datatype Piece =
    | Blank(n: nat)
    | Piece(token: Token, n: nat)
    | Unknown(error: LexError)

  function Plain(kind: TokenKind, text: string): Token { Token(kind, text, 0, 0, 0) }

  // Digits, and perhaps a point and more digits, at the front of s behind `sign` characters. The point of an
  // unsigned number must be followed by a digit.
  function NumberEnd(s: string, sign: nat): (n: nat)
    requires sign <= |s|
    ensures sign <= n <= |s|
  {
    var d := sign + Run(s[sign..], IsDigit);
    if HasFraction(s, sign) then d + 1 + Run(s[d + 1..], IsDigit) else d
  }

  predicate HasFraction(s: string, sign: nat)
    requires sign <= |s|
  {
    var d := sign + Run(s[sign..], IsDigit);
    d < |s| && s[d] == '.' && (sign > 0 || (d + 1 < |s| && IsDigit(s[d + 1])))
  }

  function NumberToken(s: string, sign: nat, strtod: string -> UInt64): Token
    requires sign <= |s|
  {
    var text := s[..NumberEnd(s, sign)];
    if HasFraction(s, sign) then Token(FloatLiteral, text, 0, strtod(text), 0)
    else Token(IntLiteral, text, Strtoll(text), 0, 0)
  }

  function Punctuation(c: char): Option<TokenKind> {
    if c == ':' then Some(Colon) else if c == ',' then Some(Comma)
    else if c == '(' then Some(LParen) else if c == ')' then Some(RParen)
    else if c == '{' then Some(LBrace) else if c == '}' then Some(RBrace)
    else if c == '.' then Some(Dot) else if c == '-' then Some(Minus)
    else None
  }

  predicate SecondIs(s: string, p: char -> bool) { |s| > 1 && p(s[1]) }

  function FrontNumber(s: string, sign: nat, strtod: string -> UInt64): (p: Piece)
    requires sign < |s| && IsDigit(s[sign])
    ensures p.Piece? && 1 <= p.n <= |s|
  {
    assert s[sign..][0] == s[sign];
    Piece(NumberToken(s, sign, strtod), NumberEnd(s, sign))
  }

  function FrontRegister(s: string): (p: Piece)
    requires s != ""
    ensures p.Piece? && 1 <= p.n <= |s|
  {
    var d := 1 + Run(s[1..], IsDigit);
    Piece(Token(Reg, s[..d], Strtoll(s[1..d]), 0, 0), d)
  }

  function FrontIdentifier(s: string): (p: Piece)
    requires s != "" && IsIdentStart(s[0])
    ensures p.Piece? && 1 <= p.n <= |s|
  {
    Piece(Plain(Identifier, s[..Run(s, IsIdentChar)]), Run(s, IsIdentChar))
  }

  function FrontParam(s: string): (p: Piece)
    requires s != ""
    ensures !p.Blank? && (p.Piece? ==> 1 <= p.n <= |s|)
  {
    var name := s[1..1 + Run(s[1..], IsIdentChar)];
    if name == "" || !IsIdentStart(name[0]) then Unknown(ExpectedParameterName(0))
    else Piece(Plain(ParamRef, name), 1 + |name|)
  }

  function FrontOther(c: char): (p: Piece)
    ensures !p.Blank? && (p.Piece? ==> p.n == 1)
  {
    match Punctuation(c)
    case Some(kind) => Piece(Plain(kind, [c]), 1)
    case None => Unknown(UnexpectedCharacter(c, 0))
  }

  // A token at the front of a text that starts neither with a blank nor with a comment.
  function FrontToken(s: string, strtod: string -> UInt64): (p: Piece)
    requires s != ""
    ensures !p.Blank? && (p.Piece? ==> 1 <= p.n <= |s|)
  {
    var c := s[0];
    if c == '-' && SecondIs(s, IsDigit) then FrontNumber(s, 1, strtod)
    else if IsDigit(c) then FrontNumber(s, 0, strtod)
    else if c == 'r' && SecondIs(s, IsDigit) then FrontRegister(s)
    else if IsIdentStart(c) then FrontIdentifier(s)
    else if c == '-' && |s| > 1 && s[1] == '>' then Piece(Plain(Arrow, "->"), 2)
    else if c == '$' then FrontParam(s)
    else FrontOther(c)
  }

  function Front(s: string, strtod: string -> UInt64): (p: Piece)
    requires s != ""
    ensures !p.Unknown? ==> 1 <= p.n <= |s|
  {
    if IsSpace(s[0]) then Blank(1)
    else if s[0] == ';' then Blank(Run(s, NotNewline))
    else FrontToken(s, strtod)
  }

  function AtLine(e: LexError, line: nat): LexError {
    match e
    case ExpectedParameterName(_) => ExpectedParameterName(line)
    case UnexpectedCharacter(c, _) => UnexpectedCharacter(c, line)
  }

  // All tokens of a text that starts on line `line`, the end token last.
  function LexSpec(s: string, line: nat, strtod: string -> UInt64): Result<seq<Token>, LexError>
    decreases |s|
  {
    if s == "" then Ok([Token(End, "", 0, 0, line)])
    else
      match Front(s, strtod)
      case Blank(n) => LexSpec(s[n..], if s[0] == '\n' then line + 1 else line, strtod)
      case Piece(t, n) => Prepended([t.(line := line)], LexSpec(s[n..], line, strtod))
      case Unknown(e) => Err(AtLine(e, line))
  }

  function Prepended(ts: seq<Token>, r: Result<seq<Token>, LexError>): Result<seq<Token>, LexError> {
    match r
    case Ok(us) => Ok(ts + us)
    case Err(e) => Err(e)
  }

  // ---------------------------------------------------------------- the loop

  lemma PrependMore(ts: seq<Token>, t: Token, r: Result<seq<Token>, LexError>)
    ensures Prepended(ts, Prepended([t], r)) == Prepended(ts + [t], r)
    ensures Prepended([], r) == r
  {
    if r.Ok? {
      assert ts + ([t] + r.value) == (ts + [t]) + r.value;
      assert [] + r.value == r.value;
    }
  }

  // The text from position i on.
  function From(src: string, i: nat): (s: string)
    requires i <= |src|
    ensures |s| == |src| - i
  {
    src[i..]
  }

  // The inner loops: past the characters that satisfy p.
  method Scan(src: string, i: nat, p: char -> bool) returns (j: nat)
    requires i <= |src|
    ensures j == i + Run(From(src, i), p) && i <= j <= |src|
  {
    j := i;
    while j < |src| && p(src[j])
      invariant i <= j <= |src|
      invariant Run(src[i..], p) == j - i + Run(src[j..], p)
    {
      assert src[j..][1..] == src[j + 1..];
      j := j + 1;
    }
  }

  lemma Suffix(src: string, i: nat, k: nat)
    requires i + k <= |src|
    ensures k <= |From(src, i)| && From(src, i)[k..] == From(src, i + k) && From(src, i)[..k] == src[i..i + k]
    ensures i + k < |src| ==> From(src, i)[k] == src[i + k]
  {
  }

  lemma NumberIs(s: string, sign: nat, d: nat)
    requires sign <= |s| && d == sign + Run(s[sign..], IsDigit)
    ensures d <= |s|
    ensures HasFraction(s, sign) <==> d < |s| && s[d] == '.' && (sign > 0 || (d + 1 < |s| && IsDigit(s[d + 1])))
    ensures NumberEnd(s, sign) == if HasFraction(s, sign) then d + 1 + Run(s[d + 1..], IsDigit) else d
  {
    hide Run;
  }

  lemma NumberTokenIs(s: string, sign: nat, strtod: string -> UInt64, e: nat)
    requires sign <= |s| && e == NumberEnd(s, sign)
    ensures e <= |s| && NumberToken(s, sign, strtod) ==
      if HasFraction(s, sign) then Token(FloatLiteral, s[..e], 0, strtod(s[..e]), 0) else Token(IntLiteral, s[..e], Strtoll(s[..e]), 0, 0)
  {
  }

  // Where a number ends, and whether it has a fraction.
  method NumberExtent(src: string, i: nat, sign: nat) returns (j: nat, isFloat: bool)
    requires i + sign <= |src|
    ensures i + sign <= j <= |src| && j == i + NumberEnd(From(src, i), sign)
    ensures isFloat == HasFraction(From(src, i), sign)
  {
    hide *;
    Suffix(src, i, sign);
    j := Scan(src, i + sign, IsDigit);
    NumberIs(From(src, i), sign, j - i);
    Suffix(src, i, j - i);
    isFloat := false;
    if j < |src| {
      Suffix(src, i, j - i + 1);
      if src[j] == '.' && (sign > 0 || (j + 1 < |src| && IsDigit(src[j + 1]))) {
        isFloat := true;
        j := Scan(src, j + 1, IsDigit);
      }
    }
  }

  method LexNumber(src: string, i: nat, sign: nat, strtod: string -> UInt64) returns (p: Piece)
    requires i + sign < |src| && IsDigit(src[i + sign]) && IsDigit(From(src, i)[sign])
    ensures p == FrontNumber(From(src, i), sign, strtod)
  {
    var j, isFloat := NumberExtent(src, i, sign);
    hide NumberEnd, HasFraction, NumberToken, Strtoll, Run, IsDigit;
    NumberTokenIs(From(src, i), sign, strtod, j - i);
    Suffix(src, i, j - i);
    var text := src[i..j];
    p := Piece(if isFloat then Token(FloatLiteral, text, 0, strtod(text), 0) else Token(IntLiteral, text, Strtoll(text), 0, 0), j - i);
  }

  lemma Slice(src: string, i: nat, a: nat, b: nat)
    requires i + b <= |src| && a <= b
    ensures From(src, i)[a..b] == src[i + a..i + b]
  {
  }

  method LexRegister(src: string, i: nat) returns (p: Piece)
    requires i < |src|
    ensures p == FrontRegister(From(src, i))
  {
    hide Strtoll, Run, From;
    Suffix(src, i, 1);
    var j := Scan(src, i + 1, IsDigit);
    Suffix(src, i, j - i);
    Slice(src, i, 1, j - i);
    p := Piece(Token(Reg, src[i..j], Strtoll(src[i + 1..j]), 0, 0), j - i);
  }

  method LexIdentifier(src: string, i: nat) returns (p: Piece)
    requires i < |src| && IsIdentStart(From(src, i)[0])
    ensures p == FrontIdentifier(From(src, i))
  {
    hide Run, From, IsIdentStart;
    var j := Scan(src, i, IsIdentChar);
    Suffix(src, i, j - i);
    p := Piece(Plain(Identifier, src[i..j]), j - i);
  }

  method LexParam(src: string, i: nat) returns (p: Piece)
    requires i < |src|
    ensures p == FrontParam(From(src, i))
  {
    hide Run, From, IsIdentStart;
    Suffix(src, i, 1);
    var j := Scan(src, i + 1, IsIdentChar);
    var name := src[i + 1..j];
    Slice(src, i, 1, j - i);
    p := if name == "" || !IsIdentStart(name[0]) then Unknown(ExpectedParameterName(0)) else Piece(Plain(ParamRef, name), j - i);
  }

  // The branches of the loop body that make a token or fail.
  method LexToken(src: string, i: nat, strtod: string -> UInt64) returns (p: Piece)
    requires i < |src|
    ensures p == FrontToken(From(src, i), strtod)
  {
    hide FrontNumber, FrontRegister, FrontIdentifier, FrontParam, From, IsDigit, IsIdentStart;
    Suffix(src, i, 0);
    if i + 1 < |src| { Suffix(src, i, 1); }
    var c := src[i];
    if c == '-' && i + 1 < |src| && IsDigit(src[i + 1]) {
      p := LexNumber(src, i, 1, strtod);
    } else if IsDigit(c) {
      p := LexNumber(src, i, 0, strtod);
    } else if c == 'r' && i + 1 < |src| && IsDigit(src[i + 1]) {
      p := LexRegister(src, i);
    } else if IsIdentStart(c) {
      p := LexIdentifier(src, i);
    } else if c == '-' && i + 1 < |src| && src[i + 1] == '>' {
      p := Piece(Plain(Arrow, "->"), 2);
    } else if c == '$' {
      p := LexParam(src, i);
    } else {
      match Punctuation(c)
      case Some(kind) => p := Piece(Plain(kind, [c]), 1);
      case None => p := Unknown(UnexpectedCharacter(c, 0));
    }
  }

  // One step of the loop.
  lemma LexStep(s: string, line: nat, strtod: string -> UInt64)
    requires s != ""
    ensures LexSpec(s, line, strtod) ==
      match Front(s, strtod)
      case Blank(n) => LexSpec(s[n..], if s[0] == '\n' then line + 1 else line, strtod)
      case Piece(t, n) => Prepended([t.(line := line)], LexSpec(s[n..], line, strtod))
      case Unknown(e) => Err(AtLine(e, line))
  {
  }

  lemma LexEnd(ts: seq<Token>, line: nat, strtod: string -> UInt64)
    ensures Prepended(ts, LexSpec("", line, strtod)) == Ok(ts + [Token(End, "", 0, 0, line)])
    ensures forall e :: Prepended(ts, Err(e)) == Err(e)
  {
  }

  lemma BlankFront(s: string, strtod: string -> UInt64)
    requires s != ""
    ensures IsSpace(s[0]) ==> Front(s, strtod) == Blank(1)
    ensures s[0] == ';' ==> Front(s, strtod) == Blank(Run(s, NotNewline))
    ensures !IsSpace(s[0]) && s[0] != ';' ==> Front(s, strtod) == FrontToken(s, strtod)
  {
  }

  method Lex(src: string, strtod: string -> UInt64) returns (r: Result<seq<Token>, LexError>)
    ensures r == LexSpec(src, 1, strtod)
  {
    hide Front, FrontToken, LexSpec, Run, Prepended;
    var tokens: seq<Token> := [];
    var i, line := 0, 1;
    PrependMore([], Plain(End, ""), LexSpec(src, 1, strtod));
    assert From(src, 0) == src;
    while i < |src|
      invariant 0 <= i <= |src|
      invariant LexSpec(src, 1, strtod) == Prepended(tokens, LexSpec(From(src, i), line, strtod))
    {
      LexStep(From(src, i), line, strtod);
      LexEnd(tokens, line, strtod);
      BlankFront(From(src, i), strtod);
      var c := src[i];
      Suffix(src, i, 1);
      if c == '\n' {
        line := line + 1;
        i := i + 1;
      } else if IsSpace(c) {
        i := i + 1;
      } else if c == ';' {
        var j := Scan(src, i, NotNewline);
        Suffix(src, i, j - i);
        i := j;
      } else {
        var p := LexToken(src, i, strtod);
        match p
        case Piece(t, n) =>
          Suffix(src, i, n);
          PrependMore(tokens, t.(line := line), LexSpec(From(src, i + n), line, strtod));
          tokens := tokens + [t.(line := line)];
          i := i + n;
        case Unknown(e) =>
          return Err(AtLine(e, line));
      }
    }
    assert From(src, i) == "";
    LexEnd(tokens, line, strtod);
    r := Ok(tokens + [Token(End, "", 0, 0, line)]);
  }
}
