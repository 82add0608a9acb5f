// Where the tokens of a text stand: each is spelled out at its place, on the line of its first character, and
// between two of them there are only blanks and comments that run to the end of their line
// (src/frontend/lexer.cpp).

module LexExact {
  import opened Ast
  import opened Lexer

  // ---------------------------------------------------------------- tokens

  function Spelling(t: Token): string { if t.kind == ParamRef then "$" + t.text else t.text }

  predicate Digits(s: string) { s != "" && forall i :: 0 <= i < |s| ==> IsDigit(s[i]) }

  predicate IdentChars(s: string) { forall i :: 0 <= i < |s| ==> IsIdentChar(s[i]) }

  // A number in the range of the type, or the end of the range that is nearer.
  predicate Clamped(r: Int64, v: int) {
    if v < -0x8000_0000_0000_0000 then r == -0x8000_0000_0000_0000
    else if v > 0x7FFF_FFFF_FFFF_FFFF then r == 0x7FFF_FFFF_FFFF_FFFF
    else r == v
  }

  predicate Integral(text: string, v: Int64) {
    || (Digits(text) && Clamped(v, DecimalValue(text)))
    || (text != "" && text[0] == '-' && Digits(text[1..]) && Clamped(v, -1 * DecimalValue(text[1..])))
  }

  // Digits, a point and perhaps more digits, behind an optional minus sign. Without the sign there is a digit
  // behind the point.
  predicate Fractional(text: string) {
    exists p :: 0 < p < |text| && text[p] == '.' && FractionAt(text, p)
  }

  predicate FractionAt(text: string, p: nat)
    requires 0 < p < |text|
  {
    && (p + 1 == |text| || Digits(text[p + 1..]))
    && ((Digits(text[..p]) && p + 1 < |text|) || (text[0] == '-' && Digits(text[1..p])))
  }

  // What a kind of token looks like, and what cannot follow it.
  predicate Fits(t: Token, after: string) {
    match t.kind
    case Identifier =>
      && t.text != "" && IsIdentStart(t.text[0]) && IdentChars(t.text)
      && !(t.text[0] == 'r' && |t.text| > 1 && IsDigit(t.text[1])) && (after == "" || !IsIdentChar(after[0]))
    case Reg =>
      t.text != "" && t.text[0] == 'r' && Digits(t.text[1..]) && Clamped(t.intValue, DecimalValue(t.text[1..]))
      && (after == "" || !IsDigit(after[0]))
    case ParamRef =>
      && t.text != "" && IsIdentStart(t.text[0]) && IdentChars(t.text)
      && (after == "" || !IsIdentChar(after[0]))
    case IntLiteral => Integral(t.text, t.intValue) && (after == "" || !IsDigit(after[0]))
    case FloatLiteral => Fractional(t.text) && (after == "" || !IsDigit(after[0]))
    case Arrow => t.text == "->"
    case Colon => t.text == ":"
    case Comma => t.text == ","
    case LParen => t.text == "("
    case RParen => t.text == ")"
    case LBrace => t.text == "{"
    case RBrace => t.text == "}"
    case Dot => t.text == "."
    case Minus => t.text == "-" && (after == "" || (!IsDigit(after[0]) && after[0] != '>'))
    case End => false
  }

  // The token is spelled at position i.
  predicate Stands(s: string, i: nat, t: Token) {
    var n := |Spelling(t)|;
    0 < n && i + n <= |s| && s[i..i + n] == Spelling(t) && Fits(t, s[i + n..])
  }

  // ---------------------------------------------------------------- gaps

  // A comment that starts at `start` or behind it goes over position j.
  predicate InComment(s: string, start: nat, j: nat)
    requires j < |s|
  {
    exists q :: start <= q <= j && s[q] == ';' && forall e :: q <= e <= j ==> s[e] != '\n'
  }

  predicate LineEnds(s: string, q: nat, end: nat) {
    exists e :: q <= e <= end && e < |s| && s[e] == '\n'
  }

  // From a to b there are blanks and comments, and b is behind the comments.
  predicate Gap(s: string, a: nat, b: nat) {
    && a <= b <= |s|
    && (forall j :: a <= j < b ==> IsSpace(s[j]) || InComment(s, a, j))
    && (forall q :: a <= q < b && s[q] == ';' ==> b == |s| || LineEnds(s, q, b))
  }

  lemma GapsJoin(s: string, a: nat, b: nat, c: nat)
    requires Gap(s, a, b) && Gap(s, b, c)
    ensures Gap(s, a, c)
  {
    forall j | a <= j < c ensures IsSpace(s[j]) || InComment(s, a, j) {
      if j >= b && !IsSpace(s[j]) { assert InComment(s, b, j); }
    }
    forall q | a <= q < c && s[q] == ';' ensures c == |s| || LineEnds(s, q, c) {
      if q < b && b < |s| { assert LineEnds(s, q, b); }
    }
  }

  lemma CommentShifts(s: string, n: nat, start: nat, j: nat)
    requires n <= |s| && j < |s| - n && InComment(s[n..], start, j)
    ensures InComment(s, n + start, n + j)
  {
    var t := s[n..];
    var q :| start <= q <= j && t[q] == ';' && forall e :: q <= e <= j ==> t[e] != '\n';
    assert s[n + q] == ';';
    forall e | n + q <= e <= n + j ensures s[e] != '\n' { assert s[e] == t[e - n]; }
  }

  lemma LineShifts(s: string, n: nat, q: nat, end: nat)
    requires n <= |s| && LineEnds(s[n..], q, end)
    ensures LineEnds(s, n + q, n + end)
  {
    var e :| q <= e <= end && e < |s[n..]| && s[n..][e] == '\n';
    assert s[n + e] == '\n';
  }

  lemma GapShifts(s: string, n: nat, a: nat, b: nat)
    requires n <= |s| && Gap(s[n..], a, b)
    ensures Gap(s, n + a, n + b)
  {
    hide InComment, LineEnds, IsSpace;
    var t := s[n..];
    forall j | n + a <= j < n + b ensures IsSpace(s[j]) || InComment(s, n + a, j) {
      assert s[j] == t[j - n];
      if InComment(t, a, j - n) { CommentShifts(s, n, a, j - n); }
    }
    forall q | n + a <= q < n + b && s[q] == ';' ensures n + b == |s| || LineEnds(s, q, n + b) {
      assert t[q - n] == ';';
      if n + b < |s| { LineShifts(s, n, q - n, b); }
    }
  }

  // A blank, or a comment up to the end of its line.
  lemma BlankIsGap(s: string, strtod: string -> UInt64)
    requires s != "" && Front(s, strtod).Blank?
    ensures Gap(s, 0, Front(s, strtod).n)
  {
    hide FrontToken;
    var n := Front(s, strtod).n;
    if !IsSpace(s[0]) {
      forall j | 0 <= j < n ensures InComment(s, 0, j) {
        assert s[0] == ';' && forall e :: 0 <= e <= j ==> s[e] != '\n';
      }
    }
  }

  // ---------------------------------------------------------------- the token at the front

  lemma StandsShifts(s: string, n: nat, i: nat, t: Token)
    requires n <= |s| && Stands(s[n..], i, t)
    ensures Stands(s, n + i, t)
  {
    hide Fits;
    var m := |Spelling(t)|;
    assert s[n..][i..i + m] == s[n + i..n + i + m];
    assert s[n..][i + m..] == s[n + i + m..];
  }

  lemma DigitsRun(s: string, from: nat)
    requires from < |s| && IsDigit(s[from])
    ensures var n := Run(s[from..], IsDigit);
      && n > 0 && Digits(s[from..from + n]) && (from + n < |s| ==> !IsDigit(s[from + n]))
  {
    var t := s[from..];
    assert t[0] == s[from];
    var n := Run(t, IsDigit);
    assert s[from..from + n] == t[..n];
    if from + n < |s| { assert t[n] == s[from + n]; }
  }

  lemma StrtollClamps(text: string)
    requires Digits(text) || (text != "" && text[0] == '-' && Digits(text[1..]))
    ensures Integral(text, Strtoll(text))
  {
    hide DecimalValue;
    if Digits(text) { assert IsDigit(text[0]); }
  }

  lemma FractionText(s: string, sign: nat, d: nat, n: nat)
    requires sign < d < n <= |s| && sign <= 1 && (sign == 1 ==> s[0] == '-') && Digits(s[sign..d]) && s[d] == '.'
    requires if n == d + 1 then sign == 1 else Digits(s[d + 1..n])
    ensures Fractional(s[..n])
  {
    hide Digits;
    var text := s[..n];
    assert text[sign..d] == s[sign..d] && text[d + 1..] == s[d + 1..n];
    if sign == 0 { assert text[..d] == s[0..d]; }
    assert FractionAt(text, d);
  }

  // Where the digits from a position on end, if there are any.
  predicate DigitsEnd(s: string, from: nat, end: nat) {
    && from <= end <= |s| && (end < |s| ==> !IsDigit(s[end])) && (end == from ==> from == |s| || !IsDigit(s[from]))
    && (end > from ==> Digits(s[from..end]))
  }

  lemma RunEnds(s: string, from: nat) returns (end: nat)
    requires from <= |s|
    ensures end == from + Run(s[from..], IsDigit) && DigitsEnd(s, from, end)
  {
    end := from + Run(s[from..], IsDigit);
    if from < |s| {
      assert s[from..][0] == s[from];
      if IsDigit(s[from]) { DigitsRun(s, from); }
    }
  }

  lemma FractionIs(s: string, sign: nat, d: nat)
    requires sign <= |s| && HasFraction(s, sign) && d == sign + Run(s[sign..], IsDigit)
    ensures d < |s| && s[d] == '.' && (sign > 0 || (d + 1 < |s| && IsDigit(s[d + 1])))
    ensures NumberEnd(s, sign) == d + 1 + Run(s[d + 1..], IsDigit)
  {
    hide Run;
  }

  // Where the digits before the point and those behind it end.
  lemma FractionEnds(s: string, sign: nat) returns (d: nat, n: nat)
    requires sign < |s| && IsDigit(s[sign]) && HasFraction(s, sign)
    ensures n == NumberEnd(s, sign) && sign < d < n <= |s| && s[d] == '.' && (n < |s| ==> !IsDigit(s[n]))
    ensures Digits(s[sign..d]) && if n == d + 1 then sign > 0 else Digits(s[d + 1..n])
  {
    hide Run, Digits, HasFraction, NumberEnd, IsDigit;
    d := RunEnds(s, sign);
    FractionIs(s, sign, d);
    n := RunEnds(s, d + 1);
  }

  lemma FractionStands(s: string, sign: nat)
    requires sign < |s| && IsDigit(s[sign]) && sign <= 1 && (sign == 1 ==> s[0] == '-') && HasFraction(s, sign)
    ensures var n := NumberEnd(s, sign); Fractional(s[..n]) && 0 < n && (n < |s| ==> !IsDigit(s[n]))
  {
    var d, n := FractionEnds(s, sign);
    hide NumberEnd, HasFraction, Digits, Run, Fractional;
    FractionText(s, sign, d, n);
  }

  lemma IntegerStands(s: string, sign: nat)
    requires sign < |s| && IsDigit(s[sign]) && sign <= 1 && (sign == 1 ==> s[0] == '-') && !HasFraction(s, sign)
    ensures var n := NumberEnd(s, sign); Integral(s[..n], Strtoll(s[..n])) && 0 < n && (n < |s| ==> !IsDigit(s[n]))
  {
    hide Strtoll, Integral, Run;
    DigitsRun(s, sign);
    var n := NumberEnd(s, sign);
    assert s[..n][sign..] == s[sign..n];
    if sign == 0 { assert s[..n][0..] == s[..n]; }
    StrtollClamps(s[..n]);
  }

  lemma NumberStands(s: string, sign: nat, strtod: string -> UInt64)
    requires sign < |s| && IsDigit(s[sign]) && sign <= 1 && (sign == 1 ==> s[0] == '-')
    ensures Stands(s, 0, NumberToken(s, sign, strtod)) && |Spelling(NumberToken(s, sign, strtod))| == NumberEnd(s, sign)
  {
    hide Strtoll, Integral, Fractional, NumberEnd, HasFraction, Run;
    var n := NumberEnd(s, sign);
    assert s[0..n] == s[..n];
    if HasFraction(s, sign) { FractionStands(s, sign); } else { IntegerStands(s, sign); }
  }

  lemma RegisterStands(s: string, strtod: string -> UInt64)
    requires s != "" && s[0] == 'r' && SecondIs(s, IsDigit)
    ensures Stands(s, 0, FrontRegister(s).token) && |Spelling(FrontRegister(s).token)| == FrontRegister(s).n
  {
    hide Strtoll, DecimalValue;
    DigitsRun(s, 1);
    var d := 1 + Run(s[1..], IsDigit);
    assert s[..d][1..] == s[1..d];
    StrtollPlain(s[1..d]);
  }

  lemma StrtollPlain(digits: string)
    requires Digits(digits)
    ensures Clamped(Strtoll(digits), DecimalValue(digits))
  {
    hide DecimalValue;
    assert IsDigit(digits[0]);
  }

  lemma IdentRun(s: string, from: nat)
    requires from < |s| && IsIdentStart(s[from])
    ensures var n := Run(s[from..], IsIdentChar);
      && n > 0 && IdentChars(s[from..from + n]) && s[from..from + n][0] == s[from]
      && (from + n < |s| ==> !IsIdentChar(s[from + n]))
  {
    var t := s[from..];
    assert t[0] == s[from];
    var n := Run(t, IsIdentChar);
    assert s[from..from + n] == t[..n];
    if from + n < |s| { assert t[n] == s[from + n]; }
  }

  lemma IdentifierStands(s: string)
    requires s != "" && IsIdentStart(s[0]) && !(s[0] == 'r' && SecondIs(s, IsDigit))
    ensures Stands(s, 0, FrontIdentifier(s).token) && |Spelling(FrontIdentifier(s).token)| == FrontIdentifier(s).n
  {
    IdentRun(s, 0);
    assert s[0..] == s;
  }

  lemma ParamStands(s: string)
    requires s != "" && s[0] == '$' && FrontParam(s).Piece?
    ensures Stands(s, 0, FrontParam(s).token) && |Spelling(FrontParam(s).token)| == FrontParam(s).n
  {
    IdentRun(s, 1);
    var name := FrontParam(s).token.text;
    assert s[0..1 + |name|] == "$" + name;
  }

  lemma OtherStands(s: string)
    requires s != "" && FrontOther(s[0]).Piece?
    requires !(s[0] == '-' && |s| > 1 && (IsDigit(s[1]) || s[1] == '>'))
    ensures Stands(s, 0, FrontOther(s[0]).token) && |Spelling(FrontOther(s[0]).token)| == FrontOther(s[0]).n
  {
    assert s[0..1] == [s[0]];
  }

  lemma FrontStands(s: string, strtod: string -> UInt64)
    requires s != "" && FrontToken(s, strtod).Piece?
    ensures var p := FrontToken(s, strtod); Stands(s, 0, p.token) && |Spelling(p.token)| == p.n
  {
    hide Stands, NumberToken, NumberEnd, FrontRegister, FrontIdentifier, FrontParam, FrontOther, Spelling;
    var c := s[0];
    if c == '-' && SecondIs(s, IsDigit) {
      NumberStands(s, 1, strtod);
    } else if IsDigit(c) {
      NumberStands(s, 0, strtod);
    } else if c == 'r' && SecondIs(s, IsDigit) {
      RegisterStands(s, strtod);
    } else if IsIdentStart(c) {
      IdentifierStands(s);
    } else if c == '-' && |s| > 1 && s[1] == '>' {
      ArrowStands(s);
    } else if c == '$' {
      ParamStands(s);
    } else {
      OtherStands(s);
    }
  }

  lemma ArrowStands(s: string)
    requires |s| > 1 && s[0] == '-' && s[1] == '>'
    ensures Stands(s, 0, Plain(Arrow, "->")) && |Spelling(Plain(Arrow, "->"))| == 2
  {
    assert s[0..2] == "->";
  }

  // The line does not matter.
  lemma LineApart(s: string, i: nat, t: Token, line: nat)
    requires Stands(s, i, t)
    ensures Stands(s, i, t.(line := line)) && Spelling(t.(line := line)) == Spelling(t)
  {
    hide IsIdentChar, Digits, Integral, Fractional, Clamped;
  }

  // ---------------------------------------------------------------- lines

  function Newlines(s: string): nat {
    if s == "" then 0 else Newlines(s[..|s| - 1]) + if s[|s| - 1] == '\n' then 1 else 0
  }

  lemma {:induction false} NewlinesAdd(a: string, b: string)
    ensures Newlines(a + b) == Newlines(a) + Newlines(b)
    decreases |b|
  {
    if b == "" {
      assert a + b == a;
    } else {
      NewlinesAdd(a, b[..|b| - 1]);
      assert (a + b)[..|a + b| - 1] == a + b[..|b| - 1];
    }
  }

  lemma {:induction false} NoNewlines(s: string)
    requires forall i :: 0 <= i < |s| ==> s[i] != '\n'
    ensures Newlines(s) == 0
    decreases |s|
  {
    if s != "" { NoNewlines(s[..|s| - 1]); }
  }

  lemma NewlinesUpTo(s: string, n: nat, i: nat)
    requires n <= |s| && i <= |s| - n
    ensures Newlines(s[..n + i]) == Newlines(s[..n]) + Newlines(s[n..][..i])
  {
    NewlinesAdd(s[..n], s[n..][..i]);
    assert s[..n + i] == s[..n] + s[n..][..i];
  }

  // A piece at the front has a line feed only if it is one.
  lemma PieceLines(s: string, strtod: string -> UInt64)
    requires s != "" && !Front(s, strtod).Unknown?
    ensures Newlines(s[..Front(s, strtod).n]) == if s[0] == '\n' then 1 else 0
  {
    var n := Front(s, strtod).n;
    if IsSpace(s[0]) {
      hide Newlines;
      NewlineAlone(s);
    } else if s[0] == ';' {
      hide Newlines;
      NoNewlines(s[..n]);
    } else {
      FrontStands(s, strtod);
      hide FrontToken, Newlines;
      var t := FrontToken(s, strtod).token;
      assert s[..n] == s[0..0 + |Spelling(t)|];
      SpellingLines(t, s[n..]);
      NoNewlines(s[..n]);
    }
  }

  lemma NewlineAlone(s: string)
    requires s != ""
    ensures Newlines(s[..1]) == if s[0] == '\n' then 1 else 0
  {
    assert s[..1][..0] == "";
  }

  lemma SpellingLines(t: Token, after: string)
    requires Fits(t, after)
    ensures forall i :: 0 <= i < |Spelling(t)| ==> Spelling(t)[i] != '\n'
  {
    hide DecimalValue;
    if t.kind == FloatLiteral {
      var p :| 0 < p < |t.text| && t.text[p] == '.' && FractionAt(t.text, p);
      forall i | 0 <= i < |t.text| ensures t.text[i] != '\n' {
        if 0 < i < p {
          if Digits(t.text[..p]) { assert t.text[..p][i] == t.text[i]; } else { assert t.text[1..p][i - 1] == t.text[i]; }
        } else if i > p {
          assert t.text[p + 1..][i - p - 1] == t.text[i];
        } else if i == 0 && Digits(t.text[..p]) {
          assert t.text[..p][0] == t.text[0];
        }
      }
    } else if t.kind == IntLiteral || t.kind == Reg {
      forall i | 0 <= i < |t.text| ensures t.text[i] != '\n' {
        if i > 0 { assert t.text[1..][i - 1] == t.text[i]; }
      }
    }
  }

  // ---------------------------------------------------------------- the whole text

  // The token is at place i, on its line.
  predicate IsAt(s: string, line: nat, t: Token, i: nat) { i <= |s| && Stands(s, i, t) && t.line == line + Newlines(s[..i]) }

  // From the end of a token at place i there is a gap up to place j.
  predicate GapBehind(s: string, t: Token, i: nat, j: nat) { Gap(s, i + |Spelling(t)|, j) }

  // Each token stands at its place, on the line it is said to be on, behind a gap; the first gap starts at `from`
  // and the end token comes last.
  predicate Placed(s: string, line: nat, ts: seq<Token>, at: seq<nat>, from: nat) {
    && |at| == |ts| > 0 && at[|at| - 1] == |s| && ts[|ts| - 1] == Token(End, "", 0, 0, line + Newlines(s))
    && Gap(s, from, at[0])
    && (forall k :: 0 <= k < |ts| - 1 ==> IsAt(s, line, ts[k], at[k]))
    && (forall k :: 0 <= k < |ts| - 1 ==> GapBehind(s, ts[k], at[k], at[k + 1]))
  }

  function Shifted(at: seq<nat>, n: nat): (r: seq<nat>)
    ensures |r| == |at| && forall k :: 0 <= k < |at| ==> r[k] == n + at[k]
  {
    seq(|at|, k requires 0 <= k < |at| => n + at[k])
  }

  lemma IsAtShifts(s: string, n: nat, line: nat, t: Token, i: nat)
    requires n <= |s| && IsAt(s[n..], line + Newlines(s[..n]), t, i)
    ensures IsAt(s, line, t, n + i)
  {
    hide Stands, Newlines;
    StandsShifts(s, n, i, t);
    NewlinesUpTo(s, n, i);
  }

  lemma GapBehindShifts(s: string, n: nat, t: Token, i: nat, j: nat)
    requires n <= |s| && GapBehind(s[n..], t, i, j)
    ensures GapBehind(s, t, n + i, n + j)
  {
    hide Gap, Spelling;
    GapShifts(s, n, i + |Spelling(t)|, j);
  }

  // The tokens of the text behind its first n characters, seen from the whole text.
  lemma PlacedShifts(s: string, n: nat, line: nat, ts: seq<Token>, at: seq<nat>)
    requires n <= |s| && Placed(s[n..], line + Newlines(s[..n]), ts, at, 0)
    ensures Placed(s, line, ts, Shifted(at, n), n)
  {
    hide IsAt, GapBehind, Gap, Newlines;
    NewlinesUpTo(s, n, |s| - n);
    assert s[..n + (|s| - n)] == s && s[n..][..|s| - n] == s[n..];
    GapShifts(s, n, 0, at[0]);
    var up := Shifted(at, n);
    forall k | 0 <= k < |ts| - 1 ensures IsAt(s, line, ts[k], up[k]) { IsAtShifts(s, n, line, ts[k], at[k]); }
    forall k | 0 <= k < |ts| - 1 ensures GapBehind(s, ts[k], up[k], up[k + 1]) { GapBehindShifts(s, n, ts[k], at[k], at[k + 1]); }
  }

  // For every text that the lexer takes: the places of its tokens.
  lemma {:induction false} Places(s: string, line: nat, strtod: string -> UInt64) returns (at: seq<nat>)
    requires LexSpec(s, line, strtod).Ok?
    ensures Placed(s, line, LexSpec(s, line, strtod).value, at, 0)
    decreases |s|
  {
    hide Front, FrontToken, IsAt, Stands, Gap, Newlines, Spelling, Placed;
    if s == "" {
      at := [0];
      NothingPlaced(line);
    } else {
      PieceLines(s, strtod);
      match Front(s, strtod)
      case Blank(n) =>
        var rest := Places(s[n..], if s[0] == '\n' then line + 1 else line, strtod);
        at := Shifted(rest, n);
        BlankIsGap(s, strtod);
        BlankPlaced(s, line, n, LexSpec(s, line, strtod).value, rest);
      case Piece(t, n) =>
        FrontIsToken(s, strtod);
        var rest := Places(s[n..], line, strtod);
        at := [0] + Shifted(rest, n);
        FirstToken(s, line, strtod);
        TokenPlaced(s, line, t.(line := line), LexSpec(s[n..], line, strtod).value, rest);
    }
  }

  lemma NothingPlaced(line: nat)
    ensures Placed("", line, [Token(End, "", 0, 0, line)], [0], 0)
  {
  }

  lemma FrontIsToken(s: string, strtod: string -> UInt64)
    requires s != "" && Front(s, strtod).Piece?
    ensures Front(s, strtod) == FrontToken(s, strtod) && s[0] != '\n'
  {
    hide FrontToken;
  }

  lemma BlankPlaced(s: string, line: nat, n: nat, ts: seq<Token>, rest: seq<nat>)
    requires n <= |s| && Gap(s, 0, n) && Placed(s[n..], line + Newlines(s[..n]), ts, rest, 0)
    ensures Placed(s, line, ts, Shifted(rest, n), 0)
  {
    hide IsAt, GapBehind, Gap, Newlines, Placed;
    PlacedShifts(s, n, line, ts, rest);
    PlacedEarlier(s, line, ts, Shifted(rest, n), n);
  }

  lemma PlacedEarlier(s: string, line: nat, ts: seq<Token>, at: seq<nat>, from: nat)
    requires Placed(s, line, ts, at, from) && Gap(s, 0, from)
    ensures Placed(s, line, ts, at, 0)
  {
    hide IsAt, GapBehind, Gap, Newlines;
    GapsJoin(s, 0, from, at[0]);
  }

  lemma TokenPlaced(s: string, line: nat, t: Token, ts: seq<Token>, rest: seq<nat>)
    requires IsAt(s, line, t, 0) && |Spelling(t)| <= |s|
    requires var n := |Spelling(t)|; Placed(s[n..], line + Newlines(s[..n]), ts, rest, 0)
    ensures Placed(s, line, [t] + ts, [0] + Shifted(rest, |Spelling(t)|), 0)
  {
    var n := |Spelling(t)|;
    hide IsAt, Gap, Newlines, Placed, Spelling;
    PlacedShifts(s, n, line, ts, rest);
    PlacedFrom(s, line, ts, Shifted(rest, n), n);
    NoGap(s);
    OneMorePlace(s, line, t, ts, 0, Shifted(rest, n), n);
  }

  lemma PlacedFrom(s: string, line: nat, ts: seq<Token>, at: seq<nat>, from: nat)
    requires Placed(s, line, ts, at, from)
    ensures |at| > 0 && Gap(s, from, at[0])
  {
  }

  lemma FirstToken(s: string, line: nat, strtod: string -> UInt64)
    requires s != "" && FrontToken(s, strtod).Piece?
    ensures var p := FrontToken(s, strtod); IsAt(s, line, p.token.(line := line), 0) && |Spelling(p.token.(line := line))| == p.n
  {
    FrontStands(s, strtod);
    hide FrontToken, Stands, Gap, Spelling, Newlines;
    LineApart(s, 0, FrontToken(s, strtod).token, line);
    NoGap(s);
  }

  lemma OneMorePlace(s: string, line: nat, t: Token, ts: seq<Token>, i: nat, up: seq<nat>, n: nat)
    requires Placed(s, line, ts, up, n) && IsAt(s, line, t, i) && GapBehind(s, t, i, up[0]) && Gap(s, 0, i)
    ensures Placed(s, line, [t] + ts, [i] + up, 0)
  {
    hide IsAt, GapBehind, Gap, Newlines;
    var all, at := [t] + ts, [i] + up;
    forall k | 0 <= k < |all| - 1 ensures IsAt(s, line, all[k], at[k]) && GapBehind(s, all[k], at[k], at[k + 1]) {
      if k > 0 { assert all[k] == ts[k - 1] && at[k] == up[k - 1] && at[k + 1] == up[k]; } else { assert at[1] == up[0]; }
    }
  }

  lemma NoGap(s: string)
    ensures Gap(s, 0, 0) && Newlines(s[..0]) == 0
  {
  }

  // A floating-point literal has the bits that strtod makes of its text.
  predicate FloatRead(t: Token, strtod: string -> UInt64) { t.kind == FloatLiteral ==> t.floatValue == strtod(t.text) }

  lemma FrontFloat(s: string, strtod: string -> UInt64)
    requires s != "" && Front(s, strtod).Piece?
    ensures FloatRead(Front(s, strtod).token, strtod)
  {
    hide NumberEnd, HasFraction, Strtoll, Run;
  }

  lemma {:induction false} FloatsAreRead(s: string, line: nat, strtod: string -> UInt64)
    requires LexSpec(s, line, strtod).Ok?
    ensures forall t :: t in LexSpec(s, line, strtod).value ==> FloatRead(t, strtod)
    decreases |s|
  {
    hide Front;
    if s != "" {
      match Front(s, strtod)
      case Blank(n) => FloatsAreRead(s[n..], if s[0] == '\n' then line + 1 else line, strtod);
      case Piece(t, n) =>
        FloatsAreRead(s[n..], line, strtod);
        FrontFloat(s, strtod);
    }
  }

  // ---------------------------------------------------------------- errors

  // A character that starts no token, no blank and no comment.
  predicate Foreign(c: char) {
    !IsSpace(c) && !IsIdentStart(c) && !IsDigit(c) && c !in [';', '$', ':', ',', '(', ')', '{', '}', '.', '-']
  }

  // What is wrong at position p, on its line.
  predicate WrongAt(s: string, line: nat, p: nat, e: LexError) {
    && p < |s| && e.line == line + Newlines(s[..p])
    && if e.ExpectedParameterName? then s[p] == '$' && (p + 1 == |s| || !IsIdentStart(s[p + 1])) else s[p] == e.c && Foreign(e.c)
  }

  lemma WrongShifts(s: string, n: nat, line: nat, p: nat, e: LexError)
    requires n <= |s| && WrongAt(s[n..], line + Newlines(s[..n]), p, e)
    ensures WrongAt(s, line, n + p, e)
  {
    hide Newlines, Foreign;
    NewlinesUpTo(s, n, p);
  }

  // A text is refused at a `$` that no name follows, or at a character that starts nothing; the error has its line.
  lemma {:induction false} ErrorPlace(s: string, line: nat, strtod: string -> UInt64) returns (p: nat)
    requires LexSpec(s, line, strtod).Err?
    ensures WrongAt(s, line, p, LexSpec(s, line, strtod).error)
    decreases |s|
  {
    hide Front, Newlines, WrongAt;
    if Front(s, strtod).Unknown? {
      p := 0;
      UnknownFront(s, line, strtod);
    } else {
      PieceLines(s, strtod);
      var n := Front(s, strtod).n;
      if Front(s, strtod).Piece? { FrontIsToken(s, strtod); }
      var q := ErrorPlace(s[n..], line + Newlines(s[..n]), strtod);
      p := n + q;
      WrongShifts(s, n, line, q, LexSpec(s, line, strtod).error);
    }
  }

  lemma UnknownFront(s: string, line: nat, strtod: string -> UInt64)
    requires s != "" && Front(s, strtod).Unknown?
    ensures WrongAt(s, line, 0, AtLine(Front(s, strtod).error, line))
  {
    hide NumberToken, NumberEnd;
    NoGap(s);
    if s[0] == '$' && |s| > 1 && IsIdentStart(s[1]) { IdentRun(s, 1); }
  }
}
