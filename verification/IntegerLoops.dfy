// Integer square root, power, greatest common divisor and least common multiple (src/vm/interpreter.cpp).

module IntegerLoops {
  import opened Ast
  import opened Bits

  const TWO_TO_127: int := 0x8000_0000_0000_0000_0000_0000_0000_0000

  // Int128 arithmetic.
  function WrapSigned(v: int): int {
    if Wrap128(v) >= TWO_TO_127 then Wrap128(v) - TWO_TO_128 else Wrap128(v)
  }

  // ---------------------------------------------------------------- square root

  lemma Monotone(a: int, b: int, c: int)
    requires a <= b && c >= 0
    ensures a * c <= b * c
  {
  }

  lemma Squares(a: int, b: int)
    ensures (a + b) * (a + b) == (a - b) * (a - b) + 4 * (a * b)
  {
  }

  lemma SquareNotNegative(d: int)
    ensures d * d >= 0
  {
  }

  lemma Division(n: nat, x: nat) returns (q: int, r: int)
    requires x > 0
    ensures n == x * q + r && 0 <= r < x && q == n / x && q >= 0
  {
    q, r := n / x, n % x;
  }

  // Newton's step never goes below the root.
  lemma NewtonStaysAbove(n: nat, x: int, q: int, r: int, y: int)
    requires n == x * q + r && 0 <= r < x && q >= 0 && y == (x + q) / 2
    ensures n < (y + 1) * (y + 1)
  {
    var s, t, u := x + q + 1, 2 * (y + 1), y + 1;
    Squares(x, q + 1);
    SquareNotNegative(x - (q + 1));
    assert x * (q + 1) == x * q + x;
    assert 4 * n < s * s;
    Monotone(s, t, s);
    Monotone(s, t, t);
    assert t * t == 4 * (u * u);
  }

  // The loop stops where the step no longer decreases: there x is at most the root.
  lemma NewtonStops(n: nat, x: int, q: int, r: int)
    requires n == x * q + r && 0 <= r < x && (x + q) / 2 >= x
    ensures x * x <= n
  {
    Monotone(x, q, x);
  }

  lemma ZeroTimes(x: int)
    ensures x * 0 == 0
  {
  }

  lemma NewtonPositive(n: nat, x: int, q: int, r: int)
    requires n == x * q + r && 0 <= r < x <= n && q >= 0
    ensures 1 <= q <= n
  {
    if q == 0 {
      ZeroTimes(x);
    } else {
      Monotone(1, x, q);
    }
  }

  // x is not below the root of n, and y is Newton's next step.
  predicate Approach(n: nat, x: nat, y: nat) {
    1 <= x <= n && y == (x + n / x) / 2 && n < (x + 1) * (x + 1)
  }

  lemma ApproachStarts(n: nat)
    requires n > 0
    ensures Approach(n, n, (n + 1) / 2)
  {
    DivModUnique(n, n, 1, 0);
    Squares(n, 1);
    SquareNotNegative(n - 1);
  }

  // Newton's step in UInt128 arithmetic.
  function NextGuess(n: nat, x: nat): nat
    requires x > 0
  {
    Wrap128(x + n / x) / 2
  }

  // A sum of two numbers below 2^127 does not wrap.
  lemma NextGuessExact(n: nat, y: nat, sum: nat)
    requires y > 0 && sum == y + n / y && sum < TWO_TO_128
    ensures NextGuess(n, y) == sum / 2
  {
    hide Wrap128;
    Wrap128Small(sum);
  }

  // The next guess is still positive and not below the root.
  lemma StepsDown(n: nat, x: nat, y: nat)
    requires Approach(n, x, y) && y < x
    ensures 1 <= y <= n && n < (y + 1) * (y + 1)
  {
    var q, rest := Division(n, x);
    NewtonStaysAbove(n, x, q, rest, y);
    NewtonPositive(n, x, q, rest);
  }

  lemma ApproachIs(n: nat, y: nat)
    requires 1 <= y <= n && n < (y + 1) * (y + 1)
    ensures Approach(n, y, (y + n / y) / 2) && y + n / y <= n + n
  {
    var q, rest := Division(n, y);
    NewtonPositive(n, y, q, rest);
  }

  lemma ApproachNext(n: nat, x: nat, y: nat)
    requires n < TWO_TO_127 && Approach(n, x, y) && y < x
    ensures y >= 1 && Approach(n, y, NextGuess(n, y))
  {
    hide Approach, NextGuess, Wrap128;
    StepsDown(n, x, y);
    ApproachIs(n, y);
    NextGuessExact(n, y, y + n / y);
  }

  predicate IsRoot(n: nat, r: nat) { r * r <= n < (r + 1) * (r + 1) }

  lemma ApproachEnds(n: nat, x: nat, y: nat)
    requires Approach(n, x, y) && y >= x
    ensures IsRoot(n, x)
  {
    var q, rest := Division(n, x);
    NewtonStops(n, x, q, rest);
  }

  // Every value a non-negative Int128 can have.
  method Uisqrt(n: nat) returns (r: nat)
    requires n < TWO_TO_127
    ensures IsRoot(n, r)
  {
    if n == 0 { return 0; }
    hide Approach, NextGuess, IsRoot, Wrap128;
    Wrap128Small(n + 1);
    var x: nat, y: nat := n, Wrap128(n + 1) / 2;
    ApproachStarts(n);
    while y < x
      invariant x >= 1 && Approach(n, x, y)
      decreases x
    {
      ApproachNext(n, x, y);
      x := y;
      y := NextGuess(n, x);
    }
    ApproachEnds(n, x, y);
    r := x;
  }

  // ---------------------------------------------------------------- power

  function Power(b: int, e: nat): int {
    if e == 0 then 1 else b * Power(b, e - 1)
  }

  lemma {:induction false} PowerSquare(b: int, e: nat)
    ensures Power(b, 2 * e) == Power(b * b, e)
  {
    if e > 0 {
      PowerSquare(b, e - 1);
      assert Power(b, 2 * e) == b * (b * Power(b, 2 * (e - 1)));
      assert b * (b * Power(b, 2 * (e - 1))) == (b * b) * Power(b, 2 * (e - 1));
    }
  }

  // Equal modulo 2^128.
  predicate Same(a: int, b: int) { Wrap128(a) == Wrap128(b) }

  lemma SameBy(a: int, b: int, k: int)
    requires a == b + k * TWO_TO_128
    ensures Same(a, b)
  {
    DivModUnique(a, TWO_TO_128, b / TWO_TO_128 + k, b % TWO_TO_128);
  }

  lemma SameProducts(a: int, b: int, c: int, d: int)
    requires Same(a, b) && Same(c, d)
    ensures Same(a * c, b * d)
  {
    var k, l := a / TWO_TO_128 - b / TWO_TO_128, c / TWO_TO_128 - d / TWO_TO_128;
    assert a == b + k * TWO_TO_128 && c == d + l * TWO_TO_128;
    assert a * c == b * d + (b * l + k * d + k * l * TWO_TO_128) * TWO_TO_128 by {
      assert a * c == b * c + k * TWO_TO_128 * c;
      assert b * c == b * d + b * l * TWO_TO_128;
      assert k * TWO_TO_128 * c == k * d * TWO_TO_128 + k * l * TWO_TO_128 * TWO_TO_128;
    }
    SameBy(a * c, b * d, b * l + k * d + k * l * TWO_TO_128);
  }

  lemma SignedSame(v: int)
    ensures Same(WrapSigned(v), v) && -TWO_TO_127 <= WrapSigned(v) < TWO_TO_127
  {
  }

  lemma {:induction false} SamePowers(a: int, b: int, e: nat)
    requires Same(a, b)
    ensures Same(Power(a, e), Power(b, e))
  {
    if e > 0 {
      SamePowers(a, b, e - 1);
      SameProducts(a, b, Power(a, e - 1), Power(b, e - 1));
    }
  }

  // One round of square and multiply.
  lemma PowerRound(r: int, b: int, e: nat)
    requires e > 0
    ensures Same(WrapSigned(if e % 2 == 1 then r * b else r) * Power(WrapSigned(b * b), e / 2), r * Power(b, e))
  {
    hide Same, Wrap128, WrapSigned, Power;
    var half := e / 2;
    var r1 := if e % 2 == 1 then r * b else r;
    PowerSquare(b, half);
    PowerNext(b, 2 * half);
    assert r1 * Power(b * b, half) == r * Power(b, e) by {
      if e % 2 == 1 { assert (r * b) * Power(b * b, half) == r * (b * Power(b * b, half)); }
    }
    SignedSame(r1);
    SignedSame(b * b);
    SamePowers(WrapSigned(b * b), b * b, half);
    SameProducts(WrapSigned(r1), r1, Power(WrapSigned(b * b), half), Power(b * b, half));
  }

  lemma PowerNext(b: int, e: nat)
    ensures Power(b, e + 1) == b * Power(b, e)
  {
  }

  // base to the exp, modulo 2^128; a negative exponent is an error. Products wrap.
  method Ipow(base: int, exp: int) returns (r: Option<int>)
    requires -TWO_TO_127 <= base < TWO_TO_127
    ensures r == if exp < 0 then None else Some(WrapSigned(Power(base, exp)))
  {
    if exp < 0 { return None; }
    hide Power, Same, Wrap128;
    var product, b, e := 1, base, exp;
    assert product * Power(b, e) == Power(base, exp);
    SameIsEqual(product * Power(b, e), Power(base, exp));
    while e > 0
      invariant e >= 0 && -TWO_TO_127 <= product < TWO_TO_127
      invariant Same(product * Power(b, e), Power(base, exp))
    {
      PowerRound(product, b, e);
      SignedInRange(product);
      SameChain(WrapSigned(if e % 2 == 1 then product * b else product) * Power(WrapSigned(b * b), e / 2),
                product * Power(b, e), Power(base, exp));
      if e % 2 == 1 { product := WrapSigned(product * b); }
      SignedSame(product);
      b := WrapSigned(b * b);
      e := e / 2;
    }
    PowerZero(b);
    SignedUnique(product, Power(base, exp));
    r := Some(product);
  }

  lemma PowerZero(b: int)
    ensures Power(b, 0) == 1
  {
  }

  lemma SameIsEqual(a: int, b: int)
    requires a == b
    ensures Same(a, b)
  {
  }

  lemma SameChain(a: int, b: int, c: int)
    requires Same(a, b) && Same(b, c)
    ensures Same(a, c)
  {
  }

  lemma SignedInRange(v: int)
    requires -TWO_TO_127 <= v < TWO_TO_127
    ensures WrapSigned(v) == v
  {
  }

  lemma SignedUnique(v: int, w: int)
    requires -TWO_TO_127 <= v < TWO_TO_127 && Same(v, w)
    ensures v == WrapSigned(w)
  {
    SignedInRange(v);
  }

  // ---------------------------------------------------------------- greatest common divisor

  ghost predicate Divides(d: int, a: int) { exists k: int :: a == k * d }

  // The loop as a recursion.
  function Euclid(p: nat, q: nat): nat
    decreases q
  {
    if q == 0 then p else Euclid(q, p % q)
  }

  // p and q are multiples of their Euclid, and it is a combination of them.
  lemma {:induction false} Bezout(p: nat, q: nat) returns (s: int, t: int)
    ensures Euclid(p, q) == s * p + t * q
    ensures Divides(Euclid(p, q), p) && Divides(Euclid(p, q), q)
    decreases q
  {
    if q == 0 {
      s, t := 1, 0;
      assert p == 1 * p && q == 0 * p;
    } else {
      var s', t' := Bezout(q, p % q);
      assert Euclid(p, q) == Euclid(q, p % q);
      hide Euclid, Divides;
      var d, rest := Division(p, q);
      s, t := t', s' - t' * d;
      Combine(p, q, d, rest, s', t');
      DividesCombination(p, q, d, rest, Euclid(p, q));
    }
  }

  // What divides the divisor and the remainder divides the dividend.
  lemma DividesCombination(p: int, q: int, d: int, m: int, g: int)
    requires p == q * d + m && Divides(g, q) && Divides(g, m)
    ensures Divides(g, p)
  {
    var k: int :| q == k * g;
    var l: int :| m == l * g;
    MultipleSum(k, l, d, g);
    assert p == (k * d + l) * g;
  }

  lemma MultipleSum(k: int, l: int, d: int, g: int)
    ensures (k * d + l) * g == (k * g) * d + l * g
  {
    assert (k * d) * g == (k * g) * d;
  }

  lemma Combine(p: int, q: int, d: int, m: int, s: int, t: int)
    requires p == q * d + m
    ensures s * q + t * m == t * p + (s - t * d) * q
  {
    assert t * p == t * (d * q) + t * m;
    assert (s - t * d) * q == s * q - (t * d) * q;
    assert (t * d) * q == t * (d * q);
  }

  lemma {:induction false} EuclidPositive(p: nat, q: nat)
    ensures Euclid(p, q) == 0 <==> p == 0 && q == 0
    decreases q
  {
    if q > 0 { EuclidPositive(q, p % q); }
  }

  // Euclid's number divides both, and whatever divides both divides it.
  lemma EuclidIsGreatest(p: nat, q: nat)
    ensures Divides(Euclid(p, q), p) && Divides(Euclid(p, q), q)
    ensures forall d: int :: Divides(d, p) && Divides(d, q) ==> Divides(d, Euclid(p, q))
    ensures forall d: int :: Divides(d, p) && Divides(d, q) && (p > 0 || q > 0) ==> d <= Euclid(p, q)
  {
    var s, t := Bezout(p, q);
    EuclidPositive(p, q);
    hide Euclid;
    forall d: int | Divides(d, p) && Divides(d, q)
      ensures Divides(d, Euclid(p, q)) && (p > 0 || q > 0 ==> d <= Euclid(p, q))
    {
      var k: int :| p == k * d;
      var l: int :| q == l * d;
      CombinedMultiple(Euclid(p, q), s, p, t, q, k, l, d);
      if Euclid(p, q) > 0 && d > 0 { DivisorBound(Euclid(p, q), s * k + t * l, d); }
    }
  }

  lemma CombinedMultiple(g: int, s: int, p: int, t: int, q: int, k: int, l: int, d: int)
    requires g == s * p + t * q && p == k * d && q == l * d
    ensures g == (s * k + t * l) * d
  {
    assert s * (k * d) == (s * k) * d && t * (l * d) == (t * l) * d;
    assert (s * k + t * l) * d == (s * k) * d + (t * l) * d;
  }

  lemma DivisorBound(g: int, c: int, d: int)
    requires g > 0 && d > 0 && g == c * d
    ensures d <= g
  {
    if c <= 0 { Monotone(c, 0, d); } else { Monotone(1, c, d); }
  }

  method Gcd(ux: nat, uy: nat) returns (p: nat)
    ensures p == Euclid(ux, uy)
  {
    p := ux;
    var q: nat := uy;
    while q != 0
      invariant Euclid(p, q) == Euclid(ux, uy)
      decreases q
    {
      var t := p % q;
      p := q;
      q := t;
    }
  }

  // ---------------------------------------------------------------- least common multiple

  // The value before it is narrowed to the type.
  function LcmSpec(ux: nat, uy: nat): nat {
    if ux == 0 || uy == 0 then 0
    else
      EuclidPositive(ux, uy);
      Monotone(0, ux / Euclid(ux, uy), uy);
      (ux / Euclid(ux, uy)) * uy
  }

  lemma ExactQuotient(a: nat, k: int, g: nat)
    requires g > 0 && a == k * g
    ensures a / g == k && k >= 0
  {
    DivModUnique(a, g, k, 0);
  }

  lemma LcmOfPositive(a: nat, b: nat)
    requires a > 0 && b > 0
    ensures LcmSpec(a, b) * Euclid(a, b) == a * b
    ensures Divides(a, LcmSpec(a, b)) && Divides(b, LcmSpec(a, b))
    ensures forall c: int :: Divides(a, c) && Divides(b, c) ==> Divides(LcmSpec(a, b), c)
  {
    EuclidPositive(a, b);
    var s, t := Bezout(a, b);
    var g, m := Euclid(a, b), LcmSpec(a, b);
    var i: int :| a == i * g;
    var j: int :| b == j * g;
    ExactQuotient(a, i, g);
    assert m == i * b;
    Reorder(i, b, g);
    assert m * g == a * b;
    assert m == j * a by { Reorder(i, j, g); }
    forall c: int | Divides(a, c) && Divides(b, c) ensures Divides(m, c) {
      var x: int :| c == x * a;
      var y: int :| c == y * b;
      MultipleOf(c, x, y, a, b, s, t, g, m);
      assert c == (y * s + x * t) * m;
    }
  }

  // lcm * gcd is a * b; the lcm is a common multiple, and every common multiple is a multiple of it. That holds for
  // zero operands as well: zero is the only multiple of zero.
  lemma LcmIsLeast(a: nat, b: nat)
    ensures LcmSpec(a, b) * Euclid(a, b) == a * b
    ensures Divides(a, LcmSpec(a, b)) && Divides(b, LcmSpec(a, b))
    ensures forall c: int :: Divides(a, c) && Divides(b, c) ==> Divides(LcmSpec(a, b), c)
    ensures LcmSpec(a, b) == 0 <==> a == 0 || b == 0
  {
    if a > 0 && b > 0 {
      LcmOfPositive(a, b);
      LcmPositive(a, b);
    } else {
      assert 0 == 0 * a && 0 == 0 * b;
      forall c: int | Divides(a, c) && Divides(b, c) ensures Divides(0, c) {
        var x: int :| c == x * a;
        var y: int :| c == y * b;
        ZeroTimes(if a == 0 then x else y);
        assert c == 0 * 0;
      }
    }
  }

  lemma LcmPositive(a: nat, b: nat)
    requires a > 0 && b > 0 && LcmSpec(a, b) * Euclid(a, b) == a * b
    ensures LcmSpec(a, b) != 0
  {
    hide LcmSpec, Euclid;
    Monotone(1, a, b);
  }

  lemma Reorder(i: int, b: int, g: int)
    ensures (i * b) * g == (i * g) * b && i * (b * g) == b * (i * g)
  {
    assert (i * b) * g == i * (b * g);
  }

  lemma MultipleOf(c: int, x: int, y: int, a: int, b: int, s: int, t: int, g: int, m: int)
    requires c == x * a && c == y * b && g == s * a + t * b && m * g == a * b && g > 0
    ensures c == (y * s + x * t) * m
  {
    var e := y * s + x * t;
    Distribute(c, s * a, t * b);
    FourFactors(y, b, s, a);
    FourFactors(x, a, t, b);
    Distribute(a * b, y * s, x * t);
    Associate(e, m, g);
    assert c * g == (e * m) * g;
    Cancel(c, e * m, g);
  }

  lemma Distribute(c: int, u: int, v: int)
    ensures c * (u + v) == c * u + c * v && (u + v) * c == u * c + v * c
  {
  }

  lemma Associate(u: int, v: int, w: int)
    ensures u * (v * w) == (u * v) * w
  {
  }

  lemma FourFactors(y: int, b: int, s: int, a: int)
    ensures (y * b) * (s * a) == (y * s) * (a * b)
  {
    Associate(y * b, s, a);
    Associate(y, b, s);
    Associate(y, s, b);
    Associate(y * s, b, a);
  }

  lemma Cancel(u: int, v: int, g: int)
    requires g > 0 && u * g == v * g
    ensures u == v
  {
    DivModUnique(u * g, g, u, 0);
    DivModUnique(u * g, g, v, 0);
  }

  // The product fits UInt128 for operands of up to 64 bits.
  method Lcm(ux: UInt64, uy: UInt64) returns (r: nat)
    ensures r == LcmSpec(ux, uy) && r < TWO_TO_128
  {
    if ux == 0 || uy == 0 { return 0; }
    EuclidPositive(ux, uy);
    var p := Gcd(ux, uy);
    ghost var i, rest := Division(ux, p);
    Monotone(1, p, i);
    ProductFits(i, uy);
    r := Wrap128((ux / p) * uy);
  }

  lemma ProductFits(a: int, b: int)
    requires 0 <= a < 0x1_0000_0000_0000_0000 && 0 <= b < 0x1_0000_0000_0000_0000
    ensures 0 <= a * b < TWO_TO_128
  {
    Monotone(0, a, b);
    Monotone(b, 0x1_0000_0000_0000_0000, a);
  }
}
