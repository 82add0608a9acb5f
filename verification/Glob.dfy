// Glob matching of file names (src/util/glob.cpp): the greedy matcher that goes back to the last star only.

module Glob {
  import opened Ast

  // A star stands for any run of characters, any other character for itself.
  predicate Matches(pattern: string, name: string) {
    if pattern == "" then name == ""
    else if pattern[0] == '*' then exists k | 0 <= k <= |name| :: Matches(pattern[1..], name[k..])
    else name != "" && name[0] == pattern[0] && Matches(pattern[1..], name[1..])
  }

  // The first m characters of the pattern are not stars.
  predicate Plain(pattern: string, m: nat) {
    m <= |pattern| && forall i :: 0 <= i < m ==> pattern[i] != '*'
  }

  lemma {:induction false} PlainMatches(pattern: string, name: string, m: nat)
    requires Plain(pattern, m)
    ensures Matches(pattern, name) <==> m <= |name| && name[..m] == pattern[..m] && Matches(pattern[m..], name[m..])
    decreases m
  {
    if m == 0 {
      assert pattern[0..] == pattern && name[0..] == name;
    } else {
      FirstPlain(pattern, name);
      hide Matches;
      assert pattern[1..][m - 1..] == pattern[m..];
      if name != "" {
        PlainMatches(pattern[1..], name[1..], m - 1);
        if m <= |name| {
          assert name[1..][m - 1..] == name[m..];
          FirstAndRest(pattern, name, m);
        }
      }
    }
  }

  lemma FirstPlain(pattern: string, name: string)
    requires pattern != "" && pattern[0] != '*'
    ensures Matches(pattern, name) <==> name != "" && name[0] == pattern[0] && Matches(pattern[1..], name[1..])
  {
  }

  lemma FirstAndRest(a: string, b: string, m: nat)
    requires 0 < m <= |a| && m <= |b|
    ensures a[..m] == b[..m] <==> a[0] == b[0] && a[1..][..m - 1] == b[1..][..m - 1]
  {
    assert a[..m] == [a[0]] + a[1..][..m - 1] && b[..m] == [b[0]] + b[1..][..m - 1];
  }

  lemma {:induction false} OnlyStarsMatchNothing(pattern: string)
    ensures Matches(pattern, "") <==> forall i :: 0 <= i < |pattern| ==> pattern[i] == '*'
  {
    if pattern != "" {
      OnlyStarsMatchNothing(pattern[1..]);
      assert ""[0..] == "";
      assert forall i :: 1 <= i < |pattern| ==> pattern[i] == pattern[1..][i - 1];
    }
  }

  // Some tail of the name that starts behind position j matches.
  predicate LaterMatch(pattern: string, name: string, j: nat) {
    exists k | j < k <= |name| :: Matches(pattern, name[k..])
  }

  // What is known about the last star: what follows it was matched, character by character, with the name
  // from starN to n.
  predicate SinceStar(pattern: string, name: string, starP: nat, starN: nat, p: nat, n: nat) {
    && starP < p <= |pattern| && starN <= n <= |name| && p - (starP + 1) == n - starN
    && Plain(pattern[starP + 1..], n - starN)
    && pattern[starP + 1..p] == name[starN..n]
  }

  // A star is met: from here on only this star matters, whatever the earlier one could still have matched.
  lemma LastStarSuffices(pattern: string, name: string, starP: nat, starN: nat, p: nat, n: nat)
    requires SinceStar(pattern, name, starP, starN, p, n) && p < |pattern| && pattern[p] == '*'
    requires LaterMatch(pattern[starP + 1..], name, starN)
    ensures Matches(pattern[p..], name[n..])
  {
    var rest, m := pattern[starP + 1..], n - starN;
    var k :| starN < k <= |name| && Matches(rest, name[k..]);
    PlainMatches(rest, name[k..], m);
    assert rest[m..] == pattern[p..] && name[k..][m..] == name[k + m..];
    var tail := pattern[p..];
    assert tail[1..] == pattern[p + 1..];
    var i :| 0 <= i <= |name[k + m..]| && Matches(tail[1..], name[k + m..][i..]);
    var j := k + m + i - n;
    assert name[n..][j..] == name[k + m..][i..];
  }

  // At the end of the name nothing is left for an earlier star to match.
  lemma NothingLater(pattern: string, name: string, starP: nat, starN: nat, p: nat)
    requires SinceStar(pattern, name, starP, starN, p, |name|)
    ensures !LaterMatch(pattern[starP + 1..], name, starN)
  {
    var rest, m := pattern[starP + 1..], |name| - starN;
    forall k | starN < k <= |name| ensures !Matches(rest, name[k..]) {
      PlainMatches(rest, name[k..], m);
    }
  }

  // Moving one position behind the star's first candidate.
  lemma NextCandidate(pattern: string, name: string, j: nat)
    requires j < |name|
    ensures LaterMatch(pattern, name, j) <==> Matches(pattern, name[j + 1..]) || LaterMatch(pattern, name, j + 1)
  {
  }

  lemma StarMatches(pattern: string, name: string, p: nat, n: nat)
    requires p < |pattern| && pattern[p] == '*' && n <= |name|
    ensures Matches(pattern[p..], name[n..]) <==> Matches(pattern[p + 1..], name[n..]) || LaterMatch(pattern[p + 1..], name, n)
  {
    var tail, left := pattern[p..], name[n..];
    assert tail[1..] == pattern[p + 1..];
    if Matches(tail, left) {
      var k :| 0 <= k <= |left| && Matches(tail[1..], left[k..]);
      assert left[k..] == name[n + k..];
    }
    if Matches(pattern[p + 1..], name[n..]) {
      assert left[0..] == left;
    } else if LaterMatch(pattern[p + 1..], name, n) {
      var k :| n < k <= |name| && Matches(pattern[p + 1..], name[k..]);
      assert left[k - n..] == name[k..];
    }
  }

  lemma OneCharacter(pattern: string, name: string, p: nat, n: nat)
    requires p <= |pattern| && n < |name| && (p < |pattern| ==> pattern[p] != '*')
    ensures Matches(pattern[p..], name[n..]) <==>
      p < |pattern| && pattern[p] == name[n] && Matches(pattern[p + 1..], name[n + 1..])
  {
    if p < |pattern| {
      assert pattern[p..][1..] == pattern[p + 1..] && name[n..][1..] == name[n + 1..];
    }
  }

  // Always terminates, and says exactly whether the name matches. A star position of -1 is std::string::npos.
  method MatchSegment(pattern: string, name: string) returns (r: bool)
    ensures r <==> Matches(pattern, name)
  {
    hide Matches, LaterMatch, SinceStar;
    var p, n := 0, 0;
    var starP: int, starN := -1, 0;
    assert pattern[0..] == pattern && name[0..] == name;
    while n < |name|
      invariant 0 <= p <= |pattern| && 0 <= n <= |name| && -1 <= starP < |pattern| && 0 <= starN <= n
      invariant starP >= 0 ==> SinceStar(pattern, name, starP, starN, p, n)
      invariant Matches(pattern, name) <==>
        Matches(pattern[p..], name[n..]) || (starP >= 0 && LaterMatch(pattern[starP + 1..], name, starN))
      decreases |name| - starN, |pattern| - starP, |name| - n
    {
      if p < |pattern| && pattern[p] == '*' {
        if starP >= 0 && LaterMatch(pattern[starP + 1..], name, starN) {
          LastStarSuffices(pattern, name, starP, starN, p, n);
        }
        StarMatches(pattern, name, p, n);
        Behind(pattern, name, starP, starN, p, n);
        starP := p;
        p := p + 1;
        starN := n;
        JustStarred(pattern, name, starP, starN);
      } else if p < |pattern| && pattern[p] == name[n] {
        OneCharacter(pattern, name, p, n);
        if starP >= 0 { OneMore(pattern, name, starP, starN, p, n); }
        p := p + 1;
        n := n + 1;
      } else if starP != -1 {
        OneCharacter(pattern, name, p, n);
        NextCandidate(pattern[starP + 1..], name, starN);
        p := starP + 1;
        starN := starN + 1;
        n := starN;
        JustStarred(pattern, name, starP, starN);
      } else {
        OneCharacter(pattern, name, p, n);
        return false;
      }
    }
    if starP >= 0 { NothingLater(pattern, name, starP, starN, p); }
    assert name[n..] == "";
    ghost var left := p;
    while p < |pattern| && pattern[p] == '*'
      invariant left <= p <= |pattern| && forall i :: left <= i < p ==> pattern[i] == '*'
    {
      p := p + 1;
    }
    StarsLeft(pattern, left, p);
    return p == |pattern|;
  }

  // The rest of the pattern matches nothing more exactly when the stars skipped were all of it.
  lemma StarsLeft(pattern: string, left: nat, p: nat)
    requires left <= p <= |pattern| && (forall i :: left <= i < p ==> pattern[i] == '*')
    requires p < |pattern| ==> pattern[p] != '*'
    ensures Matches(pattern[left..], "") <==> p == |pattern|
  {
    hide Matches;
    var rest := pattern[left..];
    OnlyStarsMatchNothing(rest);
    assert forall i :: 0 <= i < |rest| ==> rest[i] == pattern[left + i];
    if p < |pattern| { assert rest[p - left] == pattern[p]; }
  }

  lemma Behind(pattern: string, name: string, starP: int, starN: nat, p: nat, n: nat)
    requires starP >= 0 ==> SinceStar(pattern, name, starP, starN, p, n)
    ensures starP >= 0 ==> starP < p
  {
  }

  lemma JustStarred(pattern: string, name: string, starP: nat, starN: nat)
    requires starP < |pattern| && starN <= |name|
    ensures SinceStar(pattern, name, starP, starN, starP + 1, starN)
  {
  }

  lemma OneMore(pattern: string, name: string, starP: nat, starN: nat, p: nat, n: nat)
    requires SinceStar(pattern, name, starP, starN, p, n) && p < |pattern| && n < |name|
    requires pattern[p] == name[n] && pattern[p] != '*'
    ensures SinceStar(pattern, name, starP, starN, p + 1, n + 1)
  {
    assert pattern[starP + 1..p + 1] == pattern[starP + 1..p] + [pattern[p]];
    assert name[starN..n + 1] == name[starN..n] + [name[n]];
  }

  // ---------------------------------------------------------------- recursive patterns

  // expandGlob writes one star for each `**` of a pattern.
  function Collapse(pattern: string): string {
    if pattern == "" then ""
    else if |pattern| >= 2 && pattern[..2] == "**" then "*" + Collapse(pattern[2..])
    else [pattern[0]] + Collapse(pattern[1..])
  }

  // The loop below looks at two characters, then moves on by two or by one.
  lemma CollapseFrom(pattern: string, i: nat)
    requires i <= |pattern|
    ensures Collapse(pattern[i..]) ==
      if i == |pattern| then ""
      else if i + 2 <= |pattern| && pattern[i..i + 2] == "**" then "*" + Collapse(pattern[i + 2..])
      else [pattern[i]] + Collapse(pattern[i + 1..])
  {
    var rest := pattern[i..];
    if i < |pattern| { assert rest[1..] == pattern[i + 1..] && rest[0] == pattern[i]; }
    if i + 2 <= |pattern| { assert rest[2..] == pattern[i + 2..] && rest[..2] == pattern[i..i + 2]; }
  }

  method NamePattern(filePattern: string) returns (namePattern: string)
    ensures namePattern == Collapse(filePattern)
  {
    namePattern := "";
    var i := 0;
    hide Collapse;
    assert filePattern[0..] == filePattern;
    while i < |filePattern|
      invariant 0 <= i <= |filePattern|
      invariant Collapse(filePattern) == namePattern + Collapse(filePattern[i..])
    {
      CollapseFrom(filePattern, i);
      if i + 2 <= |filePattern| && filePattern[i..i + 2] == "**" {
        Assoc(namePattern, "*", Collapse(filePattern[i + 2..]));
        namePattern := namePattern + "*";
        i := i + 2;
      } else {
        Assoc(namePattern, [filePattern[i]], Collapse(filePattern[i + 1..]));
        namePattern := namePattern + [filePattern[i]];
        i := i + 1;
      }
    }
    CollapseFrom(filePattern, i);
  }

  // The name pattern means what the pattern with `**` means: two stars match what one does.
  lemma {:induction false} CollapseMatches(pattern: string, name: string)
    ensures Matches(Collapse(pattern), name) <==> Matches(pattern, name)
    decreases |pattern|
  {
    if pattern == "" {
    } else if |pattern| >= 2 && pattern[..2] == "**" {
      var rest := pattern[2..];
      var once := "*" + rest;
      assert pattern[..2][1] == '*' && pattern[1..] == once && once[1..] == rest;
      assert ("*" + Collapse(rest))[1..] == Collapse(rest);
      forall k | 0 <= k <= |name| ensures Matches(Collapse(rest), name[k..]) <==> Matches(rest, name[k..]) {
        CollapseMatches(rest, name[k..]);
      }
      TwoStars(rest, name);
      hide Matches, Collapse;
    } else {
      assert Collapse(pattern)[1..] == Collapse(pattern[1..]);
      forall k | 0 <= k <= |name| ensures Matches(Collapse(pattern[1..]), name[k..]) <==> Matches(pattern[1..], name[k..]) {
        CollapseMatches(pattern[1..], name[k..]);
      }
    }
  }

  lemma TwoStars(rest: string, name: string)
    ensures Matches("**" + rest, name) <==> exists k | 0 <= k <= |name| :: Matches(rest, name[k..])
    ensures Matches("**" + rest, name) <==> Matches("*" + rest, name)
  {
    var once, twice := "*" + rest, "**" + rest;
    assert once[1..] == rest && twice[1..] == once;
    if Matches(twice, name) {
      var k :| 0 <= k <= |name| && Matches(once, name[k..]);
      var i :| 0 <= i <= |name[k..]| && Matches(rest, name[k..][i..]);
      assert name[k..][i..] == name[k + i..];
    }
    if Matches(once, name) {
      assert name[0..] == name;
      assert Matches(twice[1..], name[0..]);
    }
  }
}
