/** `str::match` of `src/fastring.cc`: wildcard matching that only ever backtracks to the last
    star it has passed, against the recursive meaning of `*` and `?`. */
module Glob {

  /** The meaning of a pattern: `*` stands for any string and `?` for any one character. */
  predicate Matches(s: string, p: string)
    decreases |p|, |s|
  {
    if p == [] then s == []
    else if p[0] == '*' then Matches(s, p[1..]) || (s != [] && Matches(s[1..], p))
    else s != [] && Fits(s[0], p[0]) && Matches(s[1..], p[1..])
  }

  predicate Fits(c: char, p: char) {
    p == c || p == '?'
  }

  /** Number of characters the pattern consumes at least. */
  function Literals(p: string): nat {
    if p == [] then 0 else (if p[0] == '*' then 0 else 1) + Literals(p[1..])
  }

  /** `p` without a star matches `s` character by character. */
  ghost predicate FitsAll(s: string, p: string) {
    |s| == |p| && forall i :: 0 <= i < |p| ==> p[i] != '*' && Fits(s[i], p[i])
  }

  /** Some suffix of `s` matches `p`: what `*` in front of `p` means. */
  ghost predicate SomeSuffixMatches(s: string, p: string) {
    exists k :: MatchesFrom(s, k, p)
  }

  ghost predicate MatchesFrom(s: string, k: int, p: string) {
    0 <= k <= |s| && Matches(s[k..], p)
  }

  lemma {:induction false} StarMeansSomeSuffix(s: string, p: string)
    ensures Matches(s, ['*'] + p) <==> SomeSuffixMatches(s, p)
  {
    assert (['*'] + p)[1..] == p;
    assert s[0..] == s && (Matches(s, p) <==> MatchesFrom(s, 0, p));
    if s != [] {
      StarMeansSomeSuffix(s[1..], p);
      if SomeSuffixMatches(s[1..], p) {
        var k :| MatchesFrom(s[1..], k, p);
        assert s[1..][k..] == s[k + 1..];
        assert MatchesFrom(s, k + 1, p);
      }
      if k :| MatchesFrom(s, k, p) && k != 0 {
        assert s[1..][k - 1..] == s[k..];
        assert MatchesFrom(s[1..], k - 1, p);
      }
    }
  }

  /** The cuts divide `s` among the characters of the pattern: a star gets any stretch, the others get one
      character, which must be the same unless the pattern has a question mark. */
  ghost predicate Covers(s: string, p: string, cuts: seq<nat>) {
    && |cuts| == |p| + 1 && cuts[0] == 0 && cuts[|p|] == |s|
    && forall i :: 0 <= i < |p| ==> Stretch(s, p[i], cuts[i], cuts[i + 1])
  }

  predicate Stretch(s: string, c: char, a: nat, b: nat) {
    if c == '*' then a <= b <= |s| else a < |s| && b == a + 1 && (c == '?' || s[a] == c)
  }

  lemma {:induction false} CutsOf(s: string, p: string) returns (cuts: seq<nat>)
    requires Matches(s, p)
    ensures Covers(s, p, cuts)
    decreases |p|
  {
    if p == [] { return [0]; }
    var k := 1;
    if p[0] == '*' {
      assert ['*'] + p[1..] == p;
      StarMeansSomeSuffix(s, p[1..]);
      k :| MatchesFrom(s, k, p[1..]);
    }
    var rest := CutsOf(s[k..], p[1..]);
    cuts := [0] + seq(|rest|, i requires 0 <= i < |rest| => rest[i] + k);
    forall i | 0 <= i < |p| ensures Stretch(s, p[i], cuts[i], cuts[i + 1]) {
      if i > 0 { assert Stretch(s[k..], p[1..][i - 1], rest[i - 1], rest[i]); }
    }
  }

  lemma {:induction false} CutsMatch(s: string, p: string, cuts: seq<nat>)
    requires Covers(s, p, cuts)
    ensures Matches(s, p)
    decreases |p|
  {
    if p != [] {
      var k := cuts[1];
      assert Stretch(s, p[0], cuts[0], k);
      CutsGrow(s, p, cuts, 1);
      var rest := seq(|p|, i requires 0 <= i < |p| => cuts[i + 1] - k);
      forall i | 0 <= i < |p| - 1 ensures Stretch(s[k..], p[1..][i], rest[i], rest[i + 1]) {
        assert Stretch(s, p[i + 1], cuts[i + 1], cuts[i + 2]);
      }
      CutsMatch(s[k..], p[1..], rest);
      if p[0] == '*' {
        assert ['*'] + p[1..] == p;
        assert MatchesFrom(s, k, p[1..]);
        StarMeansSomeSuffix(s, p[1..]);
      }
    }
  }

  lemma {:induction false} CutsGrow(s: string, p: string, cuts: seq<nat>, k: nat)
    requires Covers(s, p, cuts) && k <= |p|
    ensures forall i :: k <= i <= |p| ==> cuts[k] <= cuts[i]
    decreases |p| - k
  {
    if k < |p| {
      assert Stretch(s, p[k], cuts[k], cuts[k + 1]);
      CutsGrow(s, p, cuts, k + 1);
    }
  }

  /** A string matches exactly if it can be divided among the characters of the pattern. */
  lemma MatchesIff(s: string, p: string)
    ensures Matches(s, p) <==> exists cuts :: Covers(s, p, cuts)
  {
    if Matches(s, p) {
      var cuts := CutsOf(s, p);
    }
    forall cuts | Covers(s, p, cuts) ensures Matches(s, p) {
      CutsMatch(s, p, cuts);
    }
  }

  /** Stars may swallow more: a suffix that matches from a later position also does from here. */
  lemma SuffixMatchExtends(s: string, p: string, k: nat)
    requires k <= |s| && SomeSuffixMatches(s[k..], p)
    ensures SomeSuffixMatches(s, p)
  {
    var i :| MatchesFrom(s[k..], i, p);
    assert s[k..][i..] == s[k + i..];
    assert MatchesFrom(s, k + i, p);
  }

  lemma {:induction false} MatchesNeedsLiterals(s: string, p: string)
    requires Matches(s, p)
    ensures Literals(p) <= |s|
    decreases |p|, |s|
  {
    if p != [] {
      if p[0] != '*' || !Matches(s, p[1..]) {
        MatchesNeedsLiterals(s[1..], if p[0] == '*' then p else p[1..]);
      } else {
        MatchesNeedsLiterals(s, p[1..]);
      }
    }
  }

  lemma {:induction false} OnlyStars(p: string)
    ensures Matches([], p) <==> Literals(p) == 0
  {
    if p != [] { OnlyStars(p[1..]); }
  }

  lemma {:induction false} LiteralsAppend(a: string, b: string)
    ensures Literals(a + b) == Literals(a) + Literals(b)
  {
    if a == [] {
      assert a + b == b;
    } else {
      assert (a + b)[1..] == a[1..] + b;
      LiteralsAppend(a[1..], b);
    }
  }

  lemma {:induction false} LiteralsOfStarFree(a: string)
    requires '*' !in a
    ensures Literals(a) == |a|
  {
    if a != [] { LiteralsOfStarFree(a[1..]); }
  }

  /** A star-free prefix of the pattern matches exactly the same number of characters. */
  lemma {:induction false} LiteralPrefix(s: string, lits: string, p: string)
    requires '*' !in lits
    ensures Matches(s, lits + p) <==>
            |lits| <= |s| && FitsAll(s[..|lits|], lits) && Matches(s[|lits|..], p)
  {
    if lits == [] {
      assert lits + p == p && s[0..] == s;
    } else {
      assert (lits + p)[1..] == lits[1..] + p;
      if s != [] {
        LiteralPrefix(s[1..], lits[1..], p);
        if |lits| <= |s| {
          assert s[1..][|lits[1..]|..] == s[|lits|..];
          var a, b := s[..|lits|], s[1..][..|lits[1..]|];
          assert forall i :: 0 <= i < |b| ==> b[i] == a[i + 1] && lits[1..][i] == lits[i + 1];
          assert FitsAll(a, lits) <==> Fits(s[0], lits[0]) && FitsAll(b, lits[1..]) by {
            if Fits(s[0], lits[0]) && FitsAll(b, lits[1..]) {
              forall i | 0 <= i < |lits| ensures lits[i] != '*' && Fits(a[i], lits[i]) {
                if i > 0 { assert lits[1..][i - 1] == lits[i] && b[i - 1] == a[i]; }
              }
            }
            if FitsAll(a, lits) {
              assert a[0] == s[0];
            }
          }
        }
      }
    }
  }

  /** Backtracking only to the last star loses no match: once `lits` has been matched at the front
      and another star follows, the earlier star can stay where it is. */
  lemma LastStarSuffices(s: string, lits: string, p: string)
    requires '*' !in lits && |lits| <= |s| && FitsAll(s[..|lits|], lits)
    ensures SomeSuffixMatches(s, lits + ['*'] + p) <==> SomeSuffixMatches(s[|lits|..], p)
  {
    var q := ['*'] + p;
    assert lits + ['*'] + p == lits + q;
    StarMeansSomeSuffix(s[|lits|..], p);
    if SomeSuffixMatches(s[|lits|..], p) {
      LiteralPrefix(s, lits, q);
      assert s[0..] == s && MatchesFrom(s, 0, lits + q);
    }
    if k :| MatchesFrom(s, k, lits + q) {
      var t := s[k..];
      LiteralPrefix(t, lits, q);
      StarMeansSomeSuffix(t[|lits|..], p);
      assert t[|lits|..] == s[|lits|..][k..];
      SuffixMatchExtends(s[|lits|..], p, k);
    }
  }

  lemma LiteralMismatch(s: string, lits: string, p: string)
    requires '*' !in lits && |lits| < |s|
    requires p != [] && p[0] != '*' && !Fits(s[|lits|], p[0])
    ensures !Matches(s, lits + p)
  {
    LiteralPrefix(s, lits, p);
    assert s[|lits|..][0] == s[|lits|];
  }

  /** A mismatch after `lits` rules out the current position of the star. */
  lemma StarMovesOn(s: string, lits: string, p: string)
    requires '*' !in lits && |lits| < |s|
    requires p != [] && p[0] != '*' && !Fits(s[|lits|], p[0])
    ensures SomeSuffixMatches(s, lits + p) <==> SomeSuffixMatches(s[1..], lits + p)
    ensures |s| == 1 ==> !SomeSuffixMatches(s, lits + p)
  {
    LiteralMismatch(s, lits, p);
    LiteralsAppend(lits, p);
    assert Literals(p) > 0;
    FirstSuffixFails(s, lits + p);
  }

  lemma FirstSuffixFails(s: string, q: string)
    requires s != [] && !Matches(s, q) && 0 < Literals(q)
    ensures SomeSuffixMatches(s, q) <==> SomeSuffixMatches(s[1..], q)
    ensures |s| == 1 ==> !SomeSuffixMatches(s, q)
  {
    hide Matches, Literals;
    assert s[0..] == s && (Matches(s, q) <==> MatchesFrom(s, 0, q));
    if k :| MatchesFrom(s, k, q) {
      assert s[1..][k - 1..] == s[k..];
        assert MatchesFrom(s[1..], k - 1, q);
    }
    if SomeSuffixMatches(s[1..], q) {
      SuffixMatchExtends(s, q, 1);
    }
    EmptyTextNeedsStars(s[1..], q);
  }

  lemma EmptyTextNeedsStars(s: string, p: string)
    requires 0 < Literals(p)
    ensures s == [] ==> !SomeSuffixMatches(s, p)
  {
    OnlyStars(p);
  }

  /** When the text is used up, the match exists exactly if only stars are left. */
  lemma TextExhausted(s: string, lits: string, p: string)
    requires FitsAll(s, lits)
    ensures SomeSuffixMatches(s, lits + p) <==> Literals(p) == 0
  {
    assert '*' !in lits;
    OnlyStars(p);
    if Literals(p) == 0 {
      LiteralPrefix(s, lits, p);
      assert s[..|lits|] == s && s[|lits|..] == [] && s[0..] == s;
      assert MatchesFrom(s, 0, lits + p);
    }
    if k :| MatchesFrom(s, k, lits + p) {
      MatchesNeedsLiterals(s[k..], lits + p);
      LiteralsAppend(lits, p);
      LiteralsOfStarFree(lits);
    }
  }

  /** Stripping a literal from both ends. */
  lemma {:induction false} StripLast(s: string, p: string)
    requires s != [] && p != [] && p[|p| - 1] != '*'
    ensures Matches(s, p) <==>
            Fits(s[|s| - 1], p[|p| - 1]) && Matches(s[..|s| - 1], p[..|p| - 1])
    decreases |p|, |s|
  {
    var s', p' := s[..|s| - 1], p[..|p| - 1];
    if |p| == 1 {
      assert p[1..] == [];
      if |s| > 1 { assert s[1..] != []; }
    } else if p[0] == '*' {
      assert p'[1..] == p[1..][..|p| - 2];
      StripLast(s, p[1..]);
      if |s| > 1 {
        StripLast(s[1..], p);
        assert s'[1..] == s[1..][..|s| - 2];
      } else {
        assert s[1..] == [];
        OnlyStars(p);
        LiteralsAppend(p', [p[|p| - 1]]);
        assert p == p' + [p[|p| - 1]];
      }
    } else if |s| > 1 {
      assert p'[1..] == p[1..][..|p| - 2] && s'[1..] == s[1..][..|s| - 2];
      StripLast(s[1..], p[1..]);
    } else {
      OnlyStars(p[1..]);
      LiteralsAppend(p[1..|p| - 1], [p[|p| - 1]]);
      assert p[1..] == p[1..|p| - 1] + [p[|p| - 1]];
    }
  }

  /** The state of the main loop: `sl`, `pl` remember the last star (-1 for `(size_t)-1`). */
  ghost predicate Loop(s: string, p: string, si: nat, pi: nat, sl: int, pl: int) {
    && si <= |s| && pi <= |p| && -1 <= sl <= si
    && (if sl == -1 then
          si == pi && '*' !in p[..pi] && (Matches(s, p) <==> Matches(s[si..], p[pi..]))
        else
          && 0 < pl <= pi && si - sl == pi - pl
          && FitsAll(s[sl..si], p[pl..pi])
          && (Matches(s, p) <==> SomeSuffixMatches(s[sl..], p[pl..])))
  }

  lemma StepStar(s: string, p: string, si: nat, pi: nat, sl: int, pl: int)
    requires Loop(s, p, si, pi, sl, pl) && pi < |p| && p[pi] == '*'
    ensures Loop(s, p, si, pi + 1, si, pi + 1)
  {
    assert p[pi..] == ['*'] + p[pi + 1..];
    if sl == -1 {
      StarMeansSomeSuffix(s[si..], p[pi + 1..]);
    } else {
      var t, lits := s[sl..], p[pl..pi];
      assert t[..|lits|] == s[sl..si] && t[|lits|..] == s[si..];
      assert p[pl..] == lits + ['*'] + p[pi + 1..];
      LastStarSuffices(t, lits, p[pi + 1..]);
    }
  }

  lemma StepFit(s: string, p: string, si: nat, pi: nat, sl: int, pl: int)
    requires Loop(s, p, si, pi, sl, pl) && si < |s| && pi < |p|
    requires p[pi] != '*' && Fits(s[si], p[pi])
    ensures Loop(s, p, si + 1, pi + 1, sl, pl)
  {
    assert p[..pi + 1] == p[..pi] + [p[pi]];
    assert s[si..][1..] == s[si + 1..] && p[pi..][1..] == p[pi + 1..];
    if sl != -1 {
      assert s[sl..si + 1] == s[sl..si] + [s[si]] && p[pl..pi + 1] == p[pl..pi] + [p[pi]];
    }
  }

  lemma StepBack(s: string, p: string, si: nat, pi: nat, sl: int, pl: int)
    requires Loop(s, p, si, pi, sl, pl) && si < |s| && pi < |p|
    requires p[pi] != '*' && !Fits(s[si], p[pi])
    ensures if sl != -1 && sl + 1 < |s| then Loop(s, p, sl + 1, pl, sl + 1, pl) else !Matches(s, p)
  {
    if sl != -1 {
      var t, lits := s[sl..], p[pl..pi];
      assert t[..|lits|] == s[sl..si] && t[|lits|] == s[si];
      assert p[pl..] == lits + p[pi..];
      StarMovesOn(t, lits, p[pi..]);
      assert t[1..] == s[sl + 1..];
    }
  }

  lemma LiteralAt(s: string, p: string, from: nat, to: nat, i: int)
    requires from <= to <= |p| && FitsAll(s, p[from..to])
    ensures from <= i < to ==> p[i] != '*'
  {
    assert from <= i < to ==> p[from..to][i - from] == p[i];
  }

  lemma LoopEnds(s: string, p: string, si: nat, pi: nat, sl: int, pl: int)
    requires Loop(s, p, si, pi, sl, pl) && (si == |s| || pi == |p|)
    requires p != [] && (s == [] || p[|p| - 1] == '*')
    ensures Matches(s, p) <==> Literals(p[pi..]) == 0
  {
    if si == |s| {
      if sl == -1 {
        OnlyStars(p[pi..]);
      } else {
        assert p[pl..] == p[pl..pi] + p[pi..];
        TextExhausted(s[sl..], p[pl..pi], p[pi..]);
      }
    } else {
      PatternExhausted(s, p, si, pi, sl, pl);
    }
  }

  lemma PatternExhausted(s: string, p: string, si: nat, pi: nat, sl: int, pl: int)
    requires Loop(s, p, si, pi, sl, pl) && si < |s| && pi == |p|
    requires p != [] && p[|p| - 1] == '*'
    ensures Matches(s, p) && p[pi..] == []
  {
    assert p[..pi] == p;
    LiteralAt(s[sl..si], p, pl, pi, pi - 1);
    assert MatchesFrom(s[sl..], |s| - sl, p[pl..]);
  }

  lemma StripStep(s: string, p: string, n: nat, m: nat)
    requires 0 < n <= |s| && 0 < m <= |p| && p[m - 1] != '*'
    ensures Matches(s[..n], p[..m]) <==> Fits(s[n - 1], p[m - 1]) && Matches(s[..n - 1], p[..m - 1])
  {
    StripLast(s[..n], p[..m]);
    assert s[..n][..n - 1] == s[..n - 1] && p[..m][..m - 1] == p[..m - 1];
  }

  /** The loop over the rest of the pattern. */
  method OnlyStarsLeft(p: string, from: nat, m: nat) returns (only: bool)
    requires from <= m <= |p|
    ensures only <==> Literals(p[from..m]) == 0
  {
    var pi := from;
    while pi < m
      invariant from <= pi <= m
      invariant Literals(p[from..m]) == Literals(p[pi..m])
    {
      assert p[pi..m][1..] == p[pi + 1..m];
      if p[pi] != '*' { return false; }
      pi := pi + 1;
    }
    return true;
  }

  /** The loop that strips the literal end of the pattern; it stops early on a mismatch. */
  method StripEnd(s: string, p: string) returns (n: nat, m: nat, failed: bool)
    ensures n <= |s| && m <= |p|
    ensures failed ==> !Matches(s, p)
    ensures !failed ==> (Matches(s, p) <==> Matches(s[..n], p[..m]))
    ensures !failed ==> n == 0 || m == 0 || p[m - 1] == '*'
  {
    hide Matches;
    n, m, failed := |s|, |p|, false;
    assert s[..n] == s && p[..m] == p;
    while n > 0 && m > 0 && p[m - 1] != '*'
      invariant 0 <= n <= |s| && 0 <= m <= |p|
      invariant Matches(s, p) <==> Matches(s[..n], p[..m])
    {
      StripStep(s, p, n, m);
      if p[m - 1] != s[n - 1] && p[m - 1] != '?' { return n, m, true; }
      n, m := n - 1, m - 1;
    }
  }

  /** The main loop on the text `t` and the pattern `q` that are left after stripping. */
  method MatchStars(t: string, q: string) returns (matched: bool)
    requires q != [] && (t == [] || q[|q| - 1] == '*')
    ensures matched <==> Matches(t, q)
  {
    hide Matches, SomeSuffixMatches, FitsAll, Literals;
    assert t[0..] == t && q[0..] == q;
    var n, m := |t|, |q|;
    var si, pi, sl, pl := 0, 0, -1, -1;
    while si < n && pi < m
      invariant 0 <= si <= n && 0 <= pi <= m
      invariant Loop(t, q, si, pi, sl, pl)
      decreases n - sl, m - pi
    {
      var c := q[pi];
      if c == '*' {
        StepStar(t, q, si, pi, sl, pl);
        sl := si;
        pi := pi + 1;
        pl := pi;
        continue;
      }
      if c == t[si] || c == '?' {
        StepFit(t, q, si, pi, sl, pl);
        si, pi := si + 1, pi + 1;
        continue;
      }
      StepBack(t, q, si, pi, sl, pl);
      if sl != -1 && sl + 1 < n {
        sl := sl + 1;
        si := sl;
        pi := pl;
        continue;
      }
      return false;
    }
    LoopEnds(t, q, si, pi, sl, pl);
    assert q[pi..m] == q[pi..];
    matched := OnlyStarsLeft(q, pi, m);
  }

  /** `str::match` decides the meaning of the pattern, for all strings and patterns. */
  method Match(s: string, p: string) returns (matched: bool)
    ensures matched <==> Matches(s, p)
    ensures matched <==> exists cuts :: Covers(s, p, cuts)
  {
    MatchesIff(s, p);
    hide Covers;
    var n, m, failed := StripEnd(s, p);
    if failed { return false; }
    if m == 0 { return n == 0; }
    matched := MatchStars(s[..n], p[..m]);
  }
}
