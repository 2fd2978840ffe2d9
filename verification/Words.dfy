/** Words over an ordered alphabet: periods, local repetitions and maximal suffixes, up to the
    critical factorization theorem the two-way search of `src/two_way.h` rests on. */
module Words {
  import opened Division

  /** One `unsigned char`. */
  type Byte = n: int | 0 <= n < 256

  type Word = seq<Byte>

  /** `p` is a period of `w`; every `p >= |w|` is one. */
  ghost predicate Period(w: Word, p: int) {
    0 < p && forall i :: 0 <= i < |w| - p ==> w[i] == w[i + p]
  }

  ghost predicate MinPeriod(w: Word, p: int) {
    Period(w, p) && p <= |w| && forall r :: 0 < r < p ==> !Period(w, r)
  }

  /** `d` is a local period at the split `l`: some word of length `d` shares a suffix with
      `w[..l]` and a prefix with `w[l..]`, and may stick out of `w` on either side. */
  ghost predicate LocalRep(w: Word, l: nat, d: int) {
    0 < d && forall t :: 0 <= t < l && l - d <= t < |w| - d ==> w[t] == w[t + d]
  }

  /** The split `l` is critical: each local period is a global one, and the left half is
      shorter than all of them. */
  ghost predicate Critical(w: Word, l: nat) {
    l < |w| && forall d :: LocalRep(w, l, d) ==> Period(w, d) && l < d
  }

  /** The byte order, or its reverse. */
  predicate Lt(rev: bool, a: Byte, b: Byte) {
    if rev then b < a else a < b
  }

  /** The `q` bytes from `s` equal the `q` bytes from `t`. */
  ghost predicate Agree(w: Word, s: nat, t: nat, q: nat)
    requires s + q <= |w| && t + q <= |w|
  {
    forall x :: s <= x < s + q ==> w[x] == w[x - s + t]
  }

  lemma AgreeAt(w: Word, s: nat, t: nat, q: nat, x: nat)
    requires s + q <= |w| && t + q <= |w| && Agree(w, s, t, q)
    ensures x < q ==> w[s + x] == w[t + x]
  {
    assert x < q ==> w[s + x] == w[s + x - s + t];
  }

  lemma LocalRepAt(w: Word, l: nat, d: int, t: nat)
    requires LocalRep(w, l, d)
    ensures t < l && l - d <= t < |w| - d ==> w[t] == w[t + d]
  {
  }

  /** The suffixes at `s` and `t` agree on `q` bytes, and then the one at `s` ends or is smaller. */
  ghost predicate Differ(rev: bool, w: Word, s: nat, t: nat, q: nat) {
    && s + q <= |w|
    && t + q < |w|
    && Agree(w, s, t, q)
    && (s + q == |w| || Lt(rev, w[s + q], w[t + q]))
  }

  /** Lexicographic order on the suffixes of `w`. */
  ghost predicate Less(rev: bool, w: Word, s: nat, t: nat) {
    exists q: nat :: Differ(rev, w, s, t, q)
  }

  /** The suffix at `i` is the largest one. */
  ghost predicate IsMaxSuffix(rev: bool, w: Word, i: nat) {
    i < |w| && forall s: nat :: s < |w| && s != i ==> Less(rev, w, s, i)
  }

  lemma LessTransitive(rev: bool, w: Word, s: nat, t: nat, u: nat)
    requires Less(rev, w, s, t) && Less(rev, w, t, u)
    ensures Less(rev, w, s, u)
  {
    var q1: nat :| Differ(rev, w, s, t, q1);
    var q2: nat :| Differ(rev, w, t, u, q2);
    var q := if q1 <= q2 then q1 else q2;
    AgreeAt(w, t, u, q2, q1);
    AgreeAt(w, s, t, q1, q2);
    AgreeTrans(w, s, t, u, q);
    assert Differ(rev, w, s, u, q);
  }

  lemma AgreeTrans(w: Word, s: nat, t: nat, u: nat, q: nat)
    requires s + q <= |w| && t + q <= |w| && u + q <= |w|
    requires Agree(w, s, t, q) && Agree(w, t, u, q)
    ensures Agree(w, s, u, q)
  {
    forall x | s <= x < s + q ensures w[x] == w[x - s + u] {
      assert w[x] == w[x - s + t];
      assert w[x - s + t] == w[x - s + t - t + u];
    }
  }

  lemma LessAsymmetric(rev: bool, w: Word, s: nat, t: nat)
    requires Less(rev, w, s, t)
    ensures !Less(rev, w, t, s)
  {
    if Less(rev, w, t, s) {
      LessTransitive(rev, w, s, t, s);
    }
  }

  /** A suffix that is smaller in both orders is a proper prefix of the other. */
  lemma SmallerBothWays(w: Word, s: nat, t: nat, q1: nat, q2: nat, rev: bool)
    requires Differ(rev, w, s, t, q1) && Differ(!rev, w, s, t, q2)
    ensures s + q1 == |w|
  {
    AgreeAt(w, s, t, q2, q1);
    AgreeAt(w, s, t, q1, q2);
  }

  /** A local period at the start of a maximal suffix is longer than the left half: otherwise
      repeating it in front of the suffix would give a larger one. */
  lemma LocalRepExceedsLeft(rev: bool, w: Word, l: nat, d: int)
    requires IsMaxSuffix(rev, w, l) && LocalRep(w, l, d)
    ensures l < d
  {
    if d <= l {
      var n := if l + d <= |w| then d else |w| - l;
      assert Agree(w, l, l - d, n) by {
        forall x | l <= x < l + n ensures w[x] == w[x - l + (l - d)] {
          assert w[x - d] == w[x - d + d];
        }
      }
      if l + d >= |w| {
        assert Differ(rev, w, l, l - d, n);
      } else {
        assert Less(rev, w, l + d, l);
        var q: nat :| Differ(rev, w, l + d, l, q);
        assert Agree(w, l, l - d, d + q) by {
          forall x | l + d <= x < l + d + q ensures w[x] == w[x - d] {
            assert w[x] == w[x - (l + d) + l];
          }
        }
        assert Differ(rev, w, l, l - d, d + q);
      }
      assert Less(rev, w, l, l - d);
      LessAsymmetric(rev, w, l, l - d);
      assert false;
    }
  }

  /** The critical factorization theorem: of the two maximal suffixes, one for each byte order,
      the shorter one starts at a critical split. */
  lemma CriticalFactorization(rev: bool, w: Word, l: nat, i: nat)
    requires IsMaxSuffix(rev, w, l) && IsMaxSuffix(!rev, w, i) && i <= l
    ensures Critical(w, l)
  {
    forall d | LocalRep(w, l, d) ensures Period(w, d) && l < d {
      LocalRepExceedsLeft(rev, w, l, d);
      LocalRepIsPeriod(rev, w, l, i, d);
    }
  }

  lemma LocalRepIsPeriod(rev: bool, w: Word, l: nat, i: nat, d: int)
    requires IsMaxSuffix(rev, w, l) && IsMaxSuffix(!rev, w, i) && i <= l < d
    requires LocalRep(w, l, d)
    ensures Period(w, d)
  {
    if l + d < |w| {
      assert Less(rev, w, l + d, l);
      var q1: nat :| Differ(rev, w, l + d, l, q1);
      assert Less(!rev, w, i + d, i);
      var q2: nat :| Differ(!rev, w, i + d, i, q2);
      RepeatedPrefixIsPeriod(rev, w, l, i, d, q1, q2);
    }
  }

  /** What follows the repeated word is smaller than the right half in both orders. */
  lemma RepeatedPrefixIsPeriod(rev: bool, w: Word, l: nat, i: nat, d: nat, q1: nat, q2: nat)
    requires LocalRep(w, l, d) && i <= l < d && l + d < |w|
    requires Differ(rev, w, l + d, l, q1) && Differ(!rev, w, i + d, i, q2)
    ensures Period(w, d)
  {
    hide Differ, LocalRep, Period;
    LocalRepDelays(!rev, w, l, i, d, q2);
    DifferLater(!rev, w, i + d, i, q2, l - i);
    SmallerBothWays(w, l + d, l, q1, q2 - (l - i), rev);
    AgreeingTailIsPeriod(rev, w, l, d, q1);
  }

  lemma LocalRepDelays(rev: bool, w: Word, l: nat, i: nat, d: nat, q: nat)
    requires LocalRep(w, l, d) && i <= l < d && l + d < |w| && Differ(rev, w, i + d, i, q)
    ensures l - i <= q
  {
    LocalRepAt(w, l, d, i + q);
  }

  /** Suffixes that agree at first compare like what follows. */
  lemma DifferLater(rev: bool, w: Word, s: nat, t: nat, q: nat, k: nat)
    requires Differ(rev, w, s, t, q) && k <= q
    ensures Differ(rev, w, s + k, t + k, q - k)
  {
    forall x | s + k <= x < s + k + (q - k) ensures w[x] == w[x - (s + k) + (t + k)] {
      assert w[x] == w[x - s + t];
    }
  }

  lemma AgreeingTailIsPeriod(rev: bool, w: Word, l: nat, d: nat, q: nat)
    requires LocalRep(w, l, d) && l < d && Differ(rev, w, l + d, l, q) && l + d + q == |w|
    ensures Period(w, d)
  {
    forall t | 0 <= t < |w| - d ensures w[t] == w[t + d] {
      if l <= t {
        assert w[t + d] == w[t + d - (l + d) + l];
      }
    }
  }

  /** If the left half does not repeat the right half's least period, then the global period
      exceeds both halves: the justification of the maximal shift. */
  lemma DistinctHalvesHaveLongPeriod(w: Word, l: nat, p: int, d: int)
    requires Critical(w, l) && MinPeriod(w[l..], p) && !Period(w, p)
    requires Period(w, d)
    ensures l < d && |w| - l < d
  {
    assert LocalRep(w, l, d);
    if d <= |w| - l {
      RestrictPeriod(w, l, d);
      QuotRem(d, p);
      if d % p == 0 {
        RightPeriodExtends(w, l, p, d, d / p);
      } else {
        RemainderIsLocalRep(w, l, p, d, d / p, d % p);
        RestrictPeriod(w, l, d % p);
      }
    }
  }

  lemma RestrictPeriod(w: Word, l: nat, d: int)
    requires l <= |w| && Period(w, d)
    ensures Period(w[l..], d)
  {
    forall i | 0 <= i < |w[l..]| - d ensures w[l..][i] == w[l..][i + d] {
      assert w[l + i] == w[l + i + d];
    }
  }

  lemma RemainderIsLocalRep(w: Word, l: nat, p: int, d: int, n: nat, r: nat)
    requires l < |w| && Period(w[l..], p) && Period(w, d) && l < d <= |w| - l
    requires d == p * n + r && 0 < r
    ensures LocalRep(w, l, r)
  {
    forall t | 0 <= t < l && l - r <= t < |w| - r ensures w[t] == w[t + r] {
      assert w[t] == w[t + d];
      PeriodMultiple(w[l..], p, t + r - l, n);
    }
  }

  lemma RightPeriodExtends(w: Word, l: nat, p: int, d: int, n: nat)
    requires l < |w| && Period(w[l..], p) && Period(w, d) && l < d <= |w| - l && d == p * n
    requires p <= d
    ensures Period(w, p)
  {
    forall t | 0 <= t < |w| - p ensures w[t] == w[t + p] {
      RepeatLeft(w, l, p, d, n, t);
    }
  }

  lemma {:induction false} PeriodMultiple(v: Word, p: int, x: nat, n: nat)
    requires Period(v, p) && x + p * n < |v|
    ensures v[x] == v[x + p * n]
  {
    if n > 0 {
      OneLess(p, n);
      NotBelow(p, n - 1);
      var y := x + p * (n - 1);
      PeriodMultiple(v, p, x, n - 1);
      assert v[y] == v[y + p];
    }
  }

  lemma NotZero(p: nat, n: nat)
    ensures p * n > 0 ==> n >= 1
  {
    assert p * 0 == 0;
  }

  lemma NotBelow(p: nat, n: nat)
    ensures 0 <= p * n
  {
  }

  lemma RepeatLeft(w: Word, l: nat, p: int, d: int, n: nat, t: nat)
    requires l < |w| && Period(w[l..], p) && Period(w, d) && l < d <= |w| - l && d == p * n
    requires t < |w| - p && p <= d
    ensures w[t] == w[t + p]
  {
    var v := w[l..];
    if t >= l {
      assert v[t - l] == v[t - l + p];
    } else {
      assert w[t] == w[t + d];
      if t + p >= l {
        OneLess(p, n);
        NotZero(p, n);
        PeriodMultiple(v, p, t + p - l, n - 1);
      } else {
        assert w[t + p] == w[t + p + d];
        assert v[t + d - l] == v[t + d - l + p];
      }
    }
  }
}
