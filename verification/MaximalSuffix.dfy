/** The scan of `critical_factorization` that finds a maximal suffix and its least period. */
module MaximalSuffix {
  import opened Words

  /** Inside the block `w[i..i + p]`, the proper suffix at offset `r` meets a byte smaller than the
      block's own byte at that distance. */
  ghost predicate Beaten(rev: bool, w: Word, i: nat, p: nat, r: nat) {
    exists q: nat :: BeatenAt(rev, w, i, p, r, q)
  }

  ghost predicate BeatenAt(rev: bool, w: Word, i: nat, p: nat, r: nat, q: nat) {
    i + p <= |w| && r + q < p && Agree(w, i + r, i, q) && Lt(rev, w[i + r + q], w[i + q])
  }

  /** All proper suffixes of the block are beaten, so it has no shorter period. */
  ghost predicate Block(rev: bool, w: Word, i: nat, p: nat) {
    i + p <= |w| && forall r: nat :: 0 < r < p ==> Beaten(rev, w, i, p, r)
  }

  ghost predicate Repeats(w: Word, i: nat, e: nat, p: nat) {
    e <= |w| && forall t :: i <= t < e - p ==> w[t] == w[t + p]
  }

  /** The length of `n` copies of a block of length `p`. */
  ghost function Copies(n: nat, p: nat): (len: nat)
    ensures n >= 1 ==> len >= p
  {
    if n == 0 then 0 else Copies(n - 1, p) + p
  }

  /** The state of the scan: `i` is the candidate suffix, `w[i..j + 1]` is `n` copies of a block
      of length `p`, and the next `k - 1` bytes start one more copy. */
  ghost predicate Scan(rev: bool, w: Word, i: nat, j: nat, k: nat, p: nat, n: nat) {
    && 1 <= n && 1 <= k <= p && j + 1 == i + Copies(n, p) && j + k <= |w|
    && Repeats(w, i, j + k, p)
    && Block(rev, w, i, p)
    && forall s: nat :: s < i ==> Less(rev, w, s, i)
  }

  lemma {:induction false} RepeatsCopies(w: Word, i: nat, e: nat, p: nat, n: nat)
    requires Repeats(w, i, e, p)
    ensures Repeats(w, i, e, Copies(n, p))
  {
    if n > 0 {
      RepeatsCopies(w, i, e, p, n - 1);
      forall t | i <= t < e - Copies(n, p) ensures w[t] == w[t + Copies(n, p)] {
        assert w[t] == w[t + Copies(n - 1, p)];
        assert w[t + Copies(n - 1, p)] == w[t + Copies(n - 1, p) + p];
      }
    }
  }

  lemma {:induction false} CopiesLess(c: nat, n: nat, p: nat)
    requires c < n
    ensures Copies(c, p) + p <= Copies(n, p)
  {
    if c + 1 < n { CopiesLess(c, n - 1, p); }
  }

  /** Position `r` lies at offset `o` of copy number `c`. */
  lemma {:induction false} Locate(p: nat, r: nat) returns (c: nat, o: nat)
    requires 0 < p
    ensures r == Copies(c, p) + o && o < p
  {
    if r < p {
      c, o := 0, r;
    } else {
      c, o := Locate(p, r - p);
      c := c + 1;
    }
  }

  lemma AgreeShift(w: Word, i: nat, e: nat, d: nat, t: nat, q: nat)
    requires Repeats(w, i, e, d) && i <= t && t + d + q <= e
    ensures Agree(w, t + d, t, q) && Agree(w, t, t + d, q)
  {
    forall x | t + d <= x < t + d + q ensures w[x] == w[x - (t + d) + t] {
      assert w[x - d] == w[x - d + d];
    }
  }

  /** An offset inside a copy behaves like the same offset of the first block, as far as the scan
      has read: it agrees with the candidate up to the block's difference, where it is smaller. */
  lemma ShiftedBeaten(rev: bool, w: Word, i: nat, e: nat, p: nat, d: nat, o: nat, q: nat, len: nat)
    requires Repeats(w, i, e, d) && BeatenAt(rev, w, i, p, o, q)
    requires len <= q && i + d + o + len <= e
    ensures Agree(w, i + d + o, i, len)
    ensures i + d + o + q < e ==> Lt(rev, w[i + d + o + q], w[i + q])
  {
    AgreeShift(w, i, e, d, i + o, len);
    assert Agree(w, i + o, i, len);
    AgreeTrans(w, i + d + o, i + o, i, len);
    assert i + d + o + q < e ==> w[i + o + q] == w[i + o + q + d];
  }

  lemma CopiesBelow(p: nat, n: nat, c: nat, o: nat, bound: nat)
    requires 0 < p && Copies(c, p) + o < Copies(n, p) + bound && bound <= p
    ensures c <= n && (bound == 0 ==> c < n)
  {
    if n < c { CopiesLess(n, c, p); }
  }

  /** First branch: the new byte is smaller, so everything from the candidate becomes one block. */
  lemma SmallerByteMakesBlock(rev: bool, w: Word, i: nat, j: nat, k: nat, p: nat, n: nat)
    requires Scan(rev, w, i, j, k, p, n) && j + k < |w|
    requires Lt(rev, w[j + k], w[i + k - 1])
    ensures Scan(rev, w, i, j + k, 1, j + k + 1 - i, 1)
  {
    var len := j + k + 1 - i;
    forall r: nat {:trigger Beaten(rev, w, i, len, r)} | 0 < r < len ensures Beaten(rev, w, i, len, r) {
      SmallerByteBeats(rev, w, i, j, k, p, n, r);
    }
    assert Copies(1, len) == Copies(0, len) + len;
  }

  lemma SmallerByteBeats(rev: bool, w: Word, i: nat, j: nat, k: nat, p: nat, n: nat, r: nat)
    requires Scan(rev, w, i, j, k, p, n) && j + k < |w|
    requires Lt(rev, w[j + k], w[i + k - 1]) && 0 < r < j + k + 1 - i
    ensures Beaten(rev, w, i, j + k + 1 - i, r)
  {
    hide Repeats, Agree, Lt, Less, Beaten;
    var c, o := Locate(p, r);
    CopiesBelow(p, n, c, o, k);
    RepeatsCopies(w, i, j + k, p, c);
    if o == 0 {
      SmallerByteBeatsCopy(rev, w, i, j, k, p, n, c);
    } else {
      if c < n { CopiesLess(c, n, p); }
      SmallerByteBeatsOffset(rev, w, i, j, k, p, Copies(c, p), o);
    }
  }

  lemma SmallerByteBeatsCopy(rev: bool, w: Word, i: nat, j: nat, k: nat, p: nat, n: nat, c: nat)
    requires 1 <= k && j + 1 == i + Copies(n, p) && j + k < |w| && 0 < c <= n && 0 < p
    requires Repeats(w, i, j + k, p) && Repeats(w, i, j + k, Copies(c, p))
    requires Lt(rev, w[j + k], w[i + k - 1])
    ensures Beaten(rev, w, i, j + k + 1 - i, Copies(c, p))
  {
    var r := Copies(c, p);
    CopiesDifference(c, n, p);
    var stop := j + k - i - r;
    RepeatsCopies(w, i, j + k, p, n - c);
    assert w[i + k - 1] == w[i + k - 1 + Copies(n - c, p)];
    AgreeShift(w, i, j + k, r, i, stop);
    assert BeatenAt(rev, w, i, j + k + 1 - i, r, stop);
  }

  lemma SmallerByteBeatsOffset(rev: bool, w: Word, i: nat, j: nat, k: nat, p: nat, d: nat, o: nat)
    requires 1 <= k <= p && j + k < |w| && 0 < o < p
    requires i + d + p <= j + 1 || (i + d == j + 1 && o < k)
    requires Repeats(w, i, j + k, d) && Beaten(rev, w, i, p, o)
    requires Lt(rev, w[j + k], w[i + k - 1])
    ensures Beaten(rev, w, i, j + k + 1 - i, d + o)
  {
    var q: nat :| BeatenAt(rev, w, i, p, o, q);
    if i + d + o + q < j + k {
      ShiftedBeaten(rev, w, i, j + k, p, d, o, q, q);
      assert BeatenAt(rev, w, i, j + k + 1 - i, d + o, q);
    } else {
      NewByteBeats(rev, w, i, j + k, p, d, o, q, k - 1 - o);
    }
  }

  /** The scan stopped `stop` bytes into the comparison, where the candidate's byte is at least as
      large as the one the new byte is smaller than. */
  lemma NewByteBeats(rev: bool, w: Word, i: nat, e: nat, p: nat, d: nat, o: nat, q: nat, stop: nat)
    requires e < |w| && Repeats(w, i, e, d) && BeatenAt(rev, w, i, p, o, q)
    requires stop <= q && i + d + o + stop == e && Lt(rev, w[e], w[i + o + stop])
    ensures Beaten(rev, w, i, e + 1 - i, d + o)
  {
    ShiftedBeaten(rev, w, i, e, p, d, o, q, stop);
    AgreeAt(w, i + o, i, q, stop);
    assert BeatenAt(rev, w, i, e + 1 - i, d + o, stop);
  }

  lemma {:induction false} CopiesDifference(c: nat, n: nat, p: nat)
    requires c <= n
    ensures Copies(n - c, p) == Copies(n, p) - Copies(c, p)
  {
    if c < n { CopiesDifference(c, n - 1, p); }
  }

  /** Second branch: the new byte continues the current copy, which may become complete. */
  lemma EqualByteExtends(rev: bool, w: Word, i: nat, j: nat, k: nat, p: nat, n: nat)
    requires Scan(rev, w, i, j, k, p, n) && j + k < |w| && w[j + k] == w[i + k - 1]
    ensures if k != p then Scan(rev, w, i, j, k + 1, p, n) else Scan(rev, w, i, j + p, 1, p, n + 1)
  {
    RepeatsCopies(w, i, j + k, p, n - 1);
    assert w[i + k - 1] == w[i + k - 1 + Copies(n - 1, p)];
    assert Repeats(w, i, j + k + 1, p);
  }

  /** Third branch: the new byte is larger, so the candidate and all its copies lose to `j + 1`. */
  lemma LargerByteRestarts(rev: bool, w: Word, i: nat, j: nat, k: nat, p: nat, n: nat)
    requires Scan(rev, w, i, j, k, p, n) && j + k < |w|
    requires Lt(rev, w[i + k - 1], w[j + k])
    ensures Scan(rev, w, j + 1, j + 1, 1, 1, 1)
  {
    RepeatsCopies(w, i, j + k, p, n);
    AgreeShift(w, i, j + k, Copies(n, p), i, k - 1);
    assert Differ(rev, w, i, j + 1, k - 1);
    var next := j + 1;
    forall s: nat | s < next ensures Less(rev, w, s, next) {
      if s < i {
        LessTransitive(rev, w, s, i, next);
      } else if i < s {
        CandidateLoses(rev, w, i, j, k, p, n, s);
      }
    }
    assert Copies(1, 1) == Copies(0, 1) + 1;
  }

  lemma CandidateLoses(rev: bool, w: Word, i: nat, j: nat, k: nat, p: nat, n: nat, s: nat)
    requires 1 <= k <= p && j + 1 == i + Copies(n, p) && j + k < |w| && i < s <= j
    requires Repeats(w, i, j + k, p) && Block(rev, w, i, p)
    requires Differ(rev, w, i, j + 1, k - 1) && Lt(rev, w[i + k - 1], w[j + k])
    ensures Less(rev, w, s, j + 1)
  {
    var c, o := Locate(p, s - i);
    CopiesBelow(p, n, c, o, 0);
    CopiesLess(c, n, p);
    RepeatsCopies(w, i, j + k, p, c);
    if o == 0 {
      CopyLoses(rev, w, i, j, k, s);
    } else {
      OffsetLoses(rev, w, i, j + k, p, Copies(c, p), o);
      LessTransitive(rev, w, s, i, j + 1);
    }
  }

  lemma CopyLoses(rev: bool, w: Word, i: nat, j: nat, k: nat, s: nat)
    requires 1 <= k && i <= s <= j && j + k < |w| && Repeats(w, i, j + k, s - i)
    requires Differ(rev, w, i, j + 1, k - 1) && Lt(rev, w[i + k - 1], w[j + k])
    ensures Less(rev, w, s, j + 1)
  {
    AgreeShift(w, i, j + k, s - i, i, k);
    assert Agree(w, s, i, k - 1);
    AgreeTrans(w, s, i, j + 1, k - 1);
    AgreeAt(w, s, i, k, k - 1);
    assert Differ(rev, w, s, j + 1, k - 1);
  }

  lemma OffsetLoses(rev: bool, w: Word, i: nat, e: nat, p: nat, d: nat, o: nat)
    requires Repeats(w, i, e, d) && Block(rev, w, i, p) && 0 < o < p && i + d + p <= e
    ensures Less(rev, w, i + d + o, i)
  {
    assert Beaten(rev, w, i, p, o);
    var q: nat :| BeatenAt(rev, w, i, p, o, q);
    ShiftedBeaten(rev, w, i, e, p, d, o, q, q);
    assert Differ(rev, w, i + d + o, i, q);
  }

  /** When the scan has read the whole word the candidate is the maximal suffix. */
  lemma ScanEnds(rev: bool, w: Word, i: nat, j: nat, k: nat, p: nat, n: nat)
    requires Scan(rev, w, i, j, k, p, n) && j + k == |w|
    ensures IsMaxSuffix(rev, w, i) && MinPeriod(w[i..], p)
  {
    forall s: nat | s < |w| && s != i ensures Less(rev, w, s, i) {
      if i < s { LaterIsLess(rev, w, i, p, s); }
    }
    BlockIsLeastPeriod(rev, w, i, p);
  }

  /** A suffix that starts later inside the repetition is smaller. */
  lemma LaterIsLess(rev: bool, w: Word, i: nat, p: nat, s: nat)
    requires i < s < |w| && 0 < p && Repeats(w, i, |w|, p) && Block(rev, w, i, p)
    ensures Less(rev, w, s, i)
  {
    hide Repeats, Agree, Lt;
    var c, o := Locate(p, s - i);
    var stop := |w| - s;
    RepeatsCopies(w, i, |w|, p, c);
    if o == 0 {
      AgreeShift(w, i, |w|, s - i, i, stop);
      assert Differ(rev, w, s, i, stop);
    } else {
      assert Beaten(rev, w, i, p, o);
      var q: nat :| BeatenAt(rev, w, i, p, o, q);
      if s + q < |w| {
        ShiftedBeaten(rev, w, i, |w|, p, Copies(c, p), o, q, q);
        assert Differ(rev, w, s, i, q);
      } else {
        ShiftedBeaten(rev, w, i, |w|, p, Copies(c, p), o, q, stop);
        assert Differ(rev, w, s, i, stop);
      }
    }
  }

  lemma BlockIsLeastPeriod(rev: bool, w: Word, i: nat, p: nat)
    requires 0 < p && Repeats(w, i, |w|, p) && Block(rev, w, i, p)
    ensures MinPeriod(w[i..], p)
  {
    var v := w[i..];
    forall x | 0 <= x < |v| - p ensures v[x] == v[x + p] {
      assert w[i + x] == w[i + x + p];
    }
    forall r | 0 < r < p ensures !Period(v, r) {
      assert Beaten(rev, w, i, p, r);
      var q: nat :| BeatenAt(rev, w, i, p, r, q);
      assert v[q] != v[q + r];
    }
  }

  /** One of the two loops of `critical_factorization`: `maxSuffix` is the index of the last byte
      before the maximal suffix, -1 standing for `SIZE_MAX`. The loop body runs at most twice per
      byte of the word, although `j` moves back when the candidate restarts. */
  method FindMaxSuffix(rev: bool, w: Word) returns (maxSuffix: int, period: nat, ghost steps: nat)
    requires w != []
    ensures -1 <= maxSuffix < |w| - 1
    ensures IsMaxSuffix(rev, w, maxSuffix + 1)
    ensures MinPeriod(w[maxSuffix + 1..], period)
    ensures steps <= 2 * |w|
  {
    maxSuffix, steps := -1, 0;
    var j, k, p := 0, 1, 1;
    ghost var n := 1;
    while j + k < |w|
      invariant -1 <= maxSuffix < j && 1 <= k <= p <= j - maxSuffix
      invariant Scan(rev, w, maxSuffix + 1, j, k, p, n)
      invariant steps <= maxSuffix + j + k
      decreases 2 * |w| - (maxSuffix + j + k)
    {
      var a, b := w[j + k], w[maxSuffix + k];
      steps := steps + 1;
      if Lt(rev, a, b) {
        SmallerByteMakesBlock(rev, w, maxSuffix + 1, j, k, p, n);
        j := j + k;
        k := 1;
        p := j - maxSuffix;
        n := 1;
      } else if a == b {
        EqualByteExtends(rev, w, maxSuffix + 1, j, k, p, n);
        if k != p {
          k := k + 1;
        } else {
          j := j + p;
          k := 1;
          n := n + 1;
        }
      } else {
        LargerByteRestarts(rev, w, maxSuffix + 1, j, k, p, n);
        maxSuffix := j;
        j := j + 1;
        k, p := 1, 1;
        n := 1;
      }
    }
    ScanEnds(rev, w, maxSuffix + 1, j, k, p, n);
    period := p;
  }
}
