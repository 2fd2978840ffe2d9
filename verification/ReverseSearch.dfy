/** Searching backwards in `src/fastring.cc`: `str::memrchr`, which looks at eight bytes at a time, and
    `str::memrmem`, which skips by the byte in front of the window. */
module ReverseSearch {
  import opened Options

  type Char = bv8

  /** `r` is the last index at which `c` stands, or none if there is no such index. */
  ghost predicate IsLast(s: seq<Char>, c: Char, r: Option<nat>) {
    match r
    case Some(i) => i < |s| && s[i] == c && forall k :: i < k < |s| ==> s[k] != c
    case None => c !in s
  }

  /** Whether `_has_null` holds of the word that eight bytes make in memory, xor the byte `c` repeated. */
  predicate WordHas(b0: Char, b1: Char, b2: Char, b3: Char, b4: Char, b5: Char, b6: Char, b7: Char, c: Char) {
    var x := ((b0 as bv64) | ((b1 as bv64) << 8) | ((b2 as bv64) << 16) | ((b3 as bv64) << 24)
              | ((b4 as bv64) << 32) | ((b5 as bv64) << 40) | ((b6 as bv64) << 48) | ((b7 as bv64) << 56))
             ^ (0x0101_0101_0101_0101 * (c as bv64));
    (x - 0x0101_0101_0101_0101) & !x & 0x8080_8080_8080_8080 != 0
  }

  lemma WordBits(b0: Char, b1: Char, b2: Char, b3: Char, b4: Char, b5: Char, b6: Char, b7: Char, c: Char)
    ensures
      var x := ((b0 as bv64) | ((b1 as bv64) << 8) | ((b2 as bv64) << 16) | ((b3 as bv64) << 24)
                | ((b4 as bv64) << 32) | ((b5 as bv64) << 40) | ((b6 as bv64) << 48) | ((b7 as bv64) << 56))
               ^ (0x0101_0101_0101_0101 * (c as bv64));
      (x - 0x0101_0101_0101_0101) & !x & 0x8080_8080_8080_8080 != 0 <==>
        (b0 == c || b1 == c || b2 == c || b3 == c || b4 == c || b5 == c || b6 == c || b7 == c)
  {
  }

  /** The test on a word tells whether one of its bytes is `c`. */
  lemma WordHasByte(b0: Char, b1: Char, b2: Char, b3: Char, b4: Char, b5: Char, b6: Char, b7: Char, c: Char)
    ensures WordHas(b0, b1, b2, b3, b4, b5, b6, b7, c) <==>
      (b0 == c || b1 == c || b2 == c || b3 == c || b4 == c || b5 == c || b6 == c || b7 == c)
  {
    WordBits(b0, b1, b2, b3, b4, b5, b6, b7, c);
  }

  predicate HasByte(s: seq<Char>, w: nat, c: Char)
    requires w + 8 <= |s|
  {
    WordHas(s[w], s[w + 1], s[w + 2], s[w + 3], s[w + 4], s[w + 5], s[w + 6], s[w + 7], c)
  }

  lemma HasByteIff(s: seq<Char>, w: nat, c: Char)
    requires w + 8 <= |s|
    ensures HasByte(s, w, c) <==> c in s[w..w + 8]
  {
    hide WordHas;
    WordHasByte(s[w], s[w + 1], s[w + 2], s[w + 3], s[w + 4], s[w + 5], s[w + 6], s[w + 7], c);
    assert s[w..w + 8] == [s[w], s[w + 1], s[w + 2], s[w + 3], s[w + 4], s[w + 5], s[w + 6], s[w + 7]];
  }

  /** `str::memrchr` on bytes at the address `base`: single bytes down to a word boundary, then words that
      do not hold the byte, then single bytes again. */
  method Memrchr(s: seq<Char>, c: Char, base: nat) returns (r: Option<nat>)
    ensures IsLast(s, c, r)
  {
    hide HasByte;
    if |s| == 0 { return None; }
    var p := |s| - 1;
    while (base + p + 1) % 8 != 0
      invariant 0 <= p < |s| && c !in s[p + 1..]
      decreases p
    {
      if s[p] == c {
        assert forall k :: p < k < |s| ==> s[k] in s[p + 1..];
        return Some(p);
      }
      Extend(s, p, p + 1, c);
      if p == 0 { return None; }
      p := p - 1;
    }
    if p >= 7 {
      var w := p - 7;
      while true
        invariant 0 <= w && w + 8 <= |s| && c !in s[w + 8..]
        decreases w
      {
        if HasByte(s, w, c) { break; }
        HasByteIff(s, w, c);
        assert s[w..] == s[w..w + 8] + s[w + 8..];
        w := w - 8;
        if w < 0 { break; }
      }
      p := w + 7;
    }
    while p >= 0
      invariant -1 <= p < |s| && c !in s[p + 1..]
      decreases p
    {
      if s[p] == c {
        assert forall k :: p < k < |s| ==> s[k] in s[p + 1..];
        return Some(p);
      }
      Extend(s, p, p + 1, c);
      p := p - 1;
    }
    return None;
  }

  lemma Extend(s: seq<Char>, i: nat, k: nat, c: Char)
    requires i <= k <= |s| && c !in s[k..] && forall x :: i <= x < k ==> s[x] != c
    ensures c !in s[i..]
  {
    assert s[i..] == s[i..k] + s[k..];
  }

  // ----- the last occurrence of a needle

  ghost predicate OccursAt(s: seq<Char>, p: seq<Char>, j: nat) {
    j + |p| <= |s| && s[j..j + |p|] == p
  }

  ghost predicate NoneFrom(s: seq<Char>, p: seq<Char>, b: nat) {
    forall j: nat :: b <= j ==> !OccursAt(s, p, j)
  }

  ghost predicate IsLastOccurrence(s: seq<Char>, p: seq<Char>, r: Option<nat>) {
    match r
    case Some(j) => OccursAt(s, p, j) && NoneFrom(s, p, j + 1)
    case None => NoneFrom(s, p, 0)
  }

  /** `o` is one more than the first index of `c` in the needle from index `i` on, or 0. */
  ghost predicate IsOffset(p: seq<Char>, c: Char, i: nat, o: nat)
    requires i <= |p|
  {
    && (o == 0 ==> forall x :: i <= x < |p| ==> p[x] != c)
    && (o > 0 ==> i < o <= |p| && p[o - 1] == c && forall x :: i <= x < o - 1 ==> p[x] != c)
  }

  function Index(c: Char): (n: nat)
    ensures n < 256
  {
    c as int
  }

  lemma IndexIsInjective(a: Char, b: Char)
    ensures Index(a) == Index(b) ==> a == b
  {
    if a as int == b as int { assert a == b; }
  }

  ghost predicate Offsets(p: seq<Char>, off: seq<nat>, i: nat)
    requires i <= |p|
  {
    |off| == 256 && forall c: Char :: IsOffset(p, c, i, off[Index(c)])
  }

  lemma OffsetsStep(p: seq<Char>, off: seq<nat>, i: nat)
    requires 0 < i <= |p| && Offsets(p, off, i)
    ensures Offsets(p, off[Index(p[i - 1]) := i], i - 1)
  {
    hide Index;
    forall c: Char ensures IsOffset(p, c, i - 1, off[Index(p[i - 1]) := i][Index(c)]) {
      IndexIsInjective(c, p[i - 1]);
      assert IsOffset(p, c, i, off[Index(c)]);
    }
  }

  lemma OccursByte(s: seq<Char>, p: seq<Char>, j: nat, x: nat)
    ensures OccursAt(s, p, j) && x < |p| ==> s[j + x] == p[x]
  {
    assert OccursAt(s, p, j) && x < |p| ==> s[j..j + |p|][x] == s[j + x];
  }

  /** The byte in front of the window tells how far back the next occurrence can start. */
  lemma ShiftBack(s: seq<Char>, p: seq<Char>, b: nat, o: nat)
    requires NoneFrom(s, p, b) && 0 < b <= |s| && IsOffset(p, s[b - 1], 0, o)
    ensures var d := if o == 0 then |p| + 1 else o;
      NoneFrom(s, p, if b < d then 0 else b - d + 1)
  {
    var d := if o == 0 then |p| + 1 else o;
    forall j: nat | b < d + j && j < b ensures !OccursAt(s, p, j) {
      OccursByte(s, p, j, b - 1 - j);
    }
  }

  /** The table of first offsets, filled from the end of the needle. */
  method FillOffsets(p: seq<Char>) returns (off: array<nat>)
    ensures fresh(off) && Offsets(p, off[..], 0)
  {
    hide Index;
    off := new nat[256](_ => 0);
    var i := |p|;
    while i > 0
      invariant 0 <= i <= |p|
      invariant Offsets(p, off[..], i)
    {
      OffsetsStep(p, off[..], i);
      ghost var after := off[..][Index(p[i - 1]) := i];
      off[Index(p[i - 1])] := i;
      assert off[..] == after;
      i := i - 1;
    }
  }

  /** `str::memrmem`: the largest index at which the needle occurs, for all inputs. */
  method Memrmem(s: seq<Char>, p: seq<Char>, base: nat) returns (r: Option<nat>)
    ensures IsLastOccurrence(s, p, r)
  {
    hide Index, IsOffset;
    var m := |p|;
    if |s| < m { return None; }
    if m == 0 { return Some(|s|); }
    var e := Memrchr(s, p[m - 1], base);
    LastByte(s, p, e);
    if e.None? || m == 1 { return e; }
    if e.value + 1 < m { return None; }
    var off := FillOffsets(p);
    var b := e.value - m + 1;
    while true
      invariant 0 <= b && b + m <= |s| && NoneFrom(s, p, b + 1)
      invariant Offsets(p, off[..], 0)
      decreases b
    {
      if s[b..b + m] == p { return Some(b); }
      assert NoneFrom(s, p, b);
      if b == 0 { return None; }
      var o := off[Index(s[b - 1])];
      assert IsOffset(p, s[b - 1], 0, off[..][Index(s[b - 1])]);
      ShiftBack(s, p, b, o);
      if o == 0 { o := m + 1; }
      if b < o { return None; }
      b := b - o;
    }
  }

  /** No occurrence ends after the last place of the last byte of the needle. */
  lemma LastByte(s: seq<Char>, p: seq<Char>, e: Option<nat>)
    requires p != [] && IsLast(s, p[|p| - 1], e)
    ensures e.None? ==> NoneFrom(s, p, 0)
    ensures e.Some? ==> NoneFrom(s, p, if e.value + 1 < |p| then 0 else e.value - |p| + 2)
    ensures e.Some? && |p| == 1 ==> OccursAt(s, p, e.value)
  {
    forall j: nat ensures OccursAt(s, p, j) ==> e.Some? && j + |p| - 1 <= e.value {
      OccursByte(s, p, j, |p| - 1);
    }
  }
}
