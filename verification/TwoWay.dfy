/** The two-way substring search of `src/two_way.h`, as driven by `str::memmem`. */
module TwoWay {
  import opened Options
  import opened Words
  import opened MaximalSuffix

  /** Needles at least this long use the bad-byte table. */
  const LONG_NEEDLE_THRESHOLD := 32

  ghost predicate OccursAt(h: Word, w: Word, j: int) {
    0 <= j <= |h| - |w| && forall x :: 0 <= x < |w| ==> w[x] == h[j + x]
  }

  ghost predicate NoneBefore(h: Word, w: Word, j: int) {
    forall x :: 0 <= x < j ==> !OccursAt(h, w, x)
  }

  /** `r` is the smallest index at which `w` occurs in `h`, or none if there is no such index. */
  ghost predicate IsFirst(h: Word, w: Word, r: Option<nat>) {
    match r
    case Some(j) => OccursAt(h, w, j) && NoneBefore(h, w, j)
    case None => forall j :: !OccursAt(h, w, j)
  }

  ghost predicate Matches(h: Word, w: Word, j: nat, from: int, to: int) {
    forall x :: 0 <= x < |w| && j + x < |h| && from <= x < to ==> w[x] == h[j + x]
  }

  // ----- why each shift loses no occurrence

  lemma OccursByte(h: Word, w: Word, j: int, x: int)
    ensures OccursAt(h, w, j) && 0 <= x < |w| ==> w[x] == h[j + x]
  {
  }

  lemma PeriodByte(w: Word, p: int, x: int)
    ensures Period(w, p) && 0 <= x < |w| - p ==> w[x] == w[x + p]
  {
  }

  /** An occurrence `d` bytes on makes `d` a local period of every split whose right half was
      matched for at least `d` bytes. */
  lemma OccurrenceIsLocalRep(h: Word, w: Word, l: nat, j: nat, to: nat, d: nat)
    requires j + |w| <= |h| && l <= to <= |w| && 0 < d
    requires Matches(h, w, j, l, to) && OccursAt(h, w, j + d)
    requires to == |w| || l + d <= to
    ensures LocalRep(w, l, d)
  {
    forall t | 0 <= t < l && l - d <= t < |w| - d ensures w[t] == w[t + d] {
      assert w[t] == h[j + d + t];
      assert w[t + d] == h[j + (t + d)];
    }
  }

  /** A mismatch at `i` in the right half allows a shift of `i - l + 1`. */
  lemma RightMismatchShift(h: Word, w: Word, l: nat, j: nat, i: nat)
    requires NoneBefore(h, w, j) && Critical(w, l) && j + |w| <= |h| && l <= i < |w|
    requires Matches(h, w, j, l, i) && w[i] != h[j + i]
    ensures NoneBefore(h, w, j + i - l + 1)
  {
    forall x | 0 <= x < j + i - l + 1 ensures !OccursAt(h, w, x) {
      if j < x && OccursAt(h, w, x) {
        OccurrenceIsLocalRep(h, w, l, j, i, x - j);
        OccursByte(h, w, x, i - (x - j));
        PeriodByte(w, x - j, i - (x - j));
      }
    }
  }

  /** A mismatch in the left half allows a shift by the least period of the right half. */
  lemma PeriodShift(h: Word, w: Word, l: nat, p: nat, j: nat, i: nat)
    requires NoneBefore(h, w, j) && Critical(w, l) && j + |w| <= |h| && i < |w|
    requires MinPeriod(w[l..], p)
    requires Matches(h, w, j, l, |w|) && w[i] != h[j + i]
    ensures NoneBefore(h, w, j + p)
  {
    forall x | 0 <= x < j + p ensures !OccursAt(h, w, x) {
      if j < x && OccursAt(h, w, x) {
        OccurrenceIsLocalRep(h, w, l, j, |w|, x - j);
        RestrictPeriod(w, l, x - j);
      }
    }
  }

  /** If moreover the left half does not repeat that period, the shift can exceed both halves. */
  lemma DistinctHalvesShift(h: Word, w: Word, l: nat, p: nat, j: nat, i: nat)
    requires NoneBefore(h, w, j) && Critical(w, l) && j + |w| <= |h| && i < |w|
    requires MinPeriod(w[l..], p) && !Period(w, p)
    requires Matches(h, w, j, l, |w|) && w[i] != h[j + i]
    ensures NoneBefore(h, w, j + Max(l, |w| - l) + 1)
  {
    forall x | 0 <= x < j + Max(l, |w| - l) + 1 ensures !OccursAt(h, w, x) {
      if j < x && OccursAt(h, w, x) {
        OccurrenceIsLocalRep(h, w, l, j, |w|, x - j);
        DistinctHalvesHaveLongPeriod(w, l, p, x - j);
      }
    }
  }

  /** `shift` is the distance from the last `c` in `w` to the end of `w`, or `|w|` without one. */
  ghost predicate IsBadByteShift(w: Word, c: Byte, shift: nat) {
    && shift <= |w|
    && (forall x :: |w| - shift <= x < |w| ==> w[x] != c)
    && (shift < |w| ==> w[|w| - 1 - shift] == c)
  }

  lemma BadByteShift(h: Word, w: Word, j: nat, shift: nat)
    requires NoneBefore(h, w, j) && 0 < |w| && j + |w| <= |h|
    requires IsBadByteShift(w, h[j + |w| - 1], shift)
    ensures NoneBefore(h, w, j + shift)
  {
    forall x | 0 <= x < j + shift ensures !OccursAt(h, w, x) {
      OccursByte(h, w, x, |w| - 1 - (x - j));
    }
  }

  /** With all but the last period remembered as matched and a wrong last byte, there is no
      occurrence before that byte. */
  lemma MemoryShift(h: Word, w: Word, p: nat, j: nat)
    requires NoneBefore(h, w, j) && Period(w, p) && p <= |w| && j + |w| <= |h| && 0 < |w|
    requires Matches(h, w, j, 0, |w| - p) && w[|w| - 1] != h[j + |w| - 1]
    ensures NoneBefore(h, w, j + |w| - p)
  {
    forall x | 0 <= x < j + |w| - p ensures !OccursAt(h, w, x) {
      if j <= x && OccursAt(h, w, x) {
        MemoryClash(h, w, p, j, x - j);
      }
    }
  }

  lemma MemoryClash(h: Word, w: Word, p: nat, j: nat, d: nat)
    requires Period(w, p) && p <= |w| && j + |w| <= |h| && d < |w| - p
    requires Matches(h, w, j, 0, |w| - p) && OccursAt(h, w, j + d)
    ensures w[|w| - 1] == h[j + |w| - 1]
  {
    var last, x := |w| - 1, |w| - 1 - d;
    assert h[j + last] == w[x] by { OccursByte(h, w, j + d, x); }
    assert w[x] == w[x - p] by { PeriodByte(w, p, x - p); }
    assert w[x - p] == h[j + last - p] by { OccursByte(h, w, j + d, x - p); }
    assert h[j + (last - p)] == w[last - p];
    assert w[last - p] == w[last - p + p];
  }

  /** In a periodic needle each byte occurs within the last period or not at all. */
  lemma BadByteShiftIsShortOrFull(w: Word, c: Byte, shift: nat, p: nat)
    requires Period(w, p) && IsBadByteShift(w, c, shift)
    ensures shift < p || shift == |w|
  {
    PeriodByte(w, p, |w| - 1 - shift);
  }

  /** After a shift by the period, what was matched in the right half is remembered as a prefix. */
  lemma MemoryAfterShift(h: Word, w: Word, l: nat, p: nat, j: nat)
    requires Period(w, p) && l < p <= |w| && j + |w| <= |h| && Matches(h, w, j, l, |w|)
    ensures Matches(h, w, j + p, 0, |w| - p)
  {
    forall x | 0 <= x < |w| && j + p + x < |h| && 0 <= x < |w| - p ensures w[x] == h[j + p + x] {
      assert w[x] == w[x + p];
      assert w[x + p] == h[j + (x + p)];
    }
  }

  // ----- the searches

  /** Chooses the later of the two maximal suffixes, at most four comparisons per byte in all. */
  method CriticalSplit(needle: Word) returns (suffix: nat, period: nat, ghost steps: nat)
    requires needle != []
    ensures Critical(needle, suffix) && MinPeriod(needle[suffix..], period)
    ensures steps <= 4 * |needle|
  {
    var maxSuffix, p, s := FindMaxSuffix(false, needle);
    var maxSuffixRev, pRev, sRev := FindMaxSuffix(true, needle);
    steps := s + sRev;
    if maxSuffixRev + 1 < maxSuffix + 1 {
      CriticalFactorization(false, needle, maxSuffix + 1, maxSuffixRev + 1);
      return maxSuffix + 1, p, steps;
    }
    CriticalFactorization(true, needle, maxSuffixRev + 1, maxSuffix + 1);
    return maxSuffixRev + 1, pRev, steps;
  }

  /** Compares forward from `from`; `cmps` counts the byte comparisons. */
  method ScanRight(h: Word, w: Word, j: nat, from: nat, to: nat) returns (i: nat, ghost cmps: nat)
    requires j + |w| <= |h| && to <= |w|
    ensures from <= i && (i < to || i == from || i == to)
    ensures Matches(h, w, j, from, if i < to then i else to)
    ensures i < to ==> w[i] != h[i + j]
    ensures cmps <= (if i < to then i + 1 - from else i - from)
  {
    i, cmps := from, 0;
    while i < to && w[i] == h[i + j]
      invariant from <= i && (i <= to || i == from) && cmps == i - from
      invariant Matches(h, w, j, from, if i < to then i else to)
    {
      i, cmps := i + 1, cmps + 1;
    }
    if i < to { cmps := cmps + 1; }
  }

  /** Compares backward from `from - 1` down to `memory`; `i` is -1 for `SIZE_MAX`. */
  method ScanLeft(h: Word, w: Word, j: nat, from: nat, memory: nat) returns (i: int, ghost cmps: nat)
    requires j + |w| <= |h| && from <= |w|
    ensures -1 <= i < from
    ensures memory < i + 1 ==> w[i] != h[i + j]
    ensures Matches(h, w, j, i + 1, from)
    ensures cmps <= from
  {
    i, cmps := from - 1, 0;
    while memory < i + 1 && w[i] == h[i + j]
      invariant -1 <= i < from && cmps == from - 1 - i && (i + 1 == from || memory <= i + 1)
      invariant Matches(h, w, j, i + 1, from)
    {
      i, cmps := i - 1, cmps + 1;
    }
    if memory < i + 1 { cmps := cmps + 1; }
  }

  /** The test that picks the periodic branch compares the left half with what lies one period on. */
  lemma PeriodicTest(w: Word, l: nat, p: nat)
    requires l < |w| && MinPeriod(w[l..], p)
    ensures p + l <= |w| && (w[..l] == w[p..p + l] <==> Period(w, p))
  {
    if w[..l] == w[p..p + l] {
      forall t | 0 <= t < |w| - p ensures w[t] == w[t + p] {
        if t < l {
          assert w[..l][t] == w[p..p + l][t];
        } else {
          assert w[l..][t - l] == w[l..][t - l + p];
        }
      }
    }
    if Period(w, p) {
      assert forall t :: 0 <= t < l ==> w[..l][t] == w[p..p + l][t];
    }
  }

  lemma PeriodExceedsLeft(w: Word, l: nat, p: nat)
    requires Critical(w, l) && Period(w, p)
    ensures l < p
  {
    assert LocalRep(w, l, p);
  }

  method ShortNeedle(h: Word, w: Word) returns (r: Option<nat>, ghost cmps: nat)
    requires 0 < |w| <= |h|
    ensures IsFirst(h, w, r)
    ensures cmps <= 2 * |h| - |w|
  {
    var suffix, period, _ := CriticalSplit(w);
    PeriodicTest(w, suffix, period);
    if w[..suffix] == w[period..period + suffix] {
      r, cmps := SearchPeriodic(h, w, suffix, period);
    } else {
      r, cmps := SearchDistinct(h, w, suffix, period);
    }
  }

  method SearchPeriodic(h: Word, w: Word, suffix: nat, period: nat) returns (r: Option<nat>, ghost cmps: nat)
    requires 0 < |w| <= |h|
    requires Critical(w, suffix) && MinPeriod(w[suffix..], period) && Period(w, period)
    ensures IsFirst(h, w, r)
    ensures cmps <= 2 * |h| - |w|
  {
    PeriodExceedsLeft(w, suffix, period);
    var memory, j := 0, 0;
    ghost var right: nat, left: nat := 0, 0;
    while j <= |h| - |w|
      invariant memory == 0 || memory == |w| - period
      invariant Matches(h, w, j, 0, memory) && NoneBefore(h, w, j)
      invariant right <= j + Max(suffix, memory) - suffix && right <= |h| - suffix
      invariant left <= j && left <= |h| - |w| + suffix
      decreases |h| - j
    {
      var i, c := ScanRight(h, w, j, Max(suffix, memory), |w|);
      right := right + c;
      assert Matches(h, w, j, suffix, i);
      if |w| <= i {
        var k, c' := ScanLeft(h, w, j, suffix, memory);
        left := left + c';
        if k + 1 < memory + 1 {
          assert OccursAt(h, w, j);
          return Some(j), right + left;
        }
        PeriodShift(h, w, suffix, period, j, k);
        MemoryAfterShift(h, w, suffix, period, j);
        j := j + period;
        memory := |w| - period;
      } else {
        RightMismatchShift(h, w, suffix, j, i);
        j := j + (i - suffix + 1);
        memory := 0;
      }
    }
    return None, right + left;
  }

  method SearchDistinct(h: Word, w: Word, suffix: nat, p: nat) returns (r: Option<nat>, ghost cmps: nat)
    requires 0 < |w| <= |h|
    requires Critical(w, suffix) && MinPeriod(w[suffix..], p) && !Period(w, p)
    ensures IsFirst(h, w, r)
    ensures cmps <= 2 * |h| - |w|
  {
    var period := Max(suffix, |w| - suffix) + 1;
    var j := 0;
    ghost var right: nat, left: nat := 0, 0;
    while j <= |h| - |w|
      invariant NoneBefore(h, w, j)
      invariant right <= j && right <= |h| - suffix
      invariant left <= j && left <= |h| - |w| + suffix
      decreases |h| - j
    {
      var i, c := ScanRight(h, w, j, suffix, |w|);
      right := right + c;
      if |w| <= i {
        var k, c' := ScanLeft(h, w, j, suffix, 0);
        left := left + c';
        if k == -1 {
          assert OccursAt(h, w, j);
          return Some(j), right + left;
        }
        DistinctHalvesShift(h, w, suffix, p, j, k);
        j := j + period;
      } else {
        RightMismatchShift(h, w, suffix, j, i);
        j := j + (i - suffix + 1);
      }
    }
    return None, right + left;
  }

  function Max(a: int, b: int): int {
    if a < b then b else a
  }

  method FillShiftTable(needle: Word) returns (table: array<nat>)
    ensures fresh(table) && table.Length == 256
    ensures forall c: Byte :: IsBadByteShift(needle, c, table[c])
  {
    table := new nat[256](_ => |needle|);
    var i := 0;
    while i < |needle|
      invariant 0 <= i <= |needle|
      invariant forall c: Byte :: table[c] <= |needle|
      invariant forall c: Byte :: forall x :: |needle| - table[c] <= x < i ==> needle[x] != c
      invariant forall c: Byte :: table[c] < |needle| ==>
        |needle| - 1 - table[c] < i && needle[|needle| - 1 - table[c]] == c
    {
      table[needle[i]] := |needle| - i - 1;
      i := i + 1;
    }
  }

  method LongNeedle(h: Word, w: Word) returns (r: Option<nat>, ghost cmps: nat)
    requires 0 < |w| <= |h|
    ensures IsFirst(h, w, r)
    ensures cmps <= 2 * |h| - |w|
  {
    var suffix, period, _ := CriticalSplit(w);
    var table := FillShiftTable(w);
    PeriodicTest(w, suffix, period);
    if w[..suffix] == w[period..period + suffix] {
      r, cmps := SearchPeriodicLong(h, w, suffix, period, table);
    } else {
      r, cmps := SearchDistinctLong(h, w, suffix, period, table);
    }
  }

  method SearchPeriodicLong(h: Word, w: Word, suffix: nat, period: nat, table: array<nat>)
    returns (r: Option<nat>, ghost cmps: nat)
    requires 0 < |w| <= |h|
    requires Critical(w, suffix) && MinPeriod(w[suffix..], period) && Period(w, period)
    requires table.Length == 256 && forall c: Byte :: IsBadByteShift(w, c, table[c])
    ensures IsFirst(h, w, r)
    ensures cmps <= 2 * |h| - |w|
  {
    PeriodExceedsLeft(w, suffix, period);
    var memory, j := 0, 0;
    ghost var right: nat, left: nat := 0, 0;
    while j <= |h| - |w|
      invariant memory == 0 || memory == |w| - period
      invariant Matches(h, w, j, 0, memory) && NoneBefore(h, w, j)
      invariant right <= j + Max(suffix, memory) - suffix && right <= |h| - suffix
      invariant left <= j && left <= |h| - |w| + suffix
      decreases |h| - j
    {
      var last := h[j + |w| - 1];
      var shift := table[last];
      assert IsBadByteShift(w, last, shift);
      if 0 < shift {
        BadByteShiftIsShortOrFull(w, last, shift, period);
        BadByteShift(h, w, j, shift);
        if memory != 0 && shift < period {
          MemoryShift(h, w, period, j);
          shift := |w| - period;
        }
        memory := 0;
        j := j + shift;
        continue;
      }
      var i, c := ScanRight(h, w, j, Max(suffix, memory), |w| - 1);
      right := right + c;
      assert Matches(h, w, j, suffix, i);
      if |w| - 1 <= i {
        assert Matches(h, w, j, suffix, |w|);
        var k, c' := ScanLeft(h, w, j, suffix, memory);
        left := left + c';
        if k + 1 < memory + 1 {
          assert OccursAt(h, w, j);
          return Some(j), right + left;
        }
        PeriodShift(h, w, suffix, period, j, k);
        MemoryAfterShift(h, w, suffix, period, j);
        j := j + period;
        memory := |w| - period;
      } else {
        RightMismatchShift(h, w, suffix, j, i);
        j := j + (i - suffix + 1);
        memory := 0;
      }
    }
    return None, right + left;
  }

  method SearchDistinctLong(h: Word, w: Word, suffix: nat, p: nat, table: array<nat>)
    returns (r: Option<nat>, ghost cmps: nat)
    requires 0 < |w| <= |h|
    requires Critical(w, suffix) && MinPeriod(w[suffix..], p) && !Period(w, p)
    requires table.Length == 256 && forall c: Byte :: IsBadByteShift(w, c, table[c])
    ensures IsFirst(h, w, r)
    ensures cmps <= 2 * |h| - |w|
  {
    var period := Max(suffix, |w| - suffix) + 1;
    var j := 0;
    ghost var right: nat, left: nat := 0, 0;
    while j <= |h| - |w|
      invariant NoneBefore(h, w, j)
      invariant right <= j && right <= |h| - suffix
      invariant left <= j && left <= |h| - |w| + suffix
      decreases |h| - j
    {
      var last := h[j + |w| - 1];
      var shift := table[last];
      assert IsBadByteShift(w, last, shift);
      if 0 < shift {
        BadByteShift(h, w, j, shift);
        j := j + shift;
        continue;
      }
      var i, c := ScanRight(h, w, j, suffix, |w| - 1);
      right := right + c;
      if |w| - 1 <= i {
        assert Matches(h, w, j, suffix, |w|);
        var k, c' := ScanLeft(h, w, j, suffix, 0);
        left := left + c';
        if k == -1 {
          assert OccursAt(h, w, j);
          return Some(j), right + left;
        }
        DistinctHalvesShift(h, w, suffix, p, j, k);
        j := j + period;
      } else {
        RightMismatchShift(h, w, suffix, j, i);
        j := j + (i - suffix + 1);
      }
    }
    return None, right + left;
  }

  /** `memchr`. */
  method FindByte(h: Word, c: Byte) returns (r: Option<nat>)
    ensures r.Some? ==> r.value < |h| && h[r.value] == c && forall x :: 0 <= x < r.value ==> h[x] != c
    ensures r.None? ==> c !in h
  {
    for i := 0 to |h|
      invariant forall x :: 0 <= x < i ==> h[x] != c
    {
      if h[i] == c { return Some(i); }
    }
    return None;
  }

  /** Cutting off a part of the haystack that cannot start an occurrence. */
  lemma DropPrefix(h: Word, w: Word, b: nat, r: Option<nat>)
    requires b <= |h| && NoneBefore(h, w, b) && IsFirst(h[b..], w, r)
    ensures IsFirst(h, w, match r case None => None case Some(j) => Some(b + j))
  {
    assert forall j :: b <= j && OccursAt(h, w, j) ==> OccursAt(h[b..], w, j - b);
    assert forall j: nat :: OccursAt(h[b..], w, j) ==> OccursAt(h, w, b + j);
  }

  /** `str::memmem`: the smallest index at which the needle occurs, for all inputs. */
  method Memmem(s: Word, p: Word) returns (r: Option<nat>)
    ensures IsFirst(s, p, r)
  {
    if |s| < |p| { return None; }
    if |s| == 0 || |p| == 0 { return Some(0); }
    ghost var cmps;
    if |p| < LONG_NEEDLE_THRESHOLD {
      var first := FindByte(s, p[0]);
      if first.None? || |p| == 1 {
        assert forall j :: OccursAt(s, p, j) ==> p[0] == s[j + 0];
        return first;
      }
      var b := first.value;
      assert NoneBefore(s, p, b) by {
        forall x | 0 <= x < b ensures !OccursAt(s, p, x) {
          OccursByte(s, p, x, 0);
        }
      }
      if |s| - b < |p| {
        assert forall j :: OccursAt(s, p, j) ==> j < b;
        return None;
      }
      r, cmps := ShortNeedle(s[b..], p);
      DropPrefix(s, p, b, r);
      return match r case None => None case Some(j) => Some(b + j);
    }
    r, cmps := LongNeedle(s, p);
  }
}
