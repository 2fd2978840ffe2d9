/** The block function of SHA-256: `sha256_transform` of `src/hash/sha256.cc`, which keeps 16 words of
    the schedule in a ring and renames its registers by rotating indices, computes section 6.2.2 of
    FIPS 180-4. */
module Sha256Rounds {
  import opened Division
  import opened Word32

  // ----- section 4.1.2 and section 6.2.2 of FIPS 180-4

  function Rotr(x: Word, n: bv6): Word
    requires 0 < n < 32
  {
    (x >> n) | (x << (32 - n))
  }

  function Ch(x: Word, y: Word, z: Word): Word {
    (x & y) ^ (!x & z)
  }

  function Maj(x: Word, y: Word, z: Word): Word {
    (x & y) ^ (x & z) ^ (y & z)
  }

  function BigSigma0(x: Word): Word {
    Rotr(x, 2) ^ Rotr(x, 13) ^ Rotr(x, 22)
  }

  function BigSigma1(x: Word): Word {
    Rotr(x, 6) ^ Rotr(x, 11) ^ Rotr(x, 25)
  }

  function SmallSigma0(x: Word): Word {
    Rotr(x, 7) ^ Rotr(x, 18) ^ (x >> 3)
  }

  function SmallSigma1(x: Word): Word {
    Rotr(x, 17) ^ Rotr(x, 19) ^ (x >> 10)
  }

  const K0: seq<Word> := [
    0x428a2f98, 0x71374491, 0xb5c0fbcf, 0xe9b5dba5, 0x3956c25b, 0x59f111f1, 0x923f82a4, 0xab1c5ed5,
    0xd807aa98, 0x12835b01, 0x243185be, 0x550c7dc3, 0x72be5d74, 0x80deb1fe, 0x9bdc06a7, 0xc19bf174]

  const K16: seq<Word> := [
    0xe49b69c1, 0xefbe4786, 0x0fc19dc6, 0x240ca1cc, 0x2de92c6f, 0x4a7484aa, 0x5cb0a9dc, 0x76f988da,
    0x983e5152, 0xa831c66d, 0xb00327c8, 0xbf597fc7, 0xc6e00bf3, 0xd5a79147, 0x06ca6351, 0x14292967]

  const K32: seq<Word> := [
    0x27b70a85, 0x2e1b2138, 0x4d2c6dfc, 0x53380d13, 0x650a7354, 0x766a0abb, 0x81c2c92e, 0x92722c85,
    0xa2bfe8a1, 0xa81a664b, 0xc24b8b70, 0xc76c51a3, 0xd192e819, 0xd6990624, 0xf40e3585, 0x106aa070]

  const K48: seq<Word> := [
    0x19a4c116, 0x1e376c08, 0x2748774c, 0x34b0bcb5, 0x391c0cb3, 0x4ed8aa4a, 0x5b9cca4f, 0x682e6ff3,
    0x748f82ee, 0x78a5636f, 0x84c87814, 0x8cc70208, 0x90befffa, 0xa4506ceb, 0xbef9a3f7, 0xc67178f2]

  /** The message schedule of 64 words. */
  function Schedule(m: seq<Word>, t: nat): Word
    requires |m| == 16
  {
    if t < 16 then m[t]
    else Add(Add(Add(SmallSigma1(Schedule(m, t - 2)), Schedule(m, t - 7)), SmallSigma0(Schedule(m, t - 15))),
      Schedule(m, t - 16))
  }

  /** The eight working variables. */
  datatype Vars = Vars(a: Word, b: Word, c: Word, d: Word, e: Word, f: Word, g: Word, h: Word)

  function Round(v: Vars, k: Word, w: Word): Vars {
    var t1 := Add(Add(Add(Add(v.h, BigSigma1(v.e)), Ch(v.e, v.f, v.g)), k), w);
    var t2 := Add(BigSigma0(v.a), Maj(v.a, v.b, v.c));
    Vars(Add(t1, t2), v.a, v.b, v.c, Add(v.d, t1), v.e, v.f, v.g)
  }

  /** The working variables after `t` rounds. */
  function Rounds(v: Vars, m: seq<Word>, t: nat): Vars
    requires |m| == 16 && t <= 64
  {
    if t == 0 then v else Round(Rounds(v, m, t - 1), KAt(t - 1), Schedule(m, t - 1))
  }

  /** The constants of section 4.2.2. */
  function KAt(t: nat): Word
    requires t < 64
  {
    if t < 16 then K0[t] else if t < 32 then K16[t - 16] else if t < 48 then K32[t - 32] else K48[t - 48]
  }

  function OfSeq(s: seq<Word>): Vars
    requires |s| == 8
  {
    Vars(s[0], s[1], s[2], s[3], s[4], s[5], s[6], s[7])
  }

  function Added(s: seq<Word>, v: Vars): seq<Word>
    requires |s| == 8
  {
    [Add(s[0], v.a), Add(s[1], v.b), Add(s[2], v.c), Add(s[3], v.d),
     Add(s[4], v.e), Add(s[5], v.f), Add(s[6], v.g), Add(s[7], v.h)]
  }

  /** The intermediate hash value after one more message block. */
  function Compress(s: seq<Word>, m: seq<Word>): (r: seq<Word>)
    requires |s| == 8 && |m| == 16
    ensures |r| == 8
  {
    Added(s, Rounds(OfSeq(s), m, 64))
  }

  // ----- the code

  function ChMacro(x: Word, y: Word, z: Word): Word {
    z ^ (x & (y ^ z))
  }

  function MajMacro(x: Word, y: Word, z: Word): Word {
    (x & y) | (z & (x | y))
  }

  lemma ChBits(x: Word, y: Word, z: Word)
    ensures z ^ (x & (y ^ z)) == (x & y) ^ (!x & z)
  {
  }

  lemma MajBits(x: Word, y: Word, z: Word)
    ensures (x & y) | (z & (x | y)) == (x & y) ^ (x & z) ^ (y & z)
  {
  }

  lemma ChForms(x: Word, y: Word, z: Word)
    ensures ChMacro(x, y, z) == Ch(x, y, z)
  {
    ChBits(x, y, z);
  }

  lemma MajForms(x: Word, y: Word, z: Word)
    ensures MajMacro(x, y, z) == Maj(x, y, z)
  {
    MajBits(x, y, z);
  }

  /** Where register `k` of a to h is before round `t`: `T[(k - t) & 7]`. */
  function Slot(k: nat, t: nat): (r: nat)
    requires k < 8
    ensures r < 8
  {
    (k + 8 - t % 8) % 8
  }

  /** One round later every name stands for the next slot. */
  lemma SlotsNext(t: nat)
    ensures Slot(0, t + 1) == Slot(7, t) && Slot(1, t + 1) == Slot(0, t) && Slot(2, t + 1) == Slot(1, t)
    ensures Slot(3, t + 1) == Slot(2, t) && Slot(4, t + 1) == Slot(3, t) && Slot(5, t + 1) == Slot(4, t)
    ensures Slot(6, t + 1) == Slot(5, t) && Slot(7, t + 1) == Slot(6, t)
  {
    assert (t + 1) % 8 == if t % 8 == 7 then 0 else t % 8 + 1;
  }

  lemma SlotsApart(t: nat)
    ensures Apart(3, 0, t) && Apart(3, 1, t) && Apart(3, 2, t) && Apart(3, 4, t) && Apart(3, 5, t) && Apart(3, 6, t)
    ensures Apart(7, 0, t) && Apart(7, 1, t) && Apart(7, 2, t) && Apart(7, 4, t) && Apart(7, 5, t) && Apart(7, 6, t)
    ensures Apart(3, 7, t)
  {
    var r := t % 8;
    assert forall k :: 0 <= k < 8 ==> Slot(k, t) == if k < r then k + 8 - r else k - r;
  }

  predicate Apart(k: nat, l: nat, t: nat)
    requires k < 8 && l < 8
  {
    Slot(k, t) != Slot(l, t)
  }

  /** The registers hold the working variables before round `t`. */
  predicate Holds(regs: seq<Word>, t: nat, v: Vars)
    requires |regs| == 8
  {
    && regs[Slot(0, t)] == v.a && regs[Slot(1, t)] == v.b && regs[Slot(2, t)] == v.c && regs[Slot(3, t)] == v.d
    && regs[Slot(4, t)] == v.e && regs[Slot(5, t)] == v.f && regs[Slot(6, t)] == v.g && regs[Slot(7, t)] == v.h
  }

  /** Writing the slots of d and h is a whole round: the other registers only change their names. */
  lemma Renamed(regs: seq<Word>, t: nat, v: Vars, d: Word, h: Word)
    requires |regs| == 8 && Holds(regs, t, v)
    ensures Holds(regs[Slot(3, t) := d][Slot(7, t) := h], t + 1, Vars(h, v.a, v.b, v.c, d, v.e, v.f, v.g))
  {
    SlotsNext(t);
    SlotsApart(t);
    hide Slot;
  }

  /** The ring holds the last sixteen words of the schedule before round `t`. */
  predicate Ring(w: seq<Word>, m: seq<Word>, t: nat)
    requires |w| == 16 && |m| == 16
  {
    forall u: nat :: u < t <= u + 16 ==> w[u % 16] == Schedule(m, u)
  }

  lemma RingStep(w: seq<Word>, m: seq<Word>, t: nat, x: Word)
    requires |w| == 16 && |m| == 16 && Ring(w, m, t) && x == Schedule(m, t)
    ensures Ring(w[t % 16 := x], m, t + 1)
  {
    hide Schedule;
    forall u: nat | u < t + 1 <= u + 16 ensures w[t % 16 := x][u % 16] == Schedule(m, u) {
      if u < t { assert u % 16 != t % 16; }
    }
  }

  /** The word that `blk2` adds up is the next one of the schedule. */
  lemma ScheduleForms(m: seq<Word>, t: nat)
    requires |m| == 16 && t >= 16
    ensures Add(Schedule(m, t - 16),
        Add(Add(SmallSigma1(Schedule(m, t - 2)), Schedule(m, t - 7)), SmallSigma0(Schedule(m, t - 15)))) ==
          Schedule(m, t)
  {
    hide SmallSigma0, SmallSigma1, Add;
    AddComm(Add(Add(SmallSigma1(Schedule(m, t - 2)), Schedule(m, t - 7)), SmallSigma0(Schedule(m, t - 15))),
      Schedule(m, t - 16));
  }

  lemma RoundIndex(i: nat, j: nat)
    requires i < 16 && j % 16 == 0
    ensures (j + i) % 16 == i
  {
  }

  /** The macros `blk0` and `blk2`. */
  method NextWord(w: array<Word>, data: seq<Word>, i: nat, j: nat) returns (x: Word)
    requires w.Length == 16 && |data| == 16 && i < 16 && j % 16 == 0 && Ring(w[..], data, j + i)
    modifies w
    ensures x == Schedule(data, j + i) && Ring(w[..], data, j + i + 1)
  {
    hide SmallSigma0, SmallSigma1, Add;
    ghost var t := j + i;
    if j == 0 {
      w[i] := data[i];
    } else {
      ScheduleForms(data, t);
      RingAt(w[..], data, i, j);
      hide Schedule;
      w[i] := Add(w[i], Add(Add(SmallSigma1(w[(i + 14) % 16]), w[(i + 9) % 16]), SmallSigma0(w[(i + 1) % 16])));
    }
    hide Ring;
    RingStep(old(w[..]), data, t, w[i]);
    RoundIndex(i, j);
    assert w[..] == old(w[..])[t % 16 := w[i]];
    x := w[i];
  }

  lemma RingAt(w: seq<Word>, m: seq<Word>, i: nat, j: nat)
    requires |w| == 16 && |m| == 16 && i < 16 && j % 16 == 0 && j >= 16 && Ring(w, m, j + i)
    ensures var t := j + i;
      && w[(i + 14) % 16] == Schedule(m, t - 2) && w[(i + 9) % 16] == Schedule(m, t - 7)
      && w[(i + 1) % 16] == Schedule(m, t - 15) && w[i] == Schedule(m, t - 16)
  {
    hide Schedule, Ring;
    RingBack(w, m, i, j, 2);
    RingBack(w, m, i, j, 7);
    RingBack(w, m, i, j, 15);
    RingBack(w, m, i, j, 16);
  }

  lemma RingBack(w: seq<Word>, m: seq<Word>, i: nat, j: nat, k: nat)
    requires |w| == 16 && |m| == 16 && i < 16 && j % 16 == 0 && j >= 16 && Ring(w, m, j + i) && 1 <= k <= 16
    ensures w[(i + 16 - k) % 16] == Schedule(m, j + i - k)
  {
    hide Schedule;
    RingIndex(i, j, k);
    var u := j + i - k;
    assert w[u % 16] == Schedule(m, u);
  }

  lemma RingIndex(i: nat, j: nat, k: nat)
    requires i < 16 && j % 16 == 0 && j >= 16 && k <= 16
    ensures (j + i - k) % 16 == (i + 16 - k) % 16
  {
    var x := i + 16 - k;
    assert j == 16 * (j / 16);
    assert x == 16 * (x / 16) + x % 16;
    assert j + i - k == 16 * (j / 16 - 1 + x / 16) + x % 16;
  }

  /** What the macro `R` writes to the registers of h and d. */
  lemma RoundForms(v: Vars, k: Word, w: Word)
    ensures var h := Add(v.h, Add(Add(Add(BigSigma1(v.e), ChMacro(v.e, v.f, v.g)), k), w));
      var h' := Add(h, Add(BigSigma0(v.a), MajMacro(v.a, v.b, v.c)));
      Round(v, k, w) == Vars(h', v.a, v.b, v.c, Add(v.d, h), v.e, v.f, v.g)
  {
    hide BigSigma0, BigSigma1, Ch, Maj, ChMacro, MajMacro, Add;
    ChForms(v.e, v.f, v.g);
    MajForms(v.a, v.b, v.c);
    var s, c := BigSigma1(v.e), Ch(v.e, v.f, v.g);
    AddAssoc(v.h, Add(Add(s, c), k), w);
    AddAssoc(v.h, Add(s, c), k);
    AddAssoc(v.h, s, c);
  }

  lemma SlotsPeriodic(i: nat, j: nat)
    requires j % 16 == 0
    ensures forall k :: 0 <= k < 8 ==> Slot(k, i) == Slot(k, j + i)
  {
    SameMod(j + i, 8, 2 * (j / 16), i);
  }

  /** The macro `R`. */
  method OneRound(regs: array<Word>, w: array<Word>, data: seq<Word>, i: nat, j: nat, ghost v: Vars)
    requires regs.Length == 8 && w.Length == 16 && regs != w && |data| == 16 && i < 16 && j % 16 == 0 && j + i < 64
    requires Ring(w[..], data, j + i) && Holds(regs[..], j + i, v)
    modifies regs, w
    ensures Ring(w[..], data, j + i + 1)
    ensures Holds(regs[..], j + i + 1, Round(v, KAt(j + i), Schedule(data, j + i)))
  {
    hide Ring, Schedule, BigSigma0, BigSigma1, ChMacro, MajMacro, Add, KAt;
    var x := NextWord(w, data, i, j);
    ghost var t := j + i;
    SlotsPeriodic(i, j);
    SlotsApart(t);
    RoundForms(v, KAt(t), x);
    Renamed(regs[..], t, v, Round(v, KAt(t), x).e, Round(v, KAt(t), x).a);
    hide Slot, Round;
    var a, b, c, d := Slot(0, i), Slot(1, i), Slot(2, i), Slot(3, i);
    var e, f, g, h := Slot(4, i), Slot(5, i), Slot(6, i), Slot(7, i);
    regs[h] := Add(regs[h], Add(Add(Add(BigSigma1(regs[e]), ChMacro(regs[e], regs[f], regs[g])), KAt(i + j)), x));
    regs[d] := Add(regs[d], regs[h]);
    regs[h] := Add(regs[h], Add(BigSigma0(regs[a]), MajMacro(regs[a], regs[b], regs[c])));
    assert regs[..] == old(regs[..])[d := regs[d]][h := regs[h]];
  }

  lemma NoRounds(w: seq<Word>, v: Vars, m: seq<Word>)
    requires |w| == 16 && |m| == 16
    ensures Ring(w, m, 0) && Rounds(v, m, 0) == v
  {
  }

  lemma NextRound(v: Vars, m: seq<Word>, t: nat)
    requires |m| == 16 && t < 64
    ensures Rounds(v, m, t + 1) == Round(Rounds(v, m, t), KAt(t), Schedule(m, t))
  {
  }

  /** The 64 rounds, 16 at a time. */
  method AllRounds(regs: array<Word>, data: seq<Word>, ghost v: Vars)
    requires regs.Length == 8 && |data| == 16 && Holds(regs[..], 0, v)
    modifies regs
    ensures Holds(regs[..], 64, Rounds(v, data, 64))
  {
    hide Schedule, Round, Rounds, Holds, KAt;
    var w := new Word[16];
    NoRounds(w[..], v, data);
    hide Ring;
    var j := 0;
    while j < 64
      invariant 0 <= j <= 64 && j % 16 == 0
      invariant Ring(w[..], data, j) && Holds(regs[..], j, Rounds(v, data, j))
    {
      for i := 0 to 16
        invariant Ring(w[..], data, j + i) && Holds(regs[..], j + i, Rounds(v, data, j + i))
      {
        OneRound(regs, w, data, i, j, Rounds(v, data, j + i));
        NextRound(v, data, j + i);
      }
      j := j + 16;
    }
  }

  lemma InOrder(regs: seq<Word>, t: nat, v: Vars)
    requires |regs| == 8 && t % 8 == 0
    ensures Holds(regs, t, v) <==> OfSeq(regs) == v
  {
  }

  lemma AddedIs(h: seq<Word>, regs: seq<Word>, s: seq<Word>)
    requires |h| == 8 && |regs| == 8 && |s| == 8 && forall k :: 0 <= k < 8 ==> s[k] == Add(h[k], regs[k])
    ensures s == Added(h, OfSeq(regs))
  {
  }

  /** `sha256_transform`. */
  method Transform(state: array<Word>, data: seq<Word>)
    requires state.Length == 8 && |data| == 16
    modifies state
    ensures state[..] == Compress(old(state[..]), data)
  {
    hide Rounds, Add, Holds, Slot, OfSeq, Added;
    var regs := new Word[8];
    ghost var h := state[..];
    ghost var v := OfSeq(h);
    for j := 0 to 8
      invariant state[..] == h
      invariant regs[..j] == h[..j]
    {
      regs[j] := state[j];
    }
    assert regs[..] == h;
    InOrder(regs[..], 0, v);
    AllRounds(regs, data, v);
    InOrder(regs[..], 64, Rounds(v, data, 64));
    ghost var r := regs[..];
    for i := 0 to 8
      invariant forall k :: 0 <= k < i ==> state[k] == Add(h[k], regs[k])
      invariant forall k :: i <= k < 8 ==> state[k] == h[k]
      invariant regs[..] == r
    {
      state[i] := Add(state[i], regs[i]);
    }
    AddedIs(h, r, state[..]);
  }
}
