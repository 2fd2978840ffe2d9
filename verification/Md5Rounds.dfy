/** The block function of MD5, `body` of `src/hash/md5.cc`: 64 written-out steps on four registers that
    change their roles, and cheaper forms of the auxiliary functions, compute section 3.4 of RFC 1321. */
module Md5Rounds {
  import opened HashBlocks
  import opened Word32
  import opened WordBytes

  /** The buffer of four words, section 3.3 of RFC 1321. */
  datatype Regs = Regs(a: Word, b: Word, c: Word, d: Word)

  // ----- section 3.4 of RFC 1321

  function F(x: Word, y: Word, z: Word): Word {
    (x & y) | (!x & z)
  }

  function G(x: Word, y: Word, z: Word): Word {
    (x & z) | (y & !z)
  }

  function H(x: Word, y: Word, z: Word): Word {
    x ^ y ^ z
  }

  function I(x: Word, y: Word, z: Word): Word {
    y ^ (x | !z)
  }

  function Rotate(x: Word, s: bv6): Word
    requires 0 < s < 32
  {
    (x << s) | (x >> (32 - s))
  }

  /** The function of step `i`, counted from 0. */
  function Mix(i: nat, x: Word, y: Word, z: Word): Word {
    if i < 16 then F(x, y, z) else if i < 32 then G(x, y, z) else if i < 48 then H(x, y, z) else I(x, y, z)
  }

  /** Which word of the block step `i` uses. */
  function Index(i: nat): (k: nat)
    ensures k < 16
  {
    if i < 16 then i else if i < 32 then (5 * i + 1) % 16 else if i < 48 then (3 * i + 5) % 16 else 7 * i % 16
  }

  const SHIFTS: seq<seq<bv6>> := [[7, 12, 17, 22], [5, 9, 14, 20], [4, 11, 16, 23], [6, 10, 15, 21]]

  function Shift(i: nat): (s: bv6)
    requires i < 64
    ensures 0 < s < 32
  {
    SHIFTS[i / 16][i % 4]
  }

  const T1: seq<Word> := [
    0xd76aa478, 0xe8c7b756, 0x242070db, 0xc1bdceee,
    0xf57c0faf, 0x4787c62a, 0xa8304613, 0xfd469501,
    0x698098d8, 0x8b44f7af, 0xffff5bb1, 0x895cd7be,
    0x6b901122, 0xfd987193, 0xa679438e, 0x49b40821
  ]

  const T2: seq<Word> := [
    0xf61e2562, 0xc040b340, 0x265e5a51, 0xe9b6c7aa,
    0xd62f105d, 0x02441453, 0xd8a1e681, 0xe7d3fbc8,
    0x21e1cde6, 0xc33707d6, 0xf4d50d87, 0x455a14ed,
    0xa9e3e905, 0xfcefa3f8, 0x676f02d9, 0x8d2a4c8a
  ]

  const T3: seq<Word> := [
    0xfffa3942, 0x8771f681, 0x6d9d6122, 0xfde5380c,
    0xa4beea44, 0x4bdecfa9, 0xf6bb4b60, 0xbebfbc70,
    0x289b7ec6, 0xeaa127fa, 0xd4ef3085, 0x04881d05,
    0xd9d4d039, 0xe6db99e5, 0x1fa27cf8, 0xc4ac5665
  ]

  const T4: seq<Word> := [
    0xf4292244, 0x432aff97, 0xab9423a7, 0xfc93a039,
    0x655b59c3, 0x8f0ccc92, 0xffeff47d, 0x85845dd1,
    0x6fa87e4f, 0xfe2ce6e0, 0xa3014314, 0x4e0811a1,
    0xf7537e82, 0xbd3af235, 0x2ad7d2bb, 0xeb86d391
  ]

  /** The table of sines: entry `i` is the integer part of 4294967296 times the absolute sine of `i + 1`. */
  function T(i: nat): Word
    requires i < 64
  {
    if i < 16 then T1[i] else if i < 32 then T2[i - 16] else if i < 48 then T3[i - 32] else T4[i - 48]
  }

  /** Step `i` writes one register, and then each has the next name. */
  function Step(r: Regs, x: seq<Word>, i: nat): Regs
    requires |x| == 16 && i < 64
  {
    var sum := Add(Add(Add(r.a, Mix(i, r.b, r.c, r.d)), x[Index(i)]), T(i));
    Regs(r.d, Add(r.b, Rotate(sum, Shift(i))), r.b, r.c)
  }

  /** The first `n` steps. */
  function Steps(r: Regs, x: seq<Word>, n: nat): Regs
    requires |x| == 16 && n <= 64
  {
    if n == 0 then r else Step(Steps(r, x, n - 1), x, n - 1)
  }

  /** Four bytes as a word, the least significant first. */
  function WordOf(a: Byte, b: Byte, c: Byte, d: Byte): Word {
    Packed(Wide(d), Wide(c), Wide(b), Wide(a))
  }

  function Words(block: seq<Byte>): (x: seq<Word>)
    requires |block| == BLOCK
    ensures |x| == 16
  {
    seq(16, i requires 0 <= i < 16 => WordOf(block[4 * i], block[4 * i + 1], block[4 * i + 2], block[4 * i + 3]))
  }

  /** A word is read from its four bytes, the least significant first. */
  lemma WordsAreBytes(a: Byte, b: Byte, c: Byte, d: Byte)
    ensures LittleEndian(WordOf(a, b, c, d) as nat, 4) == [a, b, c, d]
  {
    hide LittleEndian, Packed, Wide;
    WordValue(d, c, b, a);
    BytesOf(WordOf(a, b, c, d) as nat, d, c, b, a);
  }

  function Compress(r: Regs, block: seq<Byte>): Regs {
    if |block| != BLOCK then r else
      var s := Steps(r, Words(block), 64);
      Regs(Add(s.a, r.a), Add(s.b, r.b), Add(s.c, r.c), Add(s.d, r.d))
  }

  // ----- the macros

  function FMacro(x: Word, y: Word, z: Word): Word {
    z ^ (x & (y ^ z))
  }

  function GMacro(x: Word, y: Word, z: Word): Word {
    y ^ (z & (x ^ y))
  }

  function H1Macro(x: Word, y: Word, z: Word): Word {
    (x ^ y) ^ z
  }

  function H2Macro(x: Word, y: Word, z: Word): Word {
    x ^ (y ^ z)
  }

  function IMacro(x: Word, y: Word, z: Word): Word {
    y ^ (x | !z)
  }

  /** A rotation of a word that may have more bits than 32. */
  function RotateMacro(x: Word, s: bv6): Word
    requires 0 < s < 32
  {
    (x << s) | ((x & 0xffff_ffff) >> (32 - s))
  }

  /** The macro `STEP`, with the value of its function. */
  function StepMacro(f: Word, a: Word, b: Word, x: Word, t: Word, s: bv6): Word
    requires 0 < s < 32
  {
    var sum := Add(a, Add(Add(f, x), t));
    Add(RotateMacro(sum, s), b)
  }

  lemma FForms(x: Word, y: Word, z: Word)
    ensures FMacro(x, y, z) == F(x, y, z)
  {
    assert z ^ (x & (y ^ z)) == (x & y) | (!x & z);
  }

  lemma GForms(x: Word, y: Word, z: Word)
    ensures GMacro(x, y, z) == G(x, y, z)
  {
    assert y ^ (z & (x ^ y)) == (x & z) | (y & !z);
  }

  lemma HForms(x: Word, y: Word, z: Word)
    ensures H1Macro(x, y, z) == H(x, y, z) && H2Macro(x, y, z) == H(x, y, z)
  {
    assert x ^ (y ^ z) == x ^ y ^ z;
  }

  lemma MaskBits(x: Word)
    ensures x & 0xffff_ffff == x
  {
  }

  lemma RotateForms(x: Word, s: bv6)
    requires 0 < s < 32
    ensures RotateMacro(x, s) == Rotate(x, s)
  {
    MaskBits(x);
  }

  /** The macro does what section 3.4 says a step does. */
  lemma StepForms(f: Word, a: Word, b: Word, x: Word, t: Word, s: bv6)
    requires 0 < s < 32
    ensures StepMacro(f, a, b, x, t, s) == Add(b, Rotate(Add(Add(Add(a, f), x), t), s))
  {
    AddAssoc(a, Add(f, x), t);
    AddAssoc(a, f, x);
    var sum := Add(a, Add(Add(f, x), t));
    RotateForms(sum, s);
    AddComm(Rotate(sum, s), b);
    hide Add, Rotate, RotateMacro;
  }

  /** The registers `a` to `d` before a step; `x` is the block. */
  lemma StepIs(r: Regs, x: seq<Word>, i: nat, a: Word, b: Word, c: Word, d: Word)
    requires |x| == 16 && i < 64 && Steps(r, x, i) == Regs(a, b, c, d)
    ensures Steps(r, x, i + 1) == Regs(d, StepMacro(Mix(i, b, c, d), a, b, x[Index(i)], T(i), Shift(i)), b, c)
  {
    hide StepMacro, Mix, Index, Shift, T, Rotate, Add;
    StepForms(Mix(i, b, c, d), a, b, x[Index(i)], T(i), Shift(i));
  }

  lemma FStep(r: Regs, x: seq<Word>, i: nat, a: Word, b: Word, c: Word, d: Word)
    requires |x| == 16 && 0 <= i < 16 && Steps(r, x, i) == Regs(a, b, c, d)
    ensures Steps(r, x, i + 1) == Regs(d, StepMacro(FMacro(b, c, d), a, b, x[Index(i)], T(i), Shift(i)), b, c)
  {
    hide StepMacro, Index, Shift, T, Steps, F, G, H, I, FMacro;
    StepIs(r, x, i, a, b, c, d);
    FForms(b, c, d);
  }

  lemma GStep(r: Regs, x: seq<Word>, i: nat, a: Word, b: Word, c: Word, d: Word)
    requires |x| == 16 && 16 <= i < 32 && Steps(r, x, i) == Regs(a, b, c, d)
    ensures Steps(r, x, i + 1) == Regs(d, StepMacro(GMacro(b, c, d), a, b, x[Index(i)], T(i), Shift(i)), b, c)
  {
    hide StepMacro, Index, Shift, T, Steps, F, G, H, I, GMacro;
    StepIs(r, x, i, a, b, c, d);
    GForms(b, c, d);
  }

  lemma HStep(r: Regs, x: seq<Word>, i: nat, a: Word, b: Word, c: Word, d: Word)
    requires |x| == 16 && 32 <= i < 48 && Steps(r, x, i) == Regs(a, b, c, d)
    ensures Steps(r, x, i + 1) == Regs(d, StepMacro(H1Macro(b, c, d), a, b, x[Index(i)], T(i), Shift(i)), b, c)
    ensures Steps(r, x, i + 1) == Regs(d, StepMacro(H2Macro(b, c, d), a, b, x[Index(i)], T(i), Shift(i)), b, c)
  {
    hide StepMacro, Index, Shift, T, Steps, F, G, H, I, H1Macro, H2Macro;
    StepIs(r, x, i, a, b, c, d);
    HForms(b, c, d);
  }

  lemma IStep(r: Regs, x: seq<Word>, i: nat, a: Word, b: Word, c: Word, d: Word)
    requires |x| == 16 && 48 <= i < 64 && Steps(r, x, i) == Regs(a, b, c, d)
    ensures Steps(r, x, i + 1) == Regs(d, StepMacro(IMacro(b, c, d), a, b, x[Index(i)], T(i), Shift(i)), b, c)
  {
    hide StepMacro, Index, Shift, T, Steps, F, G, H;
    StepIs(r, x, i, a, b, c, d);
  }

  lemma Indexes1()
    ensures forall i :: 0 <= i < 16 ==> Index(i) == i
  {
  }

  lemma Indexes2()
    ensures Index(16) == 1 && Index(17) == 6 && Index(18) == 11 && Index(19) == 0
    ensures Index(20) == 5 && Index(21) == 10 && Index(22) == 15 && Index(23) == 4
    ensures Index(24) == 9 && Index(25) == 14 && Index(26) == 3 && Index(27) == 8
    ensures Index(28) == 13 && Index(29) == 2 && Index(30) == 7 && Index(31) == 12
  {
  }

  lemma Indexes3()
    ensures Index(32) == 5 && Index(33) == 8 && Index(34) == 11 && Index(35) == 14
    ensures Index(36) == 1 && Index(37) == 4 && Index(38) == 7 && Index(39) == 10
    ensures Index(40) == 13 && Index(41) == 0 && Index(42) == 3 && Index(43) == 6
    ensures Index(44) == 9 && Index(45) == 12 && Index(46) == 15 && Index(47) == 2
  {
  }

  lemma Indexes4()
    ensures Index(48) == 0 && Index(49) == 7 && Index(50) == 14 && Index(51) == 5
    ensures Index(52) == 12 && Index(53) == 3 && Index(54) == 10 && Index(55) == 1
    ensures Index(56) == 8 && Index(57) == 15 && Index(58) == 6 && Index(59) == 13
    ensures Index(60) == 4 && Index(61) == 11 && Index(62) == 2 && Index(63) == 9
  {
  }

  lemma Values0()
    ensures T(0) == 0xd76aa478 && T(1) == 0xe8c7b756 && T(2) == 0x242070db && T(3) == 0xc1bdceee
    ensures T(4) == 0xf57c0faf && T(5) == 0x4787c62a && T(6) == 0xa8304613 && T(7) == 0xfd469501
    ensures Shift(0) == 7 && Shift(1) == 12 && Shift(2) == 17 && Shift(3) == 22
    ensures Shift(4) == 7 && Shift(5) == 12 && Shift(6) == 17 && Shift(7) == 22
  {
  }

  lemma Values8()
    ensures T(8) == 0x698098d8 && T(9) == 0x8b44f7af && T(10) == 0xffff5bb1 && T(11) == 0x895cd7be
    ensures T(12) == 0x6b901122 && T(13) == 0xfd987193 && T(14) == 0xa679438e && T(15) == 0x49b40821
    ensures Shift(8) == 7 && Shift(9) == 12 && Shift(10) == 17 && Shift(11) == 22
    ensures Shift(12) == 7 && Shift(13) == 12 && Shift(14) == 17 && Shift(15) == 22
  {
  }

  lemma Values16()
    ensures T(16) == 0xf61e2562 && T(17) == 0xc040b340 && T(18) == 0x265e5a51 && T(19) == 0xe9b6c7aa
    ensures T(20) == 0xd62f105d && T(21) == 0x02441453 && T(22) == 0xd8a1e681 && T(23) == 0xe7d3fbc8
    ensures Shift(16) == 5 && Shift(17) == 9 && Shift(18) == 14 && Shift(19) == 20
    ensures Shift(20) == 5 && Shift(21) == 9 && Shift(22) == 14 && Shift(23) == 20
  {
  }

  lemma Values24()
    ensures T(24) == 0x21e1cde6 && T(25) == 0xc33707d6 && T(26) == 0xf4d50d87 && T(27) == 0x455a14ed
    ensures T(28) == 0xa9e3e905 && T(29) == 0xfcefa3f8 && T(30) == 0x676f02d9 && T(31) == 0x8d2a4c8a
    ensures Shift(24) == 5 && Shift(25) == 9 && Shift(26) == 14 && Shift(27) == 20
    ensures Shift(28) == 5 && Shift(29) == 9 && Shift(30) == 14 && Shift(31) == 20
  {
  }

  lemma Values32()
    ensures T(32) == 0xfffa3942 && T(33) == 0x8771f681 && T(34) == 0x6d9d6122 && T(35) == 0xfde5380c
    ensures T(36) == 0xa4beea44 && T(37) == 0x4bdecfa9 && T(38) == 0xf6bb4b60 && T(39) == 0xbebfbc70
    ensures Shift(32) == 4 && Shift(33) == 11 && Shift(34) == 16 && Shift(35) == 23
    ensures Shift(36) == 4 && Shift(37) == 11 && Shift(38) == 16 && Shift(39) == 23
  {
  }

  lemma Values40()
    ensures T(40) == 0x289b7ec6 && T(41) == 0xeaa127fa && T(42) == 0xd4ef3085 && T(43) == 0x04881d05
    ensures T(44) == 0xd9d4d039 && T(45) == 0xe6db99e5 && T(46) == 0x1fa27cf8 && T(47) == 0xc4ac5665
    ensures Shift(40) == 4 && Shift(41) == 11 && Shift(42) == 16 && Shift(43) == 23
    ensures Shift(44) == 4 && Shift(45) == 11 && Shift(46) == 16 && Shift(47) == 23
  {
  }

  lemma Values48()
    ensures T(48) == 0xf4292244 && T(49) == 0x432aff97 && T(50) == 0xab9423a7 && T(51) == 0xfc93a039
    ensures T(52) == 0x655b59c3 && T(53) == 0x8f0ccc92 && T(54) == 0xffeff47d && T(55) == 0x85845dd1
    ensures Shift(48) == 6 && Shift(49) == 10 && Shift(50) == 15 && Shift(51) == 21
    ensures Shift(52) == 6 && Shift(53) == 10 && Shift(54) == 15 && Shift(55) == 21
  {
  }

  lemma Values56()
    ensures T(56) == 0x6fa87e4f && T(57) == 0xfe2ce6e0 && T(58) == 0xa3014314 && T(59) == 0x4e0811a1
    ensures T(60) == 0xf7537e82 && T(61) == 0xbd3af235 && T(62) == 0x2ad7d2bb && T(63) == 0xeb86d391
    ensures Shift(56) == 6 && Shift(57) == 10 && Shift(58) == 15 && Shift(59) == 21
    ensures Shift(60) == 6 && Shift(61) == 10 && Shift(62) == 15 && Shift(63) == 21
  {
  }

  /** Steps 1 to 8 of round 1. */
  method Steps0(ghost r: Regs, x: seq<Word>, a0: Word, b0: Word, c0: Word, d0: Word)
    returns (a: Word, b: Word, c: Word, d: Word)
    requires |x| == 16 && Steps(r, x, 0) == Regs(a0, b0, c0, d0)
    ensures Steps(r, x, 8) == Regs(a, b, c, d)
  {
    hide StepMacro, Steps, FMacro, Index, T, Shift;
    a, b, c, d := a0, b0, c0, d0;
    Values0();
    Indexes1();
    FStep(r, x, 0, a, b, c, d);
    a := StepMacro(FMacro(b, c, d), a, b, x[0], 0xd76aa478, 7);
    FStep(r, x, 1, d, a, b, c);
    d := StepMacro(FMacro(a, b, c), d, a, x[1], 0xe8c7b756, 12);
    FStep(r, x, 2, c, d, a, b);
    c := StepMacro(FMacro(d, a, b), c, d, x[2], 0x242070db, 17);
    FStep(r, x, 3, b, c, d, a);
    b := StepMacro(FMacro(c, d, a), b, c, x[3], 0xc1bdceee, 22);
    FStep(r, x, 4, a, b, c, d);
    a := StepMacro(FMacro(b, c, d), a, b, x[4], 0xf57c0faf, 7);
    FStep(r, x, 5, d, a, b, c);
    d := StepMacro(FMacro(a, b, c), d, a, x[5], 0x4787c62a, 12);
    FStep(r, x, 6, c, d, a, b);
    c := StepMacro(FMacro(d, a, b), c, d, x[6], 0xa8304613, 17);
    FStep(r, x, 7, b, c, d, a);
    b := StepMacro(FMacro(c, d, a), b, c, x[7], 0xfd469501, 22);
  }

  /** Steps 9 to 16 of round 1. */
  method Steps8(ghost r: Regs, x: seq<Word>, a0: Word, b0: Word, c0: Word, d0: Word)
    returns (a: Word, b: Word, c: Word, d: Word)
    requires |x| == 16 && Steps(r, x, 8) == Regs(a0, b0, c0, d0)
    ensures Steps(r, x, 16) == Regs(a, b, c, d)
  {
    hide StepMacro, Steps, FMacro, Index, T, Shift;
    a, b, c, d := a0, b0, c0, d0;
    Values8();
    Indexes1();
    FStep(r, x, 8, a, b, c, d);
    a := StepMacro(FMacro(b, c, d), a, b, x[8], 0x698098d8, 7);
    FStep(r, x, 9, d, a, b, c);
    d := StepMacro(FMacro(a, b, c), d, a, x[9], 0x8b44f7af, 12);
    FStep(r, x, 10, c, d, a, b);
    c := StepMacro(FMacro(d, a, b), c, d, x[10], 0xffff5bb1, 17);
    FStep(r, x, 11, b, c, d, a);
    b := StepMacro(FMacro(c, d, a), b, c, x[11], 0x895cd7be, 22);
    FStep(r, x, 12, a, b, c, d);
    a := StepMacro(FMacro(b, c, d), a, b, x[12], 0x6b901122, 7);
    FStep(r, x, 13, d, a, b, c);
    d := StepMacro(FMacro(a, b, c), d, a, x[13], 0xfd987193, 12);
    FStep(r, x, 14, c, d, a, b);
    c := StepMacro(FMacro(d, a, b), c, d, x[14], 0xa679438e, 17);
    FStep(r, x, 15, b, c, d, a);
    b := StepMacro(FMacro(c, d, a), b, c, x[15], 0x49b40821, 22);
  }

  /** Steps 1 to 8 of round 2. */
  method Steps16(ghost r: Regs, x: seq<Word>, a0: Word, b0: Word, c0: Word, d0: Word)
    returns (a: Word, b: Word, c: Word, d: Word)
    requires |x| == 16 && Steps(r, x, 16) == Regs(a0, b0, c0, d0)
    ensures Steps(r, x, 24) == Regs(a, b, c, d)
  {
    hide StepMacro, Steps, GMacro, Index, T, Shift;
    a, b, c, d := a0, b0, c0, d0;
    Values16();
    Indexes2();
    GStep(r, x, 16, a, b, c, d);
    a := StepMacro(GMacro(b, c, d), a, b, x[1], 0xf61e2562, 5);
    GStep(r, x, 17, d, a, b, c);
    d := StepMacro(GMacro(a, b, c), d, a, x[6], 0xc040b340, 9);
    GStep(r, x, 18, c, d, a, b);
    c := StepMacro(GMacro(d, a, b), c, d, x[11], 0x265e5a51, 14);
    GStep(r, x, 19, b, c, d, a);
    b := StepMacro(GMacro(c, d, a), b, c, x[0], 0xe9b6c7aa, 20);
    GStep(r, x, 20, a, b, c, d);
    a := StepMacro(GMacro(b, c, d), a, b, x[5], 0xd62f105d, 5);
    GStep(r, x, 21, d, a, b, c);
    d := StepMacro(GMacro(a, b, c), d, a, x[10], 0x02441453, 9);
    GStep(r, x, 22, c, d, a, b);
    c := StepMacro(GMacro(d, a, b), c, d, x[15], 0xd8a1e681, 14);
    GStep(r, x, 23, b, c, d, a);
    b := StepMacro(GMacro(c, d, a), b, c, x[4], 0xe7d3fbc8, 20);
  }

  /** Steps 9 to 16 of round 2. */
  method Steps24(ghost r: Regs, x: seq<Word>, a0: Word, b0: Word, c0: Word, d0: Word)
    returns (a: Word, b: Word, c: Word, d: Word)
    requires |x| == 16 && Steps(r, x, 24) == Regs(a0, b0, c0, d0)
    ensures Steps(r, x, 32) == Regs(a, b, c, d)
  {
    hide StepMacro, Steps, GMacro, Index, T, Shift;
    a, b, c, d := a0, b0, c0, d0;
    Values24();
    Indexes2();
    GStep(r, x, 24, a, b, c, d);
    a := StepMacro(GMacro(b, c, d), a, b, x[9], 0x21e1cde6, 5);
    GStep(r, x, 25, d, a, b, c);
    d := StepMacro(GMacro(a, b, c), d, a, x[14], 0xc33707d6, 9);
    GStep(r, x, 26, c, d, a, b);
    c := StepMacro(GMacro(d, a, b), c, d, x[3], 0xf4d50d87, 14);
    GStep(r, x, 27, b, c, d, a);
    b := StepMacro(GMacro(c, d, a), b, c, x[8], 0x455a14ed, 20);
    GStep(r, x, 28, a, b, c, d);
    a := StepMacro(GMacro(b, c, d), a, b, x[13], 0xa9e3e905, 5);
    GStep(r, x, 29, d, a, b, c);
    d := StepMacro(GMacro(a, b, c), d, a, x[2], 0xfcefa3f8, 9);
    GStep(r, x, 30, c, d, a, b);
    c := StepMacro(GMacro(d, a, b), c, d, x[7], 0x676f02d9, 14);
    GStep(r, x, 31, b, c, d, a);
    b := StepMacro(GMacro(c, d, a), b, c, x[12], 0x8d2a4c8a, 20);
  }

  /** Steps 1 to 8 of round 3. */
  method Steps32(ghost r: Regs, x: seq<Word>, a0: Word, b0: Word, c0: Word, d0: Word)
    returns (a: Word, b: Word, c: Word, d: Word)
    requires |x| == 16 && Steps(r, x, 32) == Regs(a0, b0, c0, d0)
    ensures Steps(r, x, 40) == Regs(a, b, c, d)
  {
    hide StepMacro, Steps, H1Macro, H2Macro, Index, T, Shift;
    a, b, c, d := a0, b0, c0, d0;
    Values32();
    Indexes3();
    HStep(r, x, 32, a, b, c, d);
    a := StepMacro(H1Macro(b, c, d), a, b, x[5], 0xfffa3942, 4);
    HStep(r, x, 33, d, a, b, c);
    d := StepMacro(H2Macro(a, b, c), d, a, x[8], 0x8771f681, 11);
    HStep(r, x, 34, c, d, a, b);
    c := StepMacro(H1Macro(d, a, b), c, d, x[11], 0x6d9d6122, 16);
    HStep(r, x, 35, b, c, d, a);
    b := StepMacro(H2Macro(c, d, a), b, c, x[14], 0xfde5380c, 23);
    HStep(r, x, 36, a, b, c, d);
    a := StepMacro(H1Macro(b, c, d), a, b, x[1], 0xa4beea44, 4);
    HStep(r, x, 37, d, a, b, c);
    d := StepMacro(H2Macro(a, b, c), d, a, x[4], 0x4bdecfa9, 11);
    HStep(r, x, 38, c, d, a, b);
    c := StepMacro(H1Macro(d, a, b), c, d, x[7], 0xf6bb4b60, 16);
    HStep(r, x, 39, b, c, d, a);
    b := StepMacro(H2Macro(c, d, a), b, c, x[10], 0xbebfbc70, 23);
  }

  /** Steps 9 to 16 of round 3. */
  method Steps40(ghost r: Regs, x: seq<Word>, a0: Word, b0: Word, c0: Word, d0: Word)
    returns (a: Word, b: Word, c: Word, d: Word)
    requires |x| == 16 && Steps(r, x, 40) == Regs(a0, b0, c0, d0)
    ensures Steps(r, x, 48) == Regs(a, b, c, d)
  {
    hide StepMacro, Steps, H1Macro, H2Macro, Index, T, Shift;
    a, b, c, d := a0, b0, c0, d0;
    Values40();
    Indexes3();
    HStep(r, x, 40, a, b, c, d);
    a := StepMacro(H1Macro(b, c, d), a, b, x[13], 0x289b7ec6, 4);
    HStep(r, x, 41, d, a, b, c);
    d := StepMacro(H2Macro(a, b, c), d, a, x[0], 0xeaa127fa, 11);
    HStep(r, x, 42, c, d, a, b);
    c := StepMacro(H1Macro(d, a, b), c, d, x[3], 0xd4ef3085, 16);
    HStep(r, x, 43, b, c, d, a);
    b := StepMacro(H2Macro(c, d, a), b, c, x[6], 0x04881d05, 23);
    HStep(r, x, 44, a, b, c, d);
    a := StepMacro(H1Macro(b, c, d), a, b, x[9], 0xd9d4d039, 4);
    HStep(r, x, 45, d, a, b, c);
    d := StepMacro(H2Macro(a, b, c), d, a, x[12], 0xe6db99e5, 11);
    HStep(r, x, 46, c, d, a, b);
    c := StepMacro(H1Macro(d, a, b), c, d, x[15], 0x1fa27cf8, 16);
    HStep(r, x, 47, b, c, d, a);
    b := StepMacro(H2Macro(c, d, a), b, c, x[2], 0xc4ac5665, 23);
  }

  /** Steps 1 to 8 of round 4. */
  method Steps48(ghost r: Regs, x: seq<Word>, a0: Word, b0: Word, c0: Word, d0: Word)
    returns (a: Word, b: Word, c: Word, d: Word)
    requires |x| == 16 && Steps(r, x, 48) == Regs(a0, b0, c0, d0)
    ensures Steps(r, x, 56) == Regs(a, b, c, d)
  {
    hide StepMacro, Steps, IMacro, Index, T, Shift;
    a, b, c, d := a0, b0, c0, d0;
    Values48();
    Indexes4();
    IStep(r, x, 48, a, b, c, d);
    a := StepMacro(IMacro(b, c, d), a, b, x[0], 0xf4292244, 6);
    IStep(r, x, 49, d, a, b, c);
    d := StepMacro(IMacro(a, b, c), d, a, x[7], 0x432aff97, 10);
    IStep(r, x, 50, c, d, a, b);
    c := StepMacro(IMacro(d, a, b), c, d, x[14], 0xab9423a7, 15);
    IStep(r, x, 51, b, c, d, a);
    b := StepMacro(IMacro(c, d, a), b, c, x[5], 0xfc93a039, 21);
    IStep(r, x, 52, a, b, c, d);
    a := StepMacro(IMacro(b, c, d), a, b, x[12], 0x655b59c3, 6);
    IStep(r, x, 53, d, a, b, c);
    d := StepMacro(IMacro(a, b, c), d, a, x[3], 0x8f0ccc92, 10);
    IStep(r, x, 54, c, d, a, b);
    c := StepMacro(IMacro(d, a, b), c, d, x[10], 0xffeff47d, 15);
    IStep(r, x, 55, b, c, d, a);
    b := StepMacro(IMacro(c, d, a), b, c, x[1], 0x85845dd1, 21);
  }

  /** Steps 9 to 16 of round 4. */
  method Steps56(ghost r: Regs, x: seq<Word>, a0: Word, b0: Word, c0: Word, d0: Word)
    returns (a: Word, b: Word, c: Word, d: Word)
    requires |x| == 16 && Steps(r, x, 56) == Regs(a0, b0, c0, d0)
    ensures Steps(r, x, 64) == Regs(a, b, c, d)
  {
    hide StepMacro, Steps, IMacro, Index, T, Shift;
    a, b, c, d := a0, b0, c0, d0;
    Values56();
    Indexes4();
    IStep(r, x, 56, a, b, c, d);
    a := StepMacro(IMacro(b, c, d), a, b, x[8], 0x6fa87e4f, 6);
    IStep(r, x, 57, d, a, b, c);
    d := StepMacro(IMacro(a, b, c), d, a, x[15], 0xfe2ce6e0, 10);
    IStep(r, x, 58, c, d, a, b);
    c := StepMacro(IMacro(d, a, b), c, d, x[6], 0xa3014314, 15);
    IStep(r, x, 59, b, c, d, a);
    b := StepMacro(IMacro(c, d, a), b, c, x[13], 0x4e0811a1, 21);
    IStep(r, x, 60, a, b, c, d);
    a := StepMacro(IMacro(b, c, d), a, b, x[4], 0xf7537e82, 6);
    IStep(r, x, 61, d, a, b, c);
    d := StepMacro(IMacro(a, b, c), d, a, x[11], 0xbd3af235, 10);
    IStep(r, x, 62, c, d, a, b);
    c := StepMacro(IMacro(d, a, b), c, d, x[2], 0x2ad7d2bb, 15);
    IStep(r, x, 63, b, c, d, a);
    b := StepMacro(IMacro(c, d, a), b, c, x[9], 0xeb86d391, 21);
  }

  /** The body of the loop: one block. */
  method Transform(r: Regs, block: seq<Byte>) returns (s: Regs)
    requires |block| == BLOCK
    ensures s == Compress(r, block)
  {
    hide Steps, Words;
    var x := Words(block);
    StepsNone(r, x);
    var a, b, c, d := Steps0(r, x, r.a, r.b, r.c, r.d);
    a, b, c, d := Steps8(r, x, a, b, c, d);
    a, b, c, d := Steps16(r, x, a, b, c, d);
    a, b, c, d := Steps24(r, x, a, b, c, d);
    a, b, c, d := Steps32(r, x, a, b, c, d);
    a, b, c, d := Steps40(r, x, a, b, c, d);
    a, b, c, d := Steps48(r, x, a, b, c, d);
    a, b, c, d := Steps56(r, x, a, b, c, d);
    s := Regs(Add(a, r.a), Add(b, r.b), Add(c, r.c), Add(d, r.d));
  }

  lemma StepsNone(r: Regs, x: seq<Word>)
    requires |x| == 16
    ensures Steps(r, x, 0) == r
  {
  }
}
