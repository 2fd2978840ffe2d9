/** A known answer of MD5, worked out step by step: the digest of "abc" in the test suite of RFC 1321,
    appendix A.5. It depends on every entry of the sine table, every shift and every index. */
module Md5Answer {
  import opened Division
  import opened HashBlocks
  import opened Word32
  import opened WordBytes
  import opened Md5Rounds
  import opened Md5

  const ABC: seq<Byte> := [0x61, 0x62, 0x63]

  const DIGEST: seq<Byte> := [
    0x90, 0x01, 0x50, 0x98, 0x3c, 0xd2, 0x4f, 0xb0, 0xd6, 0x96, 0x3f, 0x7d, 0x28, 0xe1, 0x7f, 0x72]

  /** The padded message as words. */
  ghost predicate Block(x: seq<Word>) {
    && |x| == 16 && x[0] == 0x80636261 && x[14] == 0x18 && x[15] == 0
    && forall i :: 1 <= i < 14 ==> x[i] == 0
  }

  lemma WordsOf(x: seq<Word>)
    requires Block(x)
    ensures |x| == 16 && x[0] == 0x80636261 && x[1] == 0 && x[2] == 0 && x[3] == 0 && x[4] == 0 && x[5] == 0
    ensures x[6] == 0 && x[7] == 0 && x[8] == 0 && x[9] == 0 && x[10] == 0 && x[11] == 0 && x[12] == 0
    ensures x[13] == 0 && x[14] == 0x18 && x[15] == 0
  {
  }

  lemma NextStep(r: Regs, x: seq<Word>, i: nat, v: Regs, w: Word, t: Word)
    requires |x| == 16 && i < 64 && Steps(r, x, i) == v && x[Index(i)] == w && T(i) == t
    ensures Steps(r, x, i + 1) ==
      Regs(v.d, Add(v.b, Rotate(Add(Add(Add(v.a, Mix(i, v.b, v.c, v.d)), w), t), Shift(i))), v.b, v.c)
  {
    hide Add, Rotate, Mix, Shift, T, Index;
  }

  lemma Steps0(r: Regs, x: seq<Word>)
    requires Block(x) && Steps(r, x, 0) == Regs(0x67452301, 0xefcdab89, 0x98badcfe, 0x10325476)
    ensures Steps(r, x, 16) == Regs(0xdda9b9a6, 0x72aff2e0, 0xe396856b, 0xa1051895)
  {
    hide Steps, T, Index, Block, Shift;
    WordsOf(x);
    Values0();
    Values8();
    Indexes1();
    NextStep(r, x, 0, Regs(0x67452301, 0xefcdab89, 0x98badcfe, 0x10325476), 0x80636261, 0xd76aa478);
    NextStep(r, x, 1, Regs(0x10325476, 0xd6d117b4, 0xefcdab89, 0x98badcfe), 0x00000000, 0xe8c7b756);
    NextStep(r, x, 2, Regs(0x98badcfe, 0x344a8432, 0xd6d117b4, 0xefcdab89), 0x00000000, 0x242070db);
    NextStep(r, x, 3, Regs(0xefcdab89, 0x2f6fbd72, 0x344a8432, 0xd6d117b4), 0x00000000, 0xc1bdceee);
    NextStep(r, x, 4, Regs(0xd6d117b4, 0x7ad956f2, 0x2f6fbd72, 0x344a8432), 0x00000000, 0xf57c0faf);
    NextStep(r, x, 5, Regs(0x344a8432, 0xc73741ef, 0x7ad956f2, 0x2f6fbd72), 0x00000000, 0x4787c62a);
    NextStep(r, x, 6, Regs(0x2f6fbd72, 0x8bac3051, 0xc73741ef, 0x7ad956f2), 0x00000000, 0xa8304613);
    NextStep(r, x, 7, Regs(0x7ad956f2, 0x207dc67b, 0x8bac3051, 0xc73741ef), 0x00000000, 0xfd469501);
    NextStep(r, x, 8, Regs(0xc73741ef, 0x928d99f6, 0x207dc67b, 0x8bac3051), 0x00000000, 0x698098d8);
    NextStep(r, x, 9, Regs(0x8bac3051, 0x854b3712, 0x928d99f6, 0x207dc67b), 0x00000000, 0x8b44f7af);
    NextStep(r, x, 10, Regs(0x207dc67b, 0x74e2f284, 0x854b3712, 0x928d99f6), 0x00000000, 0xffff5bb1);
    NextStep(r, x, 11, Regs(0x928d99f6, 0x3020401c, 0x74e2f284, 0x854b3712), 0x00000000, 0x895cd7be);
    NextStep(r, x, 12, Regs(0x854b3712, 0x5ed49596, 0x3020401c, 0x74e2f284), 0x00000000, 0x6b901122);
    NextStep(r, x, 13, Regs(0x74e2f284, 0xdda9b9a6, 0x5ed49596, 0x3020401c), 0x00000000, 0xfd987193);
    NextStep(r, x, 14, Regs(0x3020401c, 0xa1051895, 0xdda9b9a6, 0x5ed49596), 0x00000018, 0xa679438e);
    NextStep(r, x, 15, Regs(0x5ed49596, 0xe396856b, 0xa1051895, 0xdda9b9a6), 0x00000000, 0x49b40821);
  }

  lemma Steps16(r: Regs, x: seq<Word>)
    requires Block(x) && Steps(r, x, 16) == Regs(0xdda9b9a6, 0x72aff2e0, 0xe396856b, 0xa1051895)
    ensures Steps(r, x, 32) == Regs(0x790a77fb, 0x726342d3, 0xa62884aa, 0x9f47e4f8)
  {
    hide Steps, T, Index, Block, Shift;
    WordsOf(x);
    Values16();
    Values24();
    Indexes2();
    NextStep(r, x, 16, Regs(0xdda9b9a6, 0x72aff2e0, 0xe396856b, 0xa1051895), 0x00000000, 0xf61e2562);
    NextStep(r, x, 17, Regs(0xa1051895, 0x3e9e9126, 0x72aff2e0, 0xe396856b), 0x00000000, 0xc040b340);
    NextStep(r, x, 18, Regs(0xe396856b, 0x4a1d804e, 0x3e9e9126, 0x72aff2e0), 0x00000000, 0x265e5a51);
    NextStep(r, x, 19, Regs(0x72aff2e0, 0xe25e1652, 0x4a1d804e, 0x3e9e9126), 0x80636261, 0xe9b6c7aa);
    NextStep(r, x, 20, Regs(0x3e9e9126, 0xb5b204e4, 0xe25e1652, 0x4a1d804e), 0x00000000, 0xd62f105d);
    NextStep(r, x, 21, Regs(0x4a1d804e, 0x59a8ffda, 0xb5b204e4, 0xe25e1652), 0x00000000, 0x02441453);
    NextStep(r, x, 22, Regs(0xe25e1652, 0x6d002f1e, 0x59a8ffda, 0xb5b204e4), 0x00000000, 0xd8a1e681);
    NextStep(r, x, 23, Regs(0xb5b204e4, 0xabfc7920, 0x6d002f1e, 0x59a8ffda), 0x00000000, 0xe7d3fbc8);
    NextStep(r, x, 24, Regs(0x59a8ffda, 0x47092c07, 0xabfc7920, 0x6d002f1e), 0x00000000, 0x21e1cde6);
    NextStep(r, x, 25, Regs(0x6d002f1e, 0xb7f268cf, 0x47092c07, 0xabfc7920), 0x00000018, 0xc33707d6);
    NextStep(r, x, 26, Regs(0xabfc7920, 0x09388eff, 0xb7f268cf, 0x47092c07), 0x00000000, 0xf4d50d87);
    NextStep(r, x, 27, Regs(0x47092c07, 0xfe1623b1, 0x09388eff, 0xb7f268cf), 0x00000000, 0x455a14ed);
    NextStep(r, x, 28, Regs(0xb7f268cf, 0x786acb8f, 0xfe1623b1, 0x09388eff), 0x00000000, 0xa9e3e905);
    NextStep(r, x, 29, Regs(0x09388eff, 0x790a77fb, 0x786acb8f, 0xfe1623b1), 0x00000000, 0xfcefa3f8);
    NextStep(r, x, 30, Regs(0xfe1623b1, 0x9f47e4f8, 0x790a77fb, 0x786acb8f), 0x00000000, 0x676f02d9);
    NextStep(r, x, 31, Regs(0x786acb8f, 0xa62884aa, 0x9f47e4f8, 0x790a77fb), 0x00000000, 0x8d2a4c8a);
  }

  lemma Steps32(r: Regs, x: seq<Word>)
    requires Block(x) && Steps(r, x, 32) == Regs(0x790a77fb, 0x726342d3, 0xa62884aa, 0x9f47e4f8)
    ensures Steps(r, x, 48) == Regs(0x7f2e507b, 0x7beb9700, 0x8fae6399, 0x99d9679d)
  {
    hide Steps, T, Index, Block, Shift;
    WordsOf(x);
    Values32();
    Values40();
    Indexes3();
    NextStep(r, x, 32, Regs(0x790a77fb, 0x726342d3, 0xa62884aa, 0x9f47e4f8), 0x00000000, 0xfffa3942);
    NextStep(r, x, 33, Regs(0x9f47e4f8, 0xb3707ebf, 0x726342d3, 0xa62884aa), 0x00000000, 0x8771f681);
    NextStep(r, x, 34, Regs(0xa62884aa, 0x60127b2e, 0xb3707ebf, 0x726342d3), 0x00000000, 0x6d9d6122);
    NextStep(r, x, 35, Regs(0x726342d3, 0x8d212ff5, 0x60127b2e, 0xb3707ebf), 0x00000018, 0xfde5380c);
    NextStep(r, x, 36, Regs(0xb3707ebf, 0x3b0875c7, 0x8d212ff5, 0x60127b2e), 0x00000000, 0xa4beea44);
    NextStep(r, x, 37, Regs(0x60127b2e, 0x21b117b9, 0x3b0875c7, 0x8d212ff5), 0x00000000, 0x4bdecfa9);
    NextStep(r, x, 38, Regs(0x8d212ff5, 0x6e7429d5, 0x21b117b9, 0x3b0875c7), 0x00000000, 0xf6bb4b60);
    NextStep(r, x, 39, Regs(0x3b0875c7, 0x3575227e, 0x6e7429d5, 0x21b117b9), 0x00000000, 0xbebfbc70);
    NextStep(r, x, 40, Regs(0x21b117b9, 0x5a2f5ea5, 0x3575227e, 0x6e7429d5), 0x00000000, 0x289b7ec6);
    NextStep(r, x, 41, Regs(0x6e7429d5, 0x11de1779, 0x5a2f5ea5, 0x3575227e), 0x80636261, 0xeaa127fa);
    NextStep(r, x, 42, Regs(0x3575227e, 0xfadcaa38, 0x11de1779, 0x5a2f5ea5), 0x00000000, 0xd4ef3085);
    NextStep(r, x, 43, Regs(0x5a2f5ea5, 0x31c465ca, 0xfadcaa38, 0x11de1779), 0x00000000, 0x04881d05);
    NextStep(r, x, 44, Regs(0x11de1779, 0x4c6124f4, 0x31c465ca, 0xfadcaa38), 0x00000000, 0xd9d4d039);
    NextStep(r, x, 45, Regs(0xfadcaa38, 0x7f2e507b, 0x4c6124f4, 0x31c465ca), 0x00000000, 0xe6db99e5);
    NextStep(r, x, 46, Regs(0x31c465ca, 0x99d9679d, 0x7f2e507b, 0x4c6124f4), 0x00000000, 0x1fa27cf8);
    NextStep(r, x, 47, Regs(0x4c6124f4, 0x8fae6399, 0x99d9679d, 0x7f2e507b), 0x00000000, 0xc4ac5665);
  }

  lemma Steps48(r: Regs, x: seq<Word>)
    requires Block(x) && Steps(r, x, 48) == Regs(0x7f2e507b, 0x7beb9700, 0x8fae6399, 0x99d9679d)
    ensures Steps(r, x, 64) == Regs(0x310ade8f, 0xc08226b3, 0xe484b9d8, 0x624d8cb2)
  {
    hide Steps, T, Index, Block, Shift;
    WordsOf(x);
    Values48();
    Values56();
    Indexes4();
    NextStep(r, x, 48, Regs(0x7f2e507b, 0x7beb9700, 0x8fae6399, 0x99d9679d), 0x80636261, 0xf4292244);
    NextStep(r, x, 49, Regs(0x99d9679d, 0x7b201df8, 0x7beb9700, 0x8fae6399), 0x00000000, 0x432aff97);
    NextStep(r, x, 50, Regs(0x8fae6399, 0xf4e8e96e, 0x7b201df8, 0x7beb9700), 0x00000018, 0xab9423a7);
    NextStep(r, x, 51, Regs(0x7beb9700, 0xb298cefd, 0xf4e8e96e, 0x7b201df8), 0x00000000, 0xfc93a039);
    NextStep(r, x, 52, Regs(0x7b201df8, 0x8bf025c4, 0xb298cefd, 0xf4e8e96e), 0x00000000, 0x655b59c3);
    NextStep(r, x, 53, Regs(0xf4e8e96e, 0x06cc5e8a, 0x8bf025c4, 0xb298cefd), 0x00000000, 0x8f0ccc92);
    NextStep(r, x, 54, Regs(0xb298cefd, 0x5b0d97aa, 0x06cc5e8a, 0x8bf025c4), 0x00000000, 0xffeff47d);
    NextStep(r, x, 55, Regs(0x8bf025c4, 0x7d632dd0, 0x5b0d97aa, 0x06cc5e8a), 0x00000000, 0x85845dd1);
    NextStep(r, x, 56, Regs(0x06cc5e8a, 0x3bfa2c27, 0x7d632dd0, 0x5b0d97aa), 0x00000000, 0x6fa87e4f);
    NextStep(r, x, 57, Regs(0x5b0d97aa, 0x7f81cc35, 0x3bfa2c27, 0x7d632dd0), 0x00000000, 0xfe2ce6e0);
    NextStep(r, x, 58, Regs(0x7d632dd0, 0x094454ab, 0x7f81cc35, 0x3bfa2c27), 0x00000000, 0xa3014314);
    NextStep(r, x, 59, Regs(0x3bfa2c27, 0x4f9dbe3f, 0x094454ab, 0x7f81cc35), 0x00000000, 0x4e0811a1);
    NextStep(r, x, 60, Regs(0x7f81cc35, 0x7327d604, 0x4f9dbe3f, 0x094454ab), 0x00000000, 0xf7537e82);
    NextStep(r, x, 61, Regs(0x094454ab, 0x310ade8f, 0x7327d604, 0x4f9dbe3f), 0x00000000, 0xbd3af235);
    NextStep(r, x, 62, Regs(0x4f9dbe3f, 0x624d8cb2, 0x310ade8f, 0x7327d604), 0x00000000, 0x2ad7d2bb);
    NextStep(r, x, 63, Regs(0x7327d604, 0xe484b9d8, 0x624d8cb2, 0x310ade8f), 0x00000000, 0xeb86d391);
  }

  lemma AllSteps(x: seq<Word>)
    requires Block(x)
    ensures Steps(INIT, x, 64) == Regs(0x310ade8f, 0xc08226b3, 0xe484b9d8, 0x624d8cb2)
  {
    hide Block;
    assert |x| == 16 by { BlockSize(x); }
    assert Steps(INIT, x, 0) == INIT;
    hide Steps;
    Steps0(INIT, x);
    Steps16(INIT, x);
    Steps32(INIT, x);
    Steps48(INIT, x);
  }

  lemma BlockSize(x: seq<Word>)
    requires Block(x)
    ensures |x| == 16
  {
  }

  lemma PaddedAbc()
    ensures |Padding(ABC)| == BLOCK && Padding(ABC)[0..4] == [0x61, 0x62, 0x63, 0x80]
    ensures forall i :: 4 <= i < 56 ==> Padding(ABC)[i] == 0
    ensures Padding(ABC)[56] == 24 && forall i :: 57 <= i < 64 ==> Padding(ABC)[i] == 0
  {
    assert ZeroCount(3) == 52;
    hide ZeroCount;
    LengthOf24();
    hide LittleEndian;
  }

  /** The eight bytes of the length in bits. */
  lemma LengthOf24()
    ensures LittleEndian(24, 8) == [24, 0, 0, 0, 0, 0, 0, 0]
  {
    EightBytes(24);
    hide LittleEndian;
  }

  lemma KnownBytes()
    ensures Wide(0) == 0 && Wide(0x61) == 0x61 && Wide(0x62) == 0x62 && Wide(0x63) == 0x63 && Wide(0x80) == 0x80
    ensures Wide(24) == 24
  {
    WideIs(0);
    WideIs(0x61);
    WideIs(0x62);
    WideIs(0x63);
    WideIs(0x80);
    WideIs(24);
    hide Wide;
  }

  lemma BlockOfAbc()
    ensures |Padding(ABC)| == BLOCK && Block(Words(Padding(ABC)))
  {
    PaddedAbc();
    KnownBytes();
    hide Padding, Wide;
    var p := Padding(ABC);
    assert p[0] == p[0..4][0] && p[1] == p[0..4][1] && p[2] == p[0..4][2] && p[3] == p[0..4][3];
  }

  lemma Compressed(p: seq<Byte>)
    requires |p| == BLOCK && Block(Words(p))
    ensures Compress(INIT, p) == Regs(0x98500190, 0xb04fd23c, 0x7d3f96d6, 0x727fe128)
  {
    AllSteps(Words(p));
    hide Steps, Words, Block;
  }

  /** The digest of "abc". */
  lemma DigestOfAbc()
    ensures Digest(ABC) == DIGEST
  {
    BlockOfAbc();
    var p := Padding(ABC);
    OneBlock(INIT, p);
    Compressed(p);
    hide Padding, Words, Compress, Block, Fold;
    Written();
  }

  lemma Written()
    ensures Output(Regs(0x98500190, 0xb04fd23c, 0x7d3f96d6, 0x727fe128)) == DIGEST
  {
    hide LittleEndian;
    WordValues();
    BytesOf((0x98500190 as Word) as nat, 0x98, 0x50, 0x01, 0x90);
    BytesOf((0xb04fd23c as Word) as nat, 0xb0, 0x4f, 0xd2, 0x3c);
    BytesOf((0x7d3f96d6 as Word) as nat, 0x7d, 0x3f, 0x96, 0xd6);
    BytesOf((0x727fe128 as Word) as nat, 0x72, 0x7f, 0xe1, 0x28);
  }

  lemma WordValues()
    ensures (0x98500190 as Word) as nat == 0x98500190
    ensures (0xb04fd23c as Word) as nat == 0xb04fd23c
    ensures (0x7d3f96d6 as Word) as nat == 0x7d3f96d6
    ensures (0x727fe128 as Word) as nat == 0x727fe128
  {
  }
}
