/** Words of 32 bits and the bytes they are made of, by value. */
module WordBytes {
  import opened Division
  import opened HashBlocks
  import opened Word32

  /** A byte as a word: the one that counts as many. */
  function Wide(b: Byte): Word {
    if b == 0 then 0 else Wide(b - 1) + 1
  }

  /** It has the bits of the byte. */
  lemma {:induction false} WideIs(v: bv8)
    ensures Wide(v as nat) == v as bv32
    decreases v as nat
  {
    if v != 0 {
      Predecessor(v);
      WideIs(v - 1);
    }
  }

  lemma Predecessor(v: bv8)
    requires v != 0
    ensures v as nat == (v - 1) as nat + 1 && (v - 1) as bv32 + 1 == v as bv32
  {
  }

  lemma Successor(v: bv8)
    requires v as nat < 255
    ensures (v + 1) as nat == v as nat + 1
  {
  }

  /** The bits of a byte. */
  lemma {:induction false} BitsOf(b: Byte) returns (v: bv8)
    ensures v as nat == b
  {
    v := 0;
    if b > 0 {
      var u := BitsOf(b - 1);
      Successor(u);
      v := u + 1;
    }
  }

  /** Four bytes in the places of a word. */
  function Packed(a: Word, b: Word, c: Word, d: Word): Word {
    (a << 24) + (b << 16) + (c << 8) + d
  }

  lemma BitsSum(a: bv8, b: bv8, c: bv8, d: bv8)
    ensures (((a as bv32) << 24) + ((b as bv32) << 16) + ((c as bv32) << 8) + (d as bv32)) as nat
      == a as nat * 0x100_0000 + b as nat * 0x1_0000 + c as nat * 0x100 + d as nat
  {
  }

  lemma PackedIs(a: Word, b: Word, c: Word, d: Word)
    ensures Packed(a, b, c, d) == (a << 24) + (b << 16) + (c << 8) + d
  {
  }

  lemma BitsValue(a: bv8, b: bv8, c: bv8, d: bv8)
    ensures Packed(a as bv32, b as bv32, c as bv32, d as bv32) as nat
      == a as nat * 0x100_0000 + b as nat * 0x1_0000 + c as nat * 0x100 + d as nat
  {
    BitsSum(a, b, c, d);
    PackedIs(a as bv32, b as bv32, c as bv32, d as bv32);
    hide Packed;
  }

  /** What four bytes in the places of a word count. */
  lemma WordValue(a: Byte, b: Byte, c: Byte, d: Byte)
    ensures Packed(Wide(a), Wide(b), Wide(c), Wide(d)) as nat == a * 0x100_0000 + b * 0x1_0000 + c * 0x100 + d
  {
    hide Wide, Packed;
    var p := BitsOf(a);
    var q := BitsOf(b);
    var r := BitsOf(c);
    var s := BitsOf(d);
    WideIs(p);
    WideIs(q);
    WideIs(r);
    WideIs(s);
    BitsValue(p, q, r, s);
  }

  /** The bytes of a word, by their bits. */
  lemma WordBits(w: Word)
    ensures w == (((w >> 24) as bv8 as bv32) << 24) + ((((w >> 16) & 0xff) as bv8 as bv32) << 16)
      + ((((w >> 8) & 0xff) as bv8 as bv32) << 8) + ((w & 0xff) as bv8 as bv32)
  {
  }

  lemma NarrowByte(w: Word)
    requires w <= 0xff
    ensures w as nat == (w as bv8) as nat < 256
  {
  }

  lemma LowByte(w: Word)
    ensures w & 0xff <= 0xff && w >> 24 <= 0xff && (w >> 24) & 0xff == w >> 24
  {
  }

  /** What the bytes of a word count. */
  lemma BytesValue(w: Word)
    ensures w as nat == ((w >> 24) & 0xff) as nat * 0x100_0000 + ((w >> 16) & 0xff) as nat * 0x1_0000
      + ((w >> 8) & 0xff) as nat * 0x100 + (w & 0xff) as nat
    ensures ((w >> 24) & 0xff) as nat < 256 && ((w >> 16) & 0xff) as nat < 256 && ((w >> 8) & 0xff) as nat < 256
    ensures (w & 0xff) as nat < 256
  {
    var a, b, c, d := w >> 24, (w >> 16) & 0xff, (w >> 8) & 0xff, w & 0xff;
    WordBits(w);
    LowByte(w);
    LowByte(w >> 16);
    LowByte(w >> 8);
    NarrowByte(a);
    NarrowByte(b);
    NarrowByte(c);
    NarrowByte(d);
    BitsSum(a as bv8, b as bv8, c as bv8, d as bv8);
  }

  /** Four bytes are determined by the number they make up. */
  lemma BytesOf(n: nat, a: Byte, b: Byte, c: Byte, d: Byte)
    requires n == a * 0x100_0000 + b * 0x1_0000 + c * 0x100 + d
    ensures BigEndian(n, 4) == [a, b, c, d] && LittleEndian(n, 4) == [d, c, b, a]
  {
    FourBytes(n);
    hide BigEndian, LittleEndian;
    DivIs(n, 256, a * 0x1_0000 + b * 0x100 + c, d);
    DivIs(n, 0x1_0000, a * 0x100 + b, c * 0x100 + d);
    DivIs(n, 0x100_0000, a, b * 0x1_0000 + c * 0x100 + d);
    DivIs(a * 0x1_0000 + b * 0x100 + c, 256, a * 0x100 + b, c);
    DivIs(a * 0x100 + b, 256, a, b);
    DivIs(a, 256, 0, a);
  }

  lemma FourBytes(n: nat)
    ensures BigEndian(n, 4) == [n / 0x100_0000 % 256, n / 0x1_0000 % 256, n / 0x100 % 256, n % 256]
    ensures LittleEndian(n, 4) == [n % 256, n / 0x100 % 256, n / 0x1_0000 % 256, n / 0x100_0000 % 256]
  {
    Powers();
    hide Pow256;
    assert n / 1 == n;
  }

  lemma Powers()
    ensures Pow256(0) == 1 && Pow256(1) == 0x100 && Pow256(2) == 0x1_0000 && Pow256(3) == 0x100_0000
  {
  }

  // ----- the bytes of any number

  /** The number that bytes make up, the most significant first. */
  function Number(s: seq<Byte>): nat {
    if s == [] then 0 else Number(s[..|s| - 1]) * 256 + s[|s| - 1]
  }

  lemma DivTwice(n: nat, p: nat)
    requires p > 0
    ensures n / 256 / p == n / (256 * p)
  {
    var q, r := n / 256, n % 256;
    var a, b := q / p, q % p;
    QuotRem(q, p);
    assert n == 256 * (p * a + b) + r;
    assert 256 * (p * a) == 256 * p * a;
    assert 256 * b + r < 256 * p;
    DivIs(n, 256 * p, a, 256 * b + r);
  }

  lemma BigEndianLast(n: nat, k: nat)
    requires k > 0
    ensures BigEndian(n, k) == BigEndian(n / 256, k - 1) + [n % 256]
  {
    var s, u := BigEndian(n, k), BigEndian(n / 256, k - 1);
    forall i | 0 <= i < k - 1 ensures s[i] == u[i] {
      assert s[i] == n / Pow256(k - 1 - i) % 256 && u[i] == n / 256 / Pow256(k - 2 - i) % 256;
      assert Pow256(k - 1 - i) == 256 * Pow256(k - 2 - i);
      DivTwice(n, Pow256(k - 2 - i));
    }
    assert s[k - 1] == n / Pow256(0) % 256 && Pow256(0) == 1 && n / 1 == n;
    assert s == u + [n % 256];
  }

  lemma ModStep(n: nat, p: nat)
    requires p > 0
    ensures n % (256 * p) == n / 256 % p * 256 + n % 256
  {
    var q, r := n / 256, n % 256;
    var a, b := q / p, q % p;
    QuotRem(q, p);
    assert n == 256 * (p * a + b) + r;
    assert 256 * (p * a) == 256 * p * a;
    assert 256 * b + r < 256 * p;
    DivIs(n, 256 * p, a, 256 * b + r);
  }

  /** Encoding a number in `k` bytes keeps it modulo 256 to the `k`. */
  lemma {:induction false} BytesKeepNumber(n: nat, k: nat)
    ensures |BigEndian(n, k)| == k && Number(BigEndian(n, k)) == n % Pow256(k)
  {
    if k > 0 {
      BigEndianLast(n, k);
      BytesKeepNumber(n / 256, k - 1);
      ModStep(n, Pow256(k - 1));
      hide BigEndian;
      assert BigEndian(n, k)[..k - 1] == BigEndian(n / 256, k - 1);
    }
  }

  /** The two byte orders are the reverse of each other. */
  lemma OrdersReversed(n: nat, k: nat, i: nat)
    requires i < k
    ensures |BigEndian(n, k)| == |LittleEndian(n, k)| == k && LittleEndian(n, k)[i] == BigEndian(n, k)[k - 1 - i]
  {
  }
}
