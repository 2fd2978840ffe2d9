/** `md5_update` and `md5_final` of `src/hash/md5.cc`: whatever way the input is split, the result is the
    digest of RFC 1321 of the whole message. */
module Md5 {
  import opened Division
  import opened HashBlocks
  import opened Md5Rounds

  const INIT := Regs(0x67452301, 0xefcdab89, 0x98badcfe, 0x10325476)

  const LO := 0x2000_0000
  const HI := 0x1_0000_0000

  function Output(r: Regs): seq<Byte> {
    LittleEndian(r.a as nat, 4) + LittleEndian(r.b as nat, 4) + LittleEndian(r.c as nat, 4)
    + LittleEndian(r.d as nat, 4)
  }

  /** Sections 3.1 and 3.2 of RFC 1321: the length in bits is taken modulo 2 to the 64. */
  function Padding(msg: seq<Byte>): seq<Byte> {
    Padded(msg, LittleEndian(8 * |msg|, 8))
  }

  function Digest(msg: seq<Byte>): seq<Byte> {
    Output(Fold(Compress, INIT, Padding(msg)))
  }

  /** The two counters together count the bytes modulo 2 to the 61. */
  lemma CountersAdd(n: nat, size: nat)
    ensures var lo, hi := n % LO, n / LO % HI;
      var lo' := (lo + size) % LO;
      && lo' == (n + size) % LO
      && ((if lo' < lo then hi + 1 else hi) % HI + size / LO % HI) % HI == (n + size) / LO % HI
  {
    var lo, s := n % LO, size % LO;
    var carry := if lo + s < LO then 0 else 1;
    assert n == LO * (n / LO) + lo && size == LO * (size / LO) + s;
    assert n + size == LO * (n / LO + size / LO + carry) + (lo + s - LO * carry);
    DivIs(n + size, LO, n / LO + size / LO + carry, lo + s - LO * carry);
    DivIs(lo + size, LO, size / LO + carry, lo + s - LO * carry);
    AddMod(n / LO, carry, size / LO);
  }

  lemma AddMod(a: nat, c: nat, b: nat)
    ensures ((a % HI + c) % HI + b % HI) % HI == (a + b + c) % HI
  {
    var x := a % HI + c;
    SameMod(x + b % HI, HI, x / HI, x % HI + b % HI);
    SameMod(a + b + c, HI, a / HI + b / HI, x + b % HI);
  }

  /** The eight bytes that `md5_final` writes from its two counters. */
  lemma LengthBytes(n: nat)
    ensures var lo, hi := n % LO * 8 % HI, n / LO % HI;
      LittleEndian(8 * n, 8) ==
      [lo % 256, lo / 0x100 % 256, lo / 0x1_0000 % 256, lo / 0x100_0000 % 256,
       hi % 256, hi / 0x100 % 256, hi / 0x1_0000 % 256, hi / 0x100_0000 % 256]
  {
    var q, r := n / LO, n % LO;
    assert 8 * n == HI * q + 8 * r;
    LowBytes(q, 8 * r);
    HighBytes(q, 8 * r);
    assert r * 8 == 8 * r;
    DivIs(8 * r, HI, 0, 8 * r);
    EightBytes(8 * n);
    hide LittleEndian;
  }

  lemma EightBytes(x: nat)
    ensures LittleEndian(x, 8) ==
      [x % 256, x / 0x100 % 256, x / 0x1_0000 % 256, x / 0x100_0000 % 256,
       x / HI % 256, x / 0x100_0000_0000 % 256, x / 0x1_0000_0000_0000 % 256, x / 0x100_0000_0000_0000 % 256]
  {
    PowersOf256();
    hide Pow256;
    assert |LittleEndian(x, 8)| == 8;
  }

  lemma PowersOf256()
    ensures Pow256(0) == 1 && Pow256(1) == 0x100 && Pow256(2) == 0x1_0000 && Pow256(3) == 0x100_0000 && Pow256(4) == HI
    ensures Pow256(5) == 0x100_0000_0000 && Pow256(6) == 0x1_0000_0000_0000 && Pow256(7) == 0x100_0000_0000_0000
  {
  }

  lemma LowBytes(q: nat, lo: nat)
    requires lo < HI
    ensures var x := HI * q + lo;
      x % 256 == lo % 256 && x / 0x100 % 256 == lo / 0x100 % 256
      && x / 0x1_0000 % 256 == lo / 0x1_0000 % 256 && x / 0x100_0000 % 256 == lo / 0x100_0000 % 256
  {
    LowByte(q, lo, 1, 0x100_0000);
    LowByte(q, lo, 0x100, 0x1_0000);
    LowByte(q, lo, 0x1_0000, 0x100);
    LowByte(q, lo, 0x100_0000, 1);
  }

  lemma LowByte(q: nat, lo: nat, p: nat, m: nat)
    requires p > 0 && p * m * 256 == HI
    ensures (HI * q + lo) / p % 256 == lo / p % 256
  {
    var y := lo / p;
    assert HI * q == p * (m * 256 * q);
    assert p * (m * 256 * q) + p * y == p * (m * 256 * q + y);
    DivIs(HI * q + lo, p, m * 256 * q + y, lo % p);
    assert m * 256 * q == 256 * (m * q);
    DivIs(m * 256 * q + y, 256, m * q + y / 256, y % 256);
  }

  lemma HighBytes(q: nat, lo: nat)
    requires lo < HI
    ensures var x, hi := HI * q + lo, q % HI;
      x / HI % 256 == hi % 256 && x / 0x100_0000_0000 % 256 == hi / 0x100 % 256
      && x / 0x1_0000_0000_0000 % 256 == hi / 0x1_0000 % 256 && x / 0x100_0000_0000_0000 % 256 == hi / 0x100_0000 % 256
  {
    var x, hi := HI * q + lo, q % HI;
    assert q == HI * (q / HI) + hi;
    LowBytes(q / HI, hi);
    assert x / HI == q;
    assert x / 0x100_0000_0000 == q / 0x100;
    assert x / 0x1_0000_0000_0000 == q / 0x1_0000;
    assert x / 0x100_0000_0000_0000 == q / 0x100_0000;
  }

  class Context {
    var regs: Regs
    var lo: nat
    var hi: nat
    const buffer: array<Byte>
    ghost var msg: seq<Byte>

    ghost predicate Holding(data: seq<Byte>, pos: nat)
      reads this, buffer
    {
      buffer.Length == BLOCK && Pending(Compress, INIT, regs, buffer[..], data, pos)
    }

    ghost predicate Valid()
      reads this, buffer
    {
      && lo == |msg| % LO && hi == |msg| / LO % HI
      && Holding(msg, |msg| % BLOCK)
    }

    /** `md5_init`. */
    constructor ()
      ensures Valid() && msg == [] && fresh(buffer)
    {
      regs, lo, hi, msg := INIT, 0, 0, [];
      buffer := new Byte[BLOCK](_ => 0);
      new;
      PendingNothing(Compress, INIT, buffer[..]);
    }

    /** `body`: one or more blocks, which need not lie in the buffer. */
    method Body(data: seq<Byte>)
      requires |data| % BLOCK == 0 && data != []
      modifies this`regs
      ensures regs == Fold(Compress, old(regs), data)
    {
      hide Compress, Fold;
      var k := 0;
      assert data[0..] == data;
      while k < |data|
        invariant 0 <= k <= |data| && k % BLOCK == 0
        invariant Fold(Compress, regs, data[k..]) == Fold(Compress, old(regs), data)
      {
        NextBlock(regs, data, k);
        regs := Transform(regs, data[k..k + BLOCK]);
        k := k + BLOCK;
      }
      FoldNothing(regs, data[k..]);
    }

    /** `memcpy(&ctx->buffer[pos], d, n)`. */
    method Copy(pos: nat, d: seq<Byte>)
      requires pos + |d| <= buffer.Length
      modifies buffer
      ensures buffer[..] == old(buffer[..])[..pos] + d + old(buffer[..])[pos + |d|..]
    {
      for k := 0 to |d|
        invariant buffer[..pos] == old(buffer[..pos]) && buffer[pos..pos + k] == d[..k]
        invariant buffer[pos + k..] == old(buffer[pos + k..])
      {
        buffer[pos + k] := d[k];
      }
    }

    method Append(ghost data: seq<Byte>, pos: nat, d: seq<Byte>)
      requires Holding(data, pos) && pos + |d| <= BLOCK
      modifies buffer
      ensures Holding(data + d, pos + |d|)
    {
      PendingBytes(Compress, INIT, regs, buffer[..], data, pos, d);
      hide Pending;
      Copy(pos, d);
    }

    method FullBlock(ghost data: seq<Byte>)
      requires Holding(data, BLOCK)
      modifies this`regs
      ensures Holding(data, 0)
    {
      PendingBlock(Compress, INIT, regs, buffer[..], data);
      OneBlock(regs, buffer[..]);
      hide Pending, Fold;
      Body(buffer[..]);
    }

    /** `md5_update`. */
    method Update(s: seq<Byte>)
      requires Valid()
      modifies this, buffer
      ensures Valid() && msg == old(msg) + s
    {
      hide Pending;
      UsedIs(|msg|);
      var used := lo % 64;
      Count(|msg|, |s|);
      Feed(used, s);
      msg := msg + s;
    }

    /** The counters of `md5_update`. */
    method Count(ghost n: nat, size: nat)
      requires lo == n % LO && hi == n / LO % HI
      modifies this`lo, this`hi
      ensures lo == (n + size) % LO && hi == (n + size) / LO % HI
    {
      CountersAdd(n, size);
      var savedLo := lo;
      lo := (savedLo + size) % LO;
      if lo < savedLo { hi := (hi + 1) % HI; }
      hi := (hi + size / LO % HI) % HI;
    }

    /** The part of `md5_update` after the counters. */
    method Feed(used: nat, s: seq<Byte>)
      requires Holding(msg, used) && used == |msg| % BLOCK
      modifies this`regs, buffer
      ensures Holding(msg + s, |msg + s| % BLOCK)
    {
      hide Pending, Fold;
      var data := s;
      ghost var done := msg;
      if used != 0 {
        var available := 64 - used;
        if |s| < available {
          Append(msg, used, s);
          RestAfter(|msg|, used, |s|);
          return;
        }
        Append(msg, used, s[..available]);
        FullBlock(msg + s[..available]);
        data, done := s[available..], msg + s[..available];
        assert done + data == msg + s;
      }
      if |data| >= 64 {
        WholePart(|data|);
        var whole := |data| - |data| % 64;
        PendingWhole(Compress, INIT, regs, buffer[..], done, data[..whole]);
        Body(data[..whole]);
        assert done + data == done + data[..whole] + data[whole..];
        data, done := data[whole..], done + data[..whole];
      }
      Append(done, 0, data);
      assert done + data == msg + s;
      RestOf(regs, buffer[..], msg + s, |data|);
    }

    /** `md5_final`. The context is not used afterwards. */
    method Final() returns (res: seq<Byte>)
      requires Valid()
      modifies this`regs, this`lo, buffer
      ensures res == Digest(msg)
    {
      hide Pending, Fold;
      UsedIs(|msg|);
      LengthBytes(|msg|);
      FillZeros();
      ghost var data := msg + [0x80] + Zeros(ZeroCount(|msg|));
      lo := lo * 8 % 0x1_0000_0000;
      Append(data, 56, [lo % 256, lo / 0x100 % 256, lo / 0x1_0000 % 256, lo / 0x100_0000 % 256,
                        hi % 256, hi / 0x100 % 256, hi / 0x1_0000 % 256, hi / 0x100_0000 % 256]);
      FullBlock(Padding(msg));
      PendingZero(Compress, INIT, regs, buffer[..], Padding(msg));
      res := Output(regs);
    }

    /** The one bit and the zeros, in a second block if the length does not fit the first. */
    method FillZeros()
      requires Valid()
      modifies this`regs, buffer
      ensures Holding(msg + [0x80] + Zeros(ZeroCount(|msg|)), 56)
    {
      hide Pending, Fold;
      UsedIs(|msg|);
      var used := lo % 64;
      Append(msg, used, [0x80]);
      used := used + 1;
      ghost var data := msg + [0x80];
      var available := 64 - used;
      if available < 8 {
        Append(data, used, Zeros(available));
        data := data + Zeros(available);
        FullBlock(data);
        assert data + Zeros(56) == msg + [0x80] + Zeros(ZeroCount(|msg|));
        used := 0;
        available := 64;
      }
      Append(data, used, Zeros(available - 8));
    }
  }

  lemma NextBlock(r: Regs, data: seq<Byte>, k: nat)
    requires |data| % BLOCK == 0 && k % BLOCK == 0 && k < |data|
    ensures k + BLOCK <= |data| && (k + BLOCK) % BLOCK == 0
    ensures Fold(Compress, r, data[k..]) == Fold(Compress, Compress(r, data[k..k + BLOCK]), data[k + BLOCK..])
  {
    hide Compress;
    var n, m := |data| / BLOCK, k / BLOCK;
    assert |data| == BLOCK * n && k == BLOCK * m;
    DivIs(k + BLOCK, BLOCK, m + 1, 0);
    assert data[k..][..BLOCK] == data[k..k + BLOCK] && data[k..][BLOCK..] == data[k + BLOCK..];
  }

  lemma FoldNothing(r: Regs, data: seq<Byte>)
    ensures data == [] ==> Fold(Compress, r, data) == r
  {
  }

  lemma OneBlock(r: Regs, block: seq<Byte>)
    requires |block| == BLOCK
    ensures Fold(Compress, r, block) == Compress(r, block)
  {
    assert block[..BLOCK] == block && block[BLOCK..] == [];
  }

  lemma UsedIs(n: nat)
    ensures n % LO % 64 == n % BLOCK
  {
  }

  lemma WholePart(n: nat)
    ensures (n - n % BLOCK) % BLOCK == 0 && n % BLOCK < BLOCK && (n >= BLOCK ==> n - n % BLOCK > 0)
  {
    DivIs(n - n % BLOCK, BLOCK, n / BLOCK, 0);
  }

  lemma RestAfter(n: nat, used: nat, k: nat)
    requires used == n % BLOCK && used + k < BLOCK
    ensures (n + k) % BLOCK == used + k
  {
    DivIs(n + k, BLOCK, n / BLOCK, used + k);
  }

  lemma {:induction false} RestOf(r: Regs, buf: seq<Byte>, data: seq<Byte>, pos: nat)
    requires Pending(Compress, INIT, r, buf, data, pos) && pos < BLOCK
    ensures pos == |data| % BLOCK
  {
    var k := (|data| - pos) / BLOCK;
    DivIs(|data|, BLOCK, k, pos);
  }

  /** The digest of a message that comes in pieces is that of the whole message, however it is split. */
  method DigestOf(pieces: seq<seq<Byte>>) returns (res: seq<Byte>)
    ensures res == Digest(Joined(pieces))
  {
    hide Digest;
    var ctx := new Context();
    for k := 0 to |pieces|
      invariant ctx.Valid() && fresh(ctx) && fresh(ctx.buffer)
      invariant ctx.msg == Joined(pieces[..k])
    {
      ctx.Update(pieces[k]);
      assert pieces[..k + 1][..k] == pieces[..k];
    }
    assert pieces[..|pieces|] == pieces;
    res := ctx.Final();
  }
}
