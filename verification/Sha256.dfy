/** `sha256_update` and `sha256_final` of `src/hash/sha256.cc`: whatever way the input is split, the
    result is the hash of FIPS 180-4 of the whole message. */
module Sha256 {
  import opened Division
  import opened HashBlocks
  import opened Word32
  import opened Sha256Rounds
  import opened WordBytes

  /** The initial hash value, section 5.3.3 of FIPS 180-4. */
  const H0: seq<Word> := [0x6a09e667, 0xbb67ae85, 0x3c6ef372, 0xa54ff53a, 0x510e527f, 0x9b05688c, 0x1f83d9ab,
    0x5be0cd19]

  const COUNT := 0x1_0000_0000_0000_0000

  /** Four bytes as a word, the most significant first. */
  function WordOf(a: Byte, b: Byte, c: Byte, d: Byte): Word {
    Packed(Wide(a), Wide(b), Wide(c), Wide(d))
  }

  function Words(block: seq<Byte>): (w: seq<Word>)
    requires |block| == BLOCK
    ensures |w| == 16
  {
    seq(16, i requires 0 <= i < 16 => WordOf(block[4 * i], block[4 * i + 1], block[4 * i + 2], block[4 * i + 3]))
  }

  /** One step of section 6.2.2. */
  function BlockHash(h: seq<Word>, block: seq<Byte>): (r: seq<Word>)
    ensures |h| == 8 ==> |r| == 8
  {
    if |h| == 8 && |block| == BLOCK then Compress(h, Words(block)) else h
  }

  function ByteOf(w: Word, shift: bv6): Byte
    requires shift <= 24
  {
    ((w >> shift) & 0xff) as nat
  }

  /** Words as bytes, the most significant of each first. */
  function Serialized(ws: seq<Word>): seq<Byte> {
    if ws == [] then [] else
      var w := ws[|ws| - 1];
      Serialized(ws[..|ws| - 1]) + [ByteOf(w, 24), ByteOf(w, 16), ByteOf(w, 8), ByteOf(w, 0)]
  }

  /** A word is read from its four bytes, and written as them, the most significant first. */
  lemma WordsAreBytes(a: Byte, b: Byte, c: Byte, d: Byte, w: Word)
    ensures BigEndian(WordOf(a, b, c, d) as nat, 4) == [a, b, c, d]
    ensures Serialized([w]) == BigEndian(w as nat, 4)
  {
    hide BigEndian;
    WordValue(a, b, c, d);
    BytesOf(WordOf(a, b, c, d) as nat, a, b, c, d);
    WrittenBytes(w);
  }

  lemma WrittenBytes(w: Word)
    ensures Serialized([w]) == BigEndian(w as nat, 4)
  {
    hide BigEndian;
    BytesValue(w);
    BytesOf(w as nat, ByteOf(w, 24), ByteOf(w, 16), ByteOf(w, 8), ByteOf(w, 0));
    SerializedSnoc([], w);
    assert [] + [w] == [w];
  }

  /** The padded message: the length in bits is taken modulo 2 to the 64. */
  function Padding(msg: seq<Byte>): seq<Byte> {
    Padded(msg, BigEndian(8 * |msg|, 8))
  }

  function Digest(msg: seq<Byte>): seq<Byte> {
    Serialized(Fold(BlockHash, H0, Padding(msg)))
  }

  lemma {:induction false} FoldKeepsLength(h: seq<Word>, data: seq<Byte>)
    requires |h| == 8
    ensures |Fold(BlockHash, h, data)| == 8
    decreases |data|
  {
    hide Compress;
    if |data| >= BLOCK { FoldKeepsLength(BlockHash(h, data[..BLOCK]), data[BLOCK..]); }
  }

  lemma PosNext(n: nat, pos: nat)
    requires pos == n % BLOCK
    ensures (n + 1) % BLOCK == if pos + 1 == BLOCK then 0 else pos + 1
  {
  }

  class Context {
    const state: array<Word>
    var count: nat
    const buffer: array<Byte>
    ghost var msg: seq<Byte>

    ghost predicate Holding(data: seq<Byte>, pos: nat)
      reads this, state, buffer
    {
      && state.Length == 8 && buffer.Length == BLOCK
      && Pending(BlockHash, H0, state[..], buffer[..], data, pos)
    }

    ghost predicate Valid()
      reads this, state, buffer
    {
      && count == |msg| % COUNT
      && Holding(msg, |msg| % BLOCK)
    }

    /** `sha256_init`. */
    constructor ()
      ensures Valid() && msg == [] && fresh(state) && fresh(buffer)
    {
      var h := new Word[8](i requires 0 <= i < 8 => H0[i]);
      state := h;
      buffer := new Byte[BLOCK](_ => 0);
      count := 0;
      msg := [];
      new;
      assert state[..] == H0;
      PendingNothing(BlockHash, H0, buffer[..]);
    }

    /** `sha256_write_byte_block`. */
    method WriteByteBlock(ghost data: seq<Byte>)
      requires Holding(data, BLOCK)
      modifies state
      ensures Holding(data, 0)
    {
      hide Pending, Compress, WordOf;
      PendingBlock(BlockHash, H0, state[..], buffer[..], data);
      var data32 := ReadWords();
      Transform(state, data32);
    }

    /** The loop that reads the buffer as words. */
    method ReadWords() returns (data32: seq<Word>)
      requires buffer.Length == BLOCK
      ensures data32 == Words(buffer[..])
    {
      hide WordOf;
      data32 := [];
      for i := 0 to 16
        invariant data32 == Words(buffer[..])[..i]
      {
        data32 := data32 + [WordOf(buffer[4 * i], buffer[4 * i + 1], buffer[4 * i + 2], buffer[4 * i + 3])];
      }
    }

    method PutByte(ghost data: seq<Byte>, pos: nat, b: Byte)
      requires Holding(data, pos) && pos < BLOCK
      modifies buffer
      ensures Holding(data + [b], pos + 1)
    {
      PendingByte(BlockHash, H0, state[..], buffer[..], data, pos, b);
      hide Pending;
      ghost var after := buffer[..][pos := b];
      buffer[pos] := b;
      assert buffer[..] == after;
    }

    /** `sha256_update`. */
    method Update(s: seq<Byte>)
      requires Valid()
      modifies this, state, buffer
      ensures Valid() && msg == old(msg) + s
    {
      hide Pending;
      var pos := count % 64;
      assert pos == |msg| % BLOCK;
      for k := 0 to |s|
        invariant msg == old(msg) + s[..k] && pos == |msg| % BLOCK && Valid()
      {
        PosNext(|msg|, pos);
        CountNext(|msg|);
        PutByte(msg, pos, s[k]);
        pos := pos + 1;
        count := (count + 1) % COUNT;
        msg := msg + [s[k]];
        if pos == 64 {
          pos := 0;
          WriteByteBlock(msg);
        }
      }
    }

    /** `sha256_final`. The context is not used afterwards. */
    method Final() returns (res: seq<Byte>)
      requires Valid()
      modifies state, buffer
      ensures res == Digest(msg)
    {
      hide Pending, Fold, BlockHash, Serialized;
      var nbits := count * 8 % COUNT;
      BitCount(|msg|);
      var pos := count % 64;
      ghost var data := msg + [0x80];
      PutByte(msg, pos, 0x80);
      pos := pos + 1;
      pos, data := FillZeros(pos);
      WriteLength(data, nbits);
      WriteByteBlock(Padding(msg));
      PendingZero(BlockHash, H0, state[..], buffer[..], Padding(msg));
      res := Output();
    }

    /** The loop that writes out the state. */
    method Output() returns (res: seq<Byte>)
      requires state.Length == 8
      ensures res == Serialized(state[..])
    {
      res := [];
      assert state[..0] == [];
      for i := 0 to 8
        invariant res == Serialized(state[..i])
      {
        SerializedSnoc(state[..i], state[i]);
        assert state[..i] + [state[i]] == state[..i + 1];
        res := res + [ByteOf(state[i], 24), ByteOf(state[i], 16), ByteOf(state[i], 8), ByteOf(state[i], 0)];
      }
      assert state[..8] == state[..];
    }

    /** The loop that writes zeros up to the place of the length. */
    method FillZeros(start: nat) returns (pos: nat, ghost data: seq<Byte>)
      requires start == |msg| % BLOCK + 1 && Holding(msg + [0x80], start)
      modifies state, buffer
      ensures pos == 56 && data == msg + [0x80] + Zeros(ZeroCount(|msg|)) && Holding(data, pos)
    {
      hide Pending, Zeros, ZeroCount, InStep;
      ghost var z := 0;
      pos, data := start, msg + [0x80];
      FirstStep(|msg|);
      assert data == data + Zeros(0);
      while pos != 64 - 8
        invariant 1 <= pos <= 64 && Holding(data, pos) && InStep(|msg|, z, pos)
        invariant data == msg + [0x80] + Zeros(z) && z <= ZeroCount(|msg|)
        decreases ZeroCount(|msg|) - z
      {
        NotYet(|msg|, z, pos);
        if pos == 64 { WriteByteBlock(data); }
        pos := pos % 64;
        PutByte(data, pos, 0);
        data := data + [0];
        z := z + 1;
        pos := pos + 1;
      }
      LastStep(|msg|, z);
    }

    /** The loop that writes the eight bytes of the length. */
    method WriteLength(ghost data: seq<Byte>, n: nat)
      requires Holding(data, 56) && n == 8 * |msg| % COUNT
      modifies buffer
      ensures Holding(data + BigEndian(8 * |msg|, 8), 64)
    {
      hide Pending, Pow256;
      var nbits := n;
      ghost var bytes := BigEndian(8 * |msg|, 8);
      assert Pow256(0) == 1 by { PowZero(); }
      assert data + bytes[..0] == data;
      for i := 0 to 8
        invariant Holding(data + bytes[..i], 56 + i)
        invariant nbits == 8 * |msg| * Pow256(i) % COUNT
      {
        ShiftOut(8 * |msg|, i);
        assert nbits / 0x100_0000_0000_0000 == bytes[i];
        PutByte(data + bytes[..i], 56 + i, nbits / 0x100_0000_0000_0000);
        assert data + bytes[..i] + [bytes[i]] == data + bytes[..i + 1];
        nbits := nbits * 256 % COUNT;
      }
      assert bytes[..8] == bytes;
    }
  }

  lemma PowZero()
    ensures Pow256(0) == 1
  {
  }

  lemma BitCount(n: nat)
    ensures n % COUNT * 8 % COUNT == 8 * n % COUNT && n % COUNT % 64 == n % BLOCK
  {
    SameMod(8 * n, COUNT, 8 * (n / COUNT), n % COUNT * 8);
    SameMod(n, BLOCK, COUNT / BLOCK * (n / COUNT), n % COUNT);
  }

  /** After `z` zeros, `pos` bytes wait in the buffer. */
  predicate InStep(n: nat, z: nat, pos: nat) {
    pos % BLOCK == (n + 1 + z) % BLOCK
  }

  lemma FirstStep(n: nat)
    ensures InStep(n, 0, n % BLOCK + 1) && Zeros(0) == []
  {
    SameMod(n + 1, BLOCK, n / BLOCK, n % BLOCK + 1);
  }

  lemma NotYet(n: nat, z: nat, pos: nat)
    requires InStep(n, z, pos) && 1 <= pos <= 64 && pos != 56 && z <= ZeroCount(n)
    ensures z < ZeroCount(n) && pos % 64 == (if pos == 64 then 0 else pos) && InStep(n, z + 1, pos % 64 + 1)
    ensures Zeros(z + 1) == Zeros(z) + [0]
  {
    var k := (n + 1 + z) / BLOCK - pos / BLOCK;
    assert n + 1 + z == BLOCK * k + pos;
    SameMod(n + 1 + (z + 1), BLOCK, k, pos + 1);
  }

  lemma LastStep(n: nat, z: nat)
    requires InStep(n, z, 56) && z <= ZeroCount(n)
    ensures z == ZeroCount(n)
  {
    FewestZeros(n, z);
  }

  /** One turn of the loop that shifts the length out, byte by byte. */
  lemma ShiftOut(x: nat, i: nat)
    requires i < 8
    ensures x * Pow256(i) % COUNT / 0x100_0000_0000_0000 == x / Pow256(7 - i) % 256
    ensures x * Pow256(i) % COUNT * 256 % COUNT == x * Pow256(i + 1) % COUNT
  {
    Pow256Add(i, 7 - i);
    assert Pow256(7) == 0x100_0000_0000_0000;
    TopByte(x, Pow256(i), Pow256(7 - i), 0x100_0000_0000_0000);
    Mod256(x * Pow256(i));
    assert x * Pow256(i) * 256 == x * (256 * Pow256(i));
  }

  lemma Mod256(y: nat)
    ensures y % COUNT * 256 % COUNT == y * 256 % COUNT
  {
    SameMod(y * 256, COUNT, 256 * (y / COUNT), y % COUNT * 256);
  }

  lemma SerializedSnoc(ws: seq<Word>, w: Word)
    ensures Serialized(ws + [w]) == Serialized(ws) + [ByteOf(w, 24), ByteOf(w, 16), ByteOf(w, 8), ByteOf(w, 0)]
  {
    assert (ws + [w])[..|ws|] == ws;
  }

  lemma CountNext(n: nat)
    ensures (n % COUNT + 1) % COUNT == (n + 1) % COUNT
    ensures n % COUNT % 64 == n % BLOCK
  {
    SameMod(n + 1, COUNT, n / COUNT, n % COUNT + 1);
    SameMod(n, BLOCK, COUNT / BLOCK * (n / COUNT), n % COUNT);
  }

  /** The hash of a message that comes in pieces is that of the whole message, however it is split. */
  method HashOf(pieces: seq<seq<Byte>>) returns (res: seq<Byte>)
    ensures res == Digest(Joined(pieces))
  {
    hide Digest;
    var ctx := new Context();
    for k := 0 to |pieces|
      invariant ctx.Valid() && fresh(ctx) && fresh(ctx.state) && fresh(ctx.buffer)
      invariant ctx.msg == Joined(pieces[..k])
    {
      ctx.Update(pieces[k]);
      assert pieces[..k + 1][..k] == pieces[..k];
    }
    assert pieces[..|pieces|] == pieces;
    res := ctx.Final();
  }
}
