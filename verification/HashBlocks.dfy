/** What the hashes of `src/hash` share: a message is padded to whole blocks of 64 bytes, and a block
    function is folded over them. */
module HashBlocks {
  import opened Division

  type Byte = b: nat | b < 256

  const BLOCK := 64

  /** The whole blocks of the data go through the block function, from the first to the last. */
  function Fold<S>(f: (S, seq<Byte>) -> S, s: S, data: seq<Byte>): S
    decreases |data|
  {
    if |data| < BLOCK then s else Fold(f, f(s, data[..BLOCK]), data[BLOCK..])
  }

  lemma {:induction false} FoldConcat<S>(f: (S, seq<Byte>) -> S, s: S, a: seq<Byte>, b: seq<Byte>)
    requires |a| % BLOCK == 0
    ensures Fold(f, s, a + b) == Fold(f, Fold(f, s, a), b)
    decreases |a|
  {
    if a == [] {
      assert a + b == b;
    } else {
      assert (a + b)[..BLOCK] == a[..BLOCK] && (a + b)[BLOCK..] == a[BLOCK..] + b;
      FoldConcat(f, f(s, a[..BLOCK]), a[BLOCK..], b);
    }
  }

  lemma FoldBlock<S>(f: (S, seq<Byte>) -> S, s: S, a: seq<Byte>, b: seq<Byte>)
    requires |a| % BLOCK == 0 && |b| == BLOCK
    ensures Fold(f, s, a + b) == f(Fold(f, s, a), b)
  {
    FoldConcat(f, s, a, b);
    assert b[..BLOCK] == b && b[BLOCK..] == [];
  }

  /** The state has absorbed all of `data` but its last `pos` bytes, which wait in the buffer. */
  ghost predicate Pending<S(!new)>(f: (S, seq<Byte>) -> S, init: S, s: S, buf: seq<Byte>, data: seq<Byte>, pos: nat) {
    && pos <= |buf| == BLOCK && pos <= |data| && (|data| - pos) % BLOCK == 0
    && s == Fold(f, init, data[..|data| - pos]) && buf[..pos] == data[|data| - pos..]
  }

  lemma {:induction false} PendingByte<S(!new)>(f: (S, seq<Byte>) -> S, init: S, s: S, buf: seq<Byte>,
      data: seq<Byte>, pos: nat, b: Byte)
    requires Pending(f, init, s, buf, data, pos) && pos < BLOCK
    ensures Pending(f, init, s, buf[pos := b], data + [b], pos + 1)
  {
    hide Fold;
    var all, k := data + [b], |data| - pos;
    assert all[..k] == data[..k];
    assert all[k..] == data[k..] + [b];
  }

  lemma {:induction false} PendingBytes<S(!new)>(f: (S, seq<Byte>) -> S, init: S, s: S, buf: seq<Byte>,
      data: seq<Byte>, pos: nat, d: seq<Byte>)
    requires Pending(f, init, s, buf, data, pos) && pos + |d| <= BLOCK
    ensures Pending(f, init, s, buf[..pos] + d + buf[pos + |d|..], data + d, pos + |d|)
  {
    hide Fold;
    var all, k := data + d, |data| - pos;
    assert all[..k] == data[..k];
    assert all[k..] == data[k..] + d;
  }

  lemma WholeAdd(a: nat, b: nat)
    requires a % BLOCK == 0 && b % BLOCK == 0
    ensures (a + b) % BLOCK == 0
  {
    SameMod(a + b, BLOCK, a / BLOCK, b);
  }

  /** With an empty buffer, whole blocks of data need not pass through it. */
  lemma {:induction false} PendingWhole<S(!new)>(f: (S, seq<Byte>) -> S, init: S, s: S, buf: seq<Byte>,
      data: seq<Byte>, d: seq<Byte>)
    requires Pending(f, init, s, buf, data, 0) && |d| % BLOCK == 0
    ensures Pending(f, init, Fold(f, s, d), buf, data + d, 0)
  {
    WholeAdd(|data|, |d|);
    PendingZero(f, init, s, buf, data);
    PendingZero(f, init, Fold(f, s, d), buf, data + d);
    FoldConcat(f, init, data, d);
    hide Fold, Pending;
  }

  lemma {:induction false} PendingZero<S(!new)>(f: (S, seq<Byte>) -> S, init: S, s: S, buf: seq<Byte>, data: seq<Byte>)
    ensures Pending(f, init, s, buf, data, 0) <==> |data| % BLOCK == 0 && |buf| == BLOCK && s == Fold(f, init, data)
  {
    assert data[..|data| - 0] == data;
    assert data[|data| - 0..] == [];
    hide Fold;
  }

  /** A full buffer goes through the block function. */
  lemma {:induction false} PendingBlock<S(!new)>(f: (S, seq<Byte>) -> S, init: S, s: S, buf: seq<Byte>, data: seq<Byte>)
    requires Pending(f, init, s, buf, data, BLOCK)
    ensures Pending(f, init, f(s, buf), buf, data, 0)
  {
    var k := |data| - BLOCK;
    FoldBlock(f, init, data[..k], data[k..]);
    assert data[..k] + data[k..] == data == data[..|data| - 0];
    assert buf[..BLOCK] == buf;
  }

  lemma PendingNothing<S(!new)>(f: (S, seq<Byte>) -> S, init: S, buf: seq<Byte>)
    requires |buf| == BLOCK
    ensures Pending(f, init, init, buf, [], 0)
  {
  }

  function Joined(pieces: seq<seq<Byte>>): seq<Byte> {
    if pieces == [] then [] else Joined(pieces[..|pieces| - 1]) + pieces[|pieces| - 1]
  }

  function Zeros(n: nat): seq<Byte> {
    seq(n, _ => 0)
  }

  /** The number of zero bytes: the fewest that leave room for the length in the last block. */
  function ZeroCount(n: nat): (k: nat)
    ensures k < BLOCK && (n + 1 + k) % BLOCK == 56
  {
    if n % BLOCK < 56 then 55 - n % BLOCK else 119 - n % BLOCK
  }

  /** A one bit, zeros and the eight bytes of the length: section 5.1.1 of FIPS 180-4 and, with another
      byte order of the length, sections 3.1 and 3.2 of RFC 1321. */
  function Padded(msg: seq<Byte>, length: seq<Byte>): seq<Byte> {
    msg + [0x80] + Zeros(ZeroCount(|msg|)) + length
  }

  lemma FewestZeros(n: nat, k: nat)
    requires (n + 1 + k) % BLOCK == 56
    ensures ZeroCount(n) <= k
  {
    assert n == n / BLOCK * BLOCK + n % BLOCK;
  }

  // ----- bytes of a number

  function Pow256(k: nat): (p: nat)
    ensures p > 0
  {
    if k == 0 then 1 else 256 * Pow256(k - 1)
  }

  /** The last `k` bytes of a number, the most significant first. */
  function BigEndian(n: nat, k: nat): (s: seq<Byte>) {
    seq(k, i requires 0 <= i < k => n / Pow256(k - 1 - i) % 256)
  }

  /** The last `k` bytes of a number, the least significant first. */
  function LittleEndian(n: nat, k: nat): (s: seq<Byte>) {
    seq(k, i requires 0 <= i < k => n / Pow256(i) % 256)
  }

  lemma Regroup256(p: nat, r: nat)
    ensures 256 * (p * r) == 256 * p * r
  {
  }

  lemma {:induction false} Pow256Add(a: nat, b: nat)
    ensures Pow256(a + b) == Pow256(a) * Pow256(b)
  {
    if a > 0 {
      Pow256Add(a - 1, b);
      var p, r := Pow256(a - 1), Pow256(b);
      assert Pow256(a + b) == 256 * (p * r) && Pow256(a) == 256 * p;
      Regroup256(p, r);
    }
  }

  lemma Distribute(k: nat, a: nat, b: nat)
    ensures k * (256 * a + b) == 256 * k * a + k * b
  {
  }

  lemma Expand(n: nat, q: nat, r: nat, m: nat)
    ensures (n * q + r) * m == m * n * q + r * m
  {
  }

  lemma Below(r: nat, n: nat, m: nat, b: nat)
    requires r < n && m > 0 && b < 256
    ensures m * n * b + r * m < 256 * (m * n) && r * m < m * n
  {
    var k := m * n;
    assert (r + 1) * m <= n * m;
    assert k * b <= k * 255;
  }

  lemma Shifted(x: nat, m: nat, n: nat, k: nat, q: nat, r: nat, a: nat, b: nat)
    requires x == n * q + r && q == 256 * a + b && k == m * n
    ensures x * m == 256 * k * a + (k * b + r * m)
  {
    Expand(n, q, r, m);
    Distribute(k, a, b);
  }

  /** Shifting left by whole bytes brings a byte to the top. */
  lemma TopByte(x: nat, m: nat, n: nat, k: nat)
    requires m > 0 && n > 0 && k == m * n
    ensures k > 0 && x * m % (256 * k) / k == x / n % 256
  {
    var q, r := x / n, x % n;
    var a, b := q / 256, q % 256;
    var low := k * b + r * m;
    Below(r, n, m, b);
    Shifted(x, m, n, k, q, r, a, b);
    DivIs(x * m, 256 * k, a, low);
    DivIs(low, k, b, r * m);
  }
}
