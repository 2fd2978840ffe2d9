/** Where the constants of SHA-256 come from: sections 4.2.2 and 5.3.3 of FIPS 180-4. */
module Sha256Constants {
  import opened Division
  import opened Word32
  import opened Sha256Rounds
  import opened Sha256

  // ----- the first 64 primes

  predicate IsPrime(n: nat) {
    n >= 2 && forall d: nat :: 2 <= d < n ==> n % d != 0
  }

  /** Nothing between `p` and `q` is prime. */
  predicate NextPrime(p: nat, q: nat) {
    p < q && IsPrime(q) && forall n: nat :: p < n < q ==> !IsPrime(n)
  }

  /** `p` is the prime with `t` primes below it. */
  ghost predicate NthPrime(t: nat, p: nat) {
    if t == 0 then p == 2 else exists r: nat :: NthPrime(t - 1, r) && NextPrime(r, p)
  }

  /** One of the primes up to 17 is a proper divisor. */
  predicate SmallDivisor(n: nat) {
    || (n > 2 && n % 2 == 0) || (n > 3 && n % 3 == 0) || (n > 5 && n % 5 == 0) || (n > 7 && n % 7 == 0)
    || (n > 11 && n % 11 == 0) || (n > 13 && n % 13 == 0) || (n > 17 && n % 17 == 0)
  }

  lemma NoSmallDivisor(n: nat, d: nat)
    requires 2 <= d <= 17 && d < n && n % d == 0
    ensures SmallDivisor(n)
  {
    if d % 2 == 0 { Multiple(n, d, 2); } else if d % 3 == 0 { Multiple(n, d, 3); }
  }

  lemma Multiple(n: nat, d: nat, p: nat)
    requires d > 0 && p > 0 && n % d == 0 && d % p == 0
    ensures n % p == 0
  {
    var q, k := n / d, d / p;
    assert n == p * k * q == p * (k * q);
    DivIs(n, p, k * q, 0);
  }

  /** A divisor above 17 of a number below 18 * 18 leaves a quotient that is a smaller one. */
  lemma Quotient(n: nat, d: nat)
    requires 17 < d < n < 324 && n % d == 0
    ensures 2 <= n / d <= 17 && n / d < n && n % (n / d) == 0
  {
    var q := n / d;
    assert n == d * q;
    assert q >= 18 ==> d * q >= 18 * 18;
    assert q <= 1 ==> d * q <= d;
    DivIs(n, q, d, 0);
  }

  lemma PrimeIff(n: nat)
    requires n < 324
    ensures IsPrime(n) <==> n >= 2 && !SmallDivisor(n)
  {
    if n >= 2 && !SmallDivisor(n) {
      forall d: nat | 2 <= d < n ensures n % d != 0 {
        if n % d == 0 {
          if d > 17 { Quotient(n, d); }
          NoSmallDivisor(n, if d > 17 then n / d else d);
        }
      }
    }
  }

  /** All numbers from `p` on and below `q` have a small divisor. */
  predicate Gap(p: nat, q: nat)
    decreases q - p
  {
    p >= q || (SmallDivisor(p) && Gap(p + 1, q))
  }

  lemma {:induction false} GapIs(p: nat, q: nat, n: nat)
    requires Gap(p, q) && p <= n < q
    ensures SmallDivisor(n)
    decreases q - p
  {
    if p < n { GapIs(p + 1, q, n); }
  }

  lemma GapMeans(p: nat, n: nat, q: nat)
    requires n == p + 1 <= q < 324 && q >= 2 && Gap(n, q) && !SmallDivisor(q)
    ensures NextPrime(p, q)
  {
    PrimeIff(q);
    forall x: nat | p < x < q ensures !IsPrime(x) {
      GapIs(n, q, x);
      PrimeIff(x);
    }
  }

  // ----- fractional parts of roots

  /** `k` is the first 32 bits of the fractional part of the cube root of `p`: with the integer part `a` in front,
      it is the largest number whose cube does not exceed `p` times 2 to the 96. */
  ghost predicate CubeRootBits(p: nat, k: Word) {
    exists a: nat :: Cube(Fixed(a, k)) <= p * 0x1_0000_0000_0000_0000_0000_0000 < Cube(Fixed(a, k) + 1)
  }

  /** The same for the square root. */
  ghost predicate SquareRootBits(p: nat, k: Word) {
    exists a: nat :: Square(Fixed(a, k)) <= p * 0x1_0000_0000_0000_0000 < Square(Fixed(a, k) + 1)
  }

  function Cube(n: nat): nat {
    n * n * n
  }

  function Square(n: nat): nat {
    n * n
  }

  /** An integer part and 32 bits of a fraction. */
  function Fixed(a: nat, k: Word): nat {
    a * 0x1_0000_0000 + k as nat
  }

  /** Constant `t` comes from prime `t`. */
  ghost predicate FromPrime(t: nat)
    requires t < 64
  {
    exists p: nat :: NthPrime(t, p) && CubeRootBits(p, KAt(t))
  }

  lemma Follow(t: nat, p: nat, n: nat, q: nat)
    requires NthPrime(t, p) && n == p + 1 <= q < 324 && q >= 2 && Gap(n, q) && !SmallDivisor(q)
    ensures NthPrime(t + 1, q)
  {
    GapMeans(p, n, q);
    hide NextPrime;
  }

  lemma RootIs(t: nat, p: nat, a: nat, k: Word)
    requires t < 64 && NthPrime(t, p) && KAt(t) == k
    requires Cube(Fixed(a, k)) <= p * 0x1_0000_0000_0000_0000_0000_0000 < Cube(Fixed(a, k) + 1)
    ensures FromPrime(t)
  {
    hide Cube, Fixed, NthPrime;
    assert CubeRootBits(p, k);
  }

  lemma Values0()
    ensures KAt(0) == 0x428a2f98 && KAt(1) == 0x71374491 && KAt(2) == 0xb5c0fbcf && KAt(3) == 0xe9b5dba5
    ensures KAt(4) == 0x3956c25b && KAt(5) == 0x59f111f1 && KAt(6) == 0x923f82a4 && KAt(7) == 0xab1c5ed5
  {
  }

  lemma Values8()
    ensures KAt(8) == 0xd807aa98 && KAt(9) == 0x12835b01 && KAt(10) == 0x243185be && KAt(11) == 0x550c7dc3
    ensures KAt(12) == 0x72be5d74 && KAt(13) == 0x80deb1fe && KAt(14) == 0x9bdc06a7 && KAt(15) == 0xc19bf174
  {
  }

  lemma Values16()
    ensures KAt(16) == 0xe49b69c1 && KAt(17) == 0xefbe4786 && KAt(18) == 0x0fc19dc6 && KAt(19) == 0x240ca1cc
    ensures KAt(20) == 0x2de92c6f && KAt(21) == 0x4a7484aa && KAt(22) == 0x5cb0a9dc && KAt(23) == 0x76f988da
  {
  }

  lemma Values24()
    ensures KAt(24) == 0x983e5152 && KAt(25) == 0xa831c66d && KAt(26) == 0xb00327c8 && KAt(27) == 0xbf597fc7
    ensures KAt(28) == 0xc6e00bf3 && KAt(29) == 0xd5a79147 && KAt(30) == 0x06ca6351 && KAt(31) == 0x14292967
  {
  }

  lemma Values32()
    ensures KAt(32) == 0x27b70a85 && KAt(33) == 0x2e1b2138 && KAt(34) == 0x4d2c6dfc && KAt(35) == 0x53380d13
    ensures KAt(36) == 0x650a7354 && KAt(37) == 0x766a0abb && KAt(38) == 0x81c2c92e && KAt(39) == 0x92722c85
  {
  }

  lemma Values40()
    ensures KAt(40) == 0xa2bfe8a1 && KAt(41) == 0xa81a664b && KAt(42) == 0xc24b8b70 && KAt(43) == 0xc76c51a3
    ensures KAt(44) == 0xd192e819 && KAt(45) == 0xd6990624 && KAt(46) == 0xf40e3585 && KAt(47) == 0x106aa070
  {
  }

  lemma Values48()
    ensures KAt(48) == 0x19a4c116 && KAt(49) == 0x1e376c08 && KAt(50) == 0x2748774c && KAt(51) == 0x34b0bcb5
    ensures KAt(52) == 0x391c0cb3 && KAt(53) == 0x4ed8aa4a && KAt(54) == 0x5b9cca4f && KAt(55) == 0x682e6ff3
  {
  }

  lemma Values56()
    ensures KAt(56) == 0x748f82ee && KAt(57) == 0x78a5636f && KAt(58) == 0x84c87814 && KAt(59) == 0x8cc70208
    ensures KAt(60) == 0x90befffa && KAt(61) == 0xa4506ceb && KAt(62) == 0xbef9a3f7 && KAt(63) == 0xc67178f2
  {
  }

  lemma From0()
    requires NthPrime(0, 2)
    ensures NthPrime(8, 23)
    ensures forall t :: 0 <= t < 8 ==> FromPrime(t)
  {
    hide NthPrime, FromPrime, KAt;
    Values0();
    RootIs(0, 2, 1, 0x428a2f98);
    Follow(0, 2, 3, 3);
    RootIs(1, 3, 1, 0x71374491);
    Follow(1, 3, 4, 5);
    RootIs(2, 5, 1, 0xb5c0fbcf);
    Follow(2, 5, 6, 7);
    RootIs(3, 7, 1, 0xe9b5dba5);
    Follow(3, 7, 8, 11);
    RootIs(4, 11, 2, 0x3956c25b);
    Follow(4, 11, 12, 13);
    RootIs(5, 13, 2, 0x59f111f1);
    Follow(5, 13, 14, 17);
    RootIs(6, 17, 2, 0x923f82a4);
    Follow(6, 17, 18, 19);
    RootIs(7, 19, 2, 0xab1c5ed5);
    Follow(7, 19, 20, 23);
  }

  lemma From8()
    requires NthPrime(8, 23)
    ensures NthPrime(16, 59)
    ensures forall t :: 8 <= t < 16 ==> FromPrime(t)
  {
    hide NthPrime, FromPrime, KAt;
    Values8();
    RootIs(8, 23, 2, 0xd807aa98);
    Follow(8, 23, 24, 29);
    RootIs(9, 29, 3, 0x12835b01);
    Follow(9, 29, 30, 31);
    RootIs(10, 31, 3, 0x243185be);
    Follow(10, 31, 32, 37);
    RootIs(11, 37, 3, 0x550c7dc3);
    Follow(11, 37, 38, 41);
    RootIs(12, 41, 3, 0x72be5d74);
    Follow(12, 41, 42, 43);
    RootIs(13, 43, 3, 0x80deb1fe);
    Follow(13, 43, 44, 47);
    RootIs(14, 47, 3, 0x9bdc06a7);
    Follow(14, 47, 48, 53);
    RootIs(15, 53, 3, 0xc19bf174);
    Follow(15, 53, 54, 59);
  }

  lemma From16()
    requires NthPrime(16, 59)
    ensures NthPrime(24, 97)
    ensures forall t :: 16 <= t < 24 ==> FromPrime(t)
  {
    hide NthPrime, FromPrime, KAt;
    Values16();
    RootIs(16, 59, 3, 0xe49b69c1);
    Follow(16, 59, 60, 61);
    RootIs(17, 61, 3, 0xefbe4786);
    Follow(17, 61, 62, 67);
    RootIs(18, 67, 4, 0x0fc19dc6);
    Follow(18, 67, 68, 71);
    RootIs(19, 71, 4, 0x240ca1cc);
    Follow(19, 71, 72, 73);
    RootIs(20, 73, 4, 0x2de92c6f);
    Follow(20, 73, 74, 79);
    RootIs(21, 79, 4, 0x4a7484aa);
    Follow(21, 79, 80, 83);
    RootIs(22, 83, 4, 0x5cb0a9dc);
    Follow(22, 83, 84, 89);
    RootIs(23, 89, 4, 0x76f988da);
    Follow(23, 89, 90, 97);
  }

  lemma From24()
    requires NthPrime(24, 97)
    ensures NthPrime(32, 137)
    ensures forall t :: 24 <= t < 32 ==> FromPrime(t)
  {
    hide NthPrime, FromPrime, KAt;
    Values24();
    RootIs(24, 97, 4, 0x983e5152);
    Follow(24, 97, 98, 101);
    RootIs(25, 101, 4, 0xa831c66d);
    Follow(25, 101, 102, 103);
    RootIs(26, 103, 4, 0xb00327c8);
    Follow(26, 103, 104, 107);
    RootIs(27, 107, 4, 0xbf597fc7);
    Follow(27, 107, 108, 109);
    RootIs(28, 109, 4, 0xc6e00bf3);
    Follow(28, 109, 110, 113);
    RootIs(29, 113, 4, 0xd5a79147);
    Follow(29, 113, 114, 127);
    RootIs(30, 127, 5, 0x06ca6351);
    Follow(30, 127, 128, 131);
    RootIs(31, 131, 5, 0x14292967);
    Follow(31, 131, 132, 137);
  }

  lemma From32()
    requires NthPrime(32, 137)
    ensures NthPrime(40, 179)
    ensures forall t :: 32 <= t < 40 ==> FromPrime(t)
  {
    hide NthPrime, FromPrime, KAt;
    Values32();
    RootIs(32, 137, 5, 0x27b70a85);
    Follow(32, 137, 138, 139);
    RootIs(33, 139, 5, 0x2e1b2138);
    Follow(33, 139, 140, 149);
    RootIs(34, 149, 5, 0x4d2c6dfc);
    Follow(34, 149, 150, 151);
    RootIs(35, 151, 5, 0x53380d13);
    Follow(35, 151, 152, 157);
    RootIs(36, 157, 5, 0x650a7354);
    Follow(36, 157, 158, 163);
    RootIs(37, 163, 5, 0x766a0abb);
    Follow(37, 163, 164, 167);
    RootIs(38, 167, 5, 0x81c2c92e);
    Follow(38, 167, 168, 173);
    RootIs(39, 173, 5, 0x92722c85);
    Follow(39, 173, 174, 179);
  }

  lemma From40()
    requires NthPrime(40, 179)
    ensures NthPrime(48, 227)
    ensures forall t :: 40 <= t < 48 ==> FromPrime(t)
  {
    hide NthPrime, FromPrime, KAt;
    Values40();
    RootIs(40, 179, 5, 0xa2bfe8a1);
    Follow(40, 179, 180, 181);
    RootIs(41, 181, 5, 0xa81a664b);
    Follow(41, 181, 182, 191);
    RootIs(42, 191, 5, 0xc24b8b70);
    Follow(42, 191, 192, 193);
    RootIs(43, 193, 5, 0xc76c51a3);
    Follow(43, 193, 194, 197);
    RootIs(44, 197, 5, 0xd192e819);
    Follow(44, 197, 198, 199);
    RootIs(45, 199, 5, 0xd6990624);
    Follow(45, 199, 200, 211);
    RootIs(46, 211, 5, 0xf40e3585);
    Follow(46, 211, 212, 223);
    RootIs(47, 223, 6, 0x106aa070);
    Follow(47, 223, 224, 227);
  }

  lemma From48()
    requires NthPrime(48, 227)
    ensures NthPrime(56, 269)
    ensures forall t :: 48 <= t < 56 ==> FromPrime(t)
  {
    hide NthPrime, FromPrime, KAt;
    Values48();
    RootIs(48, 227, 6, 0x19a4c116);
    Follow(48, 227, 228, 229);
    RootIs(49, 229, 6, 0x1e376c08);
    Follow(49, 229, 230, 233);
    RootIs(50, 233, 6, 0x2748774c);
    Follow(50, 233, 234, 239);
    RootIs(51, 239, 6, 0x34b0bcb5);
    Follow(51, 239, 240, 241);
    RootIs(52, 241, 6, 0x391c0cb3);
    Follow(52, 241, 242, 251);
    RootIs(53, 251, 6, 0x4ed8aa4a);
    Follow(53, 251, 252, 257);
    RootIs(54, 257, 6, 0x5b9cca4f);
    Follow(54, 257, 258, 263);
    RootIs(55, 263, 6, 0x682e6ff3);
    Follow(55, 263, 264, 269);
  }

  lemma From56()
    requires NthPrime(56, 269)
    ensures forall t :: 56 <= t < 64 ==> FromPrime(t)
  {
    hide NthPrime, FromPrime, KAt;
    Values56();
    RootIs(56, 269, 6, 0x748f82ee);
    Follow(56, 269, 270, 271);
    RootIs(57, 271, 6, 0x78a5636f);
    Follow(57, 271, 272, 277);
    RootIs(58, 277, 6, 0x84c87814);
    Follow(58, 277, 278, 281);
    RootIs(59, 281, 6, 0x8cc70208);
    Follow(59, 281, 282, 283);
    RootIs(60, 283, 6, 0x90befffa);
    Follow(60, 283, 284, 293);
    RootIs(61, 293, 6, 0xa4506ceb);
    Follow(61, 293, 294, 307);
    RootIs(62, 307, 6, 0xbef9a3f7);
    Follow(62, 307, 308, 311);
    RootIs(63, 311, 6, 0xc67178f2);
  }

  /** Section 4.2.2: the constants are the first 32 bits of the fractional parts of the cube roots of the first
      64 primes. */
  lemma KFromPrimes(t: nat)
    requires t < 64
    ensures exists p: nat :: NthPrime(t, p) && CubeRootBits(p, KAt(t))
  {
    hide CubeRootBits, NextPrime, KAt;
    assert NthPrime(0, 2);
    hide NthPrime;
    From0();
    From8();
    From16();
    From24();
    From32();
    From40();
    From48();
    From56();
    assert FromPrime(t);
  }

  lemma SquareRootIs(p: nat, a: nat, k: Word)
    requires Square(Fixed(a, k)) <= p * 0x1_0000_0000_0000_0000 < Square(Fixed(a, k) + 1)
    ensures SquareRootBits(p, k)
  {
    hide Square, Fixed;
  }

  lemma FirstEight()
    ensures NthPrime(0, 2) && NthPrime(1, 3) && NthPrime(2, 5) && NthPrime(3, 7)
    ensures NthPrime(4, 11) && NthPrime(5, 13) && NthPrime(6, 17) && NthPrime(7, 19)
  {
    hide NextPrime;
    assert NthPrime(0, 2);
    hide NthPrime;
    Follow(0, 2, 3, 3);
    Follow(1, 3, 4, 5);
    Follow(2, 5, 6, 7);
    Follow(3, 7, 8, 11);
    Follow(4, 11, 12, 13);
    Follow(5, 13, 14, 17);
    Follow(6, 17, 18, 19);
  }

  lemma RootsOfEight()
    ensures SquareRootBits(2, 0x6a09e667) && SquareRootBits(3, 0xbb67ae85)
    ensures SquareRootBits(5, 0x3c6ef372) && SquareRootBits(7, 0xa54ff53a)
    ensures SquareRootBits(11, 0x510e527f) && SquareRootBits(13, 0x9b05688c)
    ensures SquareRootBits(17, 0x1f83d9ab) && SquareRootBits(19, 0x5be0cd19)
  {
    hide SquareRootBits;
    SquareRootIs(2, 1, 0x6a09e667);
    SquareRootIs(3, 1, 0xbb67ae85);
    SquareRootIs(5, 2, 0x3c6ef372);
    SquareRootIs(7, 2, 0xa54ff53a);
    SquareRootIs(11, 3, 0x510e527f);
    SquareRootIs(13, 3, 0x9b05688c);
    SquareRootIs(17, 4, 0x1f83d9ab);
    SquareRootIs(19, 4, 0x5be0cd19);
  }

  /** Section 5.3.3: the initial hash value is the first 32 bits of the fractional parts of the square roots of
      the first eight primes. */
  lemma InitFromPrimes(i: nat)
    requires i < 8
    ensures |H0| == 8 && exists p: nat :: NthPrime(i, p) && SquareRootBits(p, H0[i])
  {
    hide NthPrime, SquareRootBits;
    FirstEight();
    RootsOfEight();
  }
}
