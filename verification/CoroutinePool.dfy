/** `CoroutinePool` of `src/co/sched.h`: coroutine records in blocks of 4096, handed out by index. */
module CoroutinePool {
  import opened Division

  /** Records in a block. */
  const N := 4096
  /** The block table grows by multiples of this. */
  const M := 256

  /** The fields of the pool: the current block and the offset of its first unused record, which blocks
      have memory, how many records of each are in use, the indices to use again in block 0 and in the
      current block, and the blocks that are free. */
  datatype Pool = Pool(c: nat, o: nat, v: seq<bool>, use: seq<int>, v0: seq<nat>, vc: seq<nat>, blks: set<nat>)

  function Nulls(n: nat): seq<bool> {
    seq(n, _ => false)
  }

  function Zeros(n: nat): seq<int> {
    seq(n, _ => 0)
  }

  function Init(): Pool {
    Pool(0, 0, Nulls(M), Zeros(M), [], [], {})
  }

  predicate IsLeast(b: nat, s: set<nat>) {
    b in s && forall x :: x in s ==> b <= x
  }

  lemma {:induction false} LeastExists(s: set<nat>)
    requires s != {}
    ensures exists b :: IsLeast(b, s)
  {
    var b :| b in s;
    if s == {b} {
      assert IsLeast(b, s);
    } else {
      LeastExists(s - {b});
      var d :| IsLeast(d, s - {b});
      var e := if d < b then d else b;
      forall x | x in s ensures e <= x {
        if x != b { assert x in s - {b}; }
      }
      assert IsLeast(e, s);
    }
  }

  /** `*_blks.begin()`. */
  function Least(s: set<nat>): (b: nat)
    requires s != {}
    ensures IsLeast(b, s)
  {
    LeastExists(s);
    assert forall x, y | IsLeast(x, s) && IsLeast(y, s) :: x == y;
    var b :| IsLeast(b, s);
    b
  }

  function AlignUp(n: nat): (r: nat)
    ensures n <= r < n + M && r % M == 0
  {
    (n + M - 1) / M * M
  }

  // ----- the operations

  /** The current block may lie beyond the block table only when a fallback has just moved it there. */
  function Grown(s: Pool): (t: Pool)
    ensures t.c < |t.v| && t.c < |t.use|
  {
    if s.c < |s.v| && s.c < |s.use| then s else
      var n := AlignUp(s.c + 1);
      s.(v := s.v + Nulls(if |s.v| < n then n - |s.v| else 0),
         use := s.use + Zeros(if |s.use| < n then n - |s.use| else 0))
  }

  /** A record that was never used since its block got its memory. */
  function TakeNew(s: Pool): (Pool, nat) {
    TakeAt(Grown(s))
  }

  function TakeAt(t: Pool): (Pool, nat)
    requires t.c < |t.v| && t.c < |t.use|
  {
    (t.(v := t.v[t.c := true], o := t.o + 1, use := t.use[t.c := t.use[t.c] + 1]), t.c * N + t.o)
  }

  /** `_v0` and `_vc` are empty and the current block is used up. */
  predicate MustMove(s: Pool) {
    s.v0 == [] && s.vc == [] && s.o >= N
  }

  /** No block is known to be free, so the one after the current block is taken. */
  predicate FallsBack(s: Pool) {
    MustMove(s) && s.blks == {}
  }

  function Moved(s: Pool): Pool {
    if s.blks != {} then s.(c := Least(s.blks), blks := s.blks - {Least(s.blks)}, o := 0)
    else s.(c := s.c + 1, o := 0)
  }

  /** The blocks of the indices to use again have memory. */
  predicate ReuseOk(s: Pool) {
    && (s.v0 != [] ==> s.v0[|s.v0| - 1] / N < |s.use|)
    && (s.v0 == [] && s.vc != [] ==> s.vc[|s.vc| - 1] / N < |s.use|)
  }

  function PopStep(s: Pool): (Pool, nat)
    requires ReuseOk(s)
  {
    if s.v0 != [] then
      var id := s.v0[|s.v0| - 1];
      (s.(v0 := s.v0[..|s.v0| - 1], use := s.use[id / N := s.use[id / N] + 1]), id)
    else if s.vc != [] then
      var id := s.vc[|s.vc| - 1];
      (s.(vc := s.vc[..|s.vc| - 1], use := s.use[id / N := s.use[id / N] + 1]), id)
    else if s.o < N then TakeNew(s)
    else TakeNew(Moved(s))
  }

  /** Block `q` lost its last record in use. */
  function Released(s: Pool, q: nat): Pool
    requires q < |s.v|
  {
    var t := s.(v := s.v[q := false]);
    if q != s.c then t.(blks := t.blks + {q})
    else if s.blks != {} && Least(s.blks) < s.c then
      t.(vc := [], o := 0, blks := s.blks + {s.c} - {Least(s.blks)}, c := Least(s.blks))
    else t.(vc := [], o := 0)
  }

  function PushStep(s: Pool, x: nat): Pool
    requires x / N < |s.use| && x / N < |s.v|
  {
    var q := x / N;
    var t := if q == 0 then s.(v0 := s.v0 + [x]) else if q == s.c then s.(vc := s.vc + [x]) else s;
    var u := t.(use := t.use[q := t.use[q] - 1]);
    if u.use[q] == 0 then Released(u, q) else u
  }

  // ----- what every safe step keeps

  function InBlock(live: set<nat>, q: nat): set<nat> {
    set x | x in live && x / N == q
  }

  /** Indices to use again are distinct and not in use. */
  ghost predicate Free(ids: seq<nat>, live: set<nat>) {
    && (forall j :: 0 <= j < |ids| ==> ids[j] !in live)
    && (forall j, k :: 0 <= j < k < |ids| ==> ids[j] != ids[k])
  }

  ghost predicate InCurrent(s: Pool, x: nat) {
    x / N == s.c && x % N < s.o
  }

  ghost predicate Counts(s: Pool, live: set<nat>) {
    && |s.use| == |s.v|
    && (forall q :: 0 <= q < |s.v| ==> s.use[q] == |InBlock(live, q)| && (s.v[q] <==> s.use[q] > 0))
  }

  /** No block beyond `hi` was ever used. The free blocks up to `hi`, other than the current one, are
      exactly those in `blks`. */
  ghost predicate Blocks(s: Pool, live: set<nat>, hi: nat) {
    && s.c <= hi < |s.v| && s.o <= N
    && (forall x :: x in live ==> x / N <= hi && (x / N == s.c ==> x % N < s.o))
    && (s.o == 0 <==> InBlock(live, s.c) == {})
    && (forall q: nat :: q in s.blks <==> q <= hi && q != s.c && InBlock(live, q) == {})
  }

  ghost predicate Lists(s: Pool, live: set<nat>) {
    && Free(s.v0, live) && Free(s.vc, live)
    && (forall j :: 0 <= j < |s.v0| ==> s.v0[j] / N == 0 && (s.c == 0 ==> InCurrent(s, s.v0[j])))
    && (forall j :: 0 <= j < |s.vc| ==> InCurrent(s, s.vc[j]))
    && (s.c == 0 ==> s.vc == [])
  }

  ghost predicate Inv(s: Pool, live: set<nat>, hi: nat) {
    && Counts(s, live) && Blocks(s, live, hi) && Lists(s, live)
    && (if live == {} then s == Init() else 0 in live)
  }

  /** The fallback is safe exactly when the current block is the highest one ever used. */
  predicate Safe(s: Pool, hi: nat) {
    FallsBack(s) ==> s.c == hi
  }

  lemma InBlockAdd(live: set<nat>, x: nat, q: nat)
    requires x !in live
    ensures InBlock(live + {x}, q) == if x / N == q then InBlock(live, q) + {x} else InBlock(live, q)
    ensures |InBlock(live + {x}, q)| == |InBlock(live, q)| + if x / N == q then 1 else 0
  {
  }

  lemma InBlockRemove(live: set<nat>, x: nat, q: nat)
    requires x in live
    ensures InBlock(live - {x}, q) == if x / N == q then InBlock(live, q) - {x} else InBlock(live, q)
    ensures |InBlock(live - {x}, q)| == |InBlock(live, q)| - if x / N == q then 1 else 0
  {
  }

  lemma CountsAdd(s: Pool, t: Pool, live: set<nat>, x: nat)
    requires Counts(s, live) && x !in live && x / N < |s.v|
    requires t.v == s.v[x / N := true] && t.use == s.use[x / N := s.use[x / N] + 1]
    ensures Counts(t, live + {x})
  {
    forall q | 0 <= q < |t.v| ensures t.use[q] == |InBlock(live + {x}, q)| && (t.v[q] <==> t.use[q] > 0) {
      InBlockAdd(live, x, q);
    }
  }

  lemma CountsRemove(s: Pool, t: Pool, live: set<nat>, x: nat)
    requires Counts(s, live) && x in live && x / N < |s.v|
    requires t.use == s.use[x / N := s.use[x / N] - 1]
    requires t.v == if t.use[x / N] == 0 then s.v[x / N := false] else s.v
    ensures Counts(t, live - {x})
  {
    assert x in InBlock(live, x / N);
    forall q | 0 <= q < |t.v| ensures t.use[q] == |InBlock(live - {x}, q)| && (t.v[q] <==> t.use[q] > 0) {
      InBlockRemove(live, x, q);
    }
  }

  lemma InvReuseOk(s: Pool, live: set<nat>, hi: nat)
    requires Inv(s, live, hi)
    ensures ReuseOk(s)
  {
  }

  lemma FreeInit(ids: seq<nat>, live: set<nat>)
    requires Free(ids, live) && ids != []
    ensures var x := ids[|ids| - 1]; x !in live && Free(ids[..|ids| - 1], live + {x})
  {
  }

  lemma FreeOther(ids: seq<nat>, live: set<nat>, x: nat)
    requires Free(ids, live) && x !in ids
    ensures Free(ids, live + {x})
  {
  }

  lemma FreeSnoc(ids: seq<nat>, live: set<nat>, x: nat)
    requires Free(ids, live) && x in live
    ensures Free(ids, live - {x}) && Free(ids + [x], live - {x})
  {
  }

  /** An index used again: its block has memory. */
  lemma ReuseKeepsInv(s: Pool, live: set<nat>, hi: nat)
    requires Inv(s, live, hi) && ReuseOk(s) && (s.v0 != [] || s.vc != [])
    ensures var (t, x) := PopStep(s);
      x !in live && s.v[x / N] && Inv(t, live + {x}, hi)
  {
    var (t, x) := PopStep(s);
    assert s.v[x / N] by {
      if s.v0 != [] { assert 0 in InBlock(live, 0); } else { assert s.o > 0; }
    }
    CountsAdd(s, t, live, x);
    hide Counts;
    if s.v0 != [] {
      FreeInit(s.v0, live);
      assert forall j :: 0 <= j < |s.vc| ==> InCurrent(s, s.vc[j]);
      FreeOther(s.vc, live, x);
    } else {
      FreeInit(s.vc, live);
    }
    assert Lists(t, live + {x}) by { hide Free; }
    assert 0 in live && (x / N == s.c ==> x % N < s.o);
    assert InBlock(live, x / N) != {};
    forall q: nat ensures InBlock(live + {x}, q) == {} <==> InBlock(live, q) == {} {
      InBlockAdd(live, x, q);
    }
    hide Lists;
    assert Blocks(t, live + {x}, hi);
  }

  lemma FreshBlocks(live: set<nat>, c: nat, o: nat, hi: nat)
    requires forall x :: x in live ==> x / N <= hi && (x / N == c ==> x % N < o)
    requires o < N
    ensures var x := c * N + o; x / N == c && x % N == o && x !in live
    ensures hi < c ==> InBlock(live, c) == {}
  {
  }

  /** A record never used before: the first unused one of the current block. */
  lemma NewKeepsInv(s: Pool, live: set<nat>, hi: nat)
    requires Inv(s, live, hi) && s.v0 == [] && s.vc == [] && s.o < N
    ensures var (t, x) := TakeNew(s);
      x !in live && Inv(t, live + {x}, hi)
  {
    var (t, x) := TakeNew(s);
    FreshBlocks(live, s.c, s.o, hi);
    CountsAdd(s, t, live, x);
    hide Counts;
    forall q: nat ensures InBlock(live + {x}, q) == if q == s.c then InBlock(live, q) + {x} else InBlock(live, q) {
      InBlockAdd(live, x, q);
    }
    assert x in InBlock(live + {x}, s.c);
  }

  /** The same in a block taken from the free blocks. */
  lemma MoveToFreeKeepsInv(s: Pool, live: set<nat>, hi: nat)
    requires Inv(s, live, hi) && MustMove(s) && s.blks != {}
    ensures var (t, x) := TakeNew(Moved(s));
      x !in live && Inv(t, live + {x}, hi)
  {
    var b := Least(s.blks);
    assert b <= hi && b != s.c && InBlock(live, b) == {};
    assert Moved(s) == s.(c := b, blks := s.blks - {b}, o := 0);
    TakeInFreeBlock(s, live, hi, b);
  }

  lemma TakeInFreeBlock(s: Pool, live: set<nat>, hi: nat, b: nat)
    requires Inv(s, live, hi) && MustMove(s) && b <= hi && b != s.c && InBlock(live, b) == {}
    ensures var (t, x) := TakeNew(s.(c := b, blks := s.blks - {b}, o := 0));
      x !in live && Inv(t, live + {x}, hi)
  {
    var (t, x) := TakeNew(s.(c := b, blks := s.blks - {b}, o := 0));
    assert forall y :: y in live && y / N == b ==> y in InBlock(live, b);
    FreshBlocks(live, b, 0, hi);
    CountsAdd(s, t, live, x);
    hide Counts;
    forall q: nat ensures InBlock(live + {x}, q) == if q == b then InBlock(live, q) + {x} else InBlock(live, q) {
      InBlockAdd(live, x, q);
    }
    assert x in InBlock(live + {x}, b);
  }

  /** With no free block, the block after the current one is unused if and only if the current block is
      the highest one ever used. */
  lemma FallbackBlock(s: Pool, live: set<nat>, hi: nat)
    requires Inv(s, live, hi) && FallsBack(s)
    ensures InBlock(live, s.c + 1) == {} <==> s.c == hi
  {
    var q := s.c + 1;
    if s.c == hi {
      assert forall x :: x in live ==> x / N != q;
    } else {
      assert q !in s.blks;
    }
  }

  lemma GrownKeeps(s: Pool, live: set<nat>, c: nat)
    requires Counts(s, live) && (forall x :: x in live ==> x / N < c) && c <= |s.v|
    ensures var t := Grown(s.(c := c, o := 0));
      && Counts(t, live) && c < |t.v| && t == s.(c := c, o := 0, v := t.v, use := t.use)
  {
    var t := Grown(s.(c := c, o := 0));
    forall q | |s.v| <= q < |t.v| ensures InBlock(live, q) == {} {}
  }

  lemma FirstOfNewBlock(g: Pool, live: set<nat>, hi: nat)
    requires Counts(g, live) && g.c == hi + 1 < |g.v| && g.o == 0 && g.v0 == g.vc == [] && g.blks == {}
    requires 0 in live && (forall x :: x in live ==> x / N <= hi)
    requires forall q: nat :: q <= hi ==> InBlock(live, q) != {}
    ensures var (t, x) := TakeAt(g);
      x !in live && Inv(t, live + {x}, hi + 1)
  {
    var (t, x) := TakeAt(g);
    FreshBlocks(live, hi + 1, 0, hi);
    CountsAdd(g, t, live, x);
    hide Counts;
    FirstBlocks(t, live, x, hi);
    hide Blocks, InBlock;
  }

  lemma FirstBlocks(t: Pool, live: set<nat>, x: nat, hi: nat)
    requires t.c == hi + 1 < |t.v| && t.o == 1 && t.blks == {} && x / N == hi + 1 && x % N == 0 && x !in live
    requires forall y :: y in live ==> y / N <= hi
    requires forall q: nat :: q <= hi ==> InBlock(live, q) != {}
    ensures Blocks(t, live + {x}, hi + 1)
  {
    forall q: nat ensures InBlock(live + {x}, q) == if q == hi + 1 then InBlock(live, q) + {x} else InBlock(live, q) {
      InBlockAdd(live, x, q);
    }
    assert x in InBlock(live + {x}, hi + 1);
    hide InBlock;
  }

  lemma MoveUpKeepsInv(s: Pool, live: set<nat>, hi: nat)
    requires Inv(s, live, hi) && FallsBack(s) && s.c == hi
    ensures var (t, x) := TakeNew(Moved(s));
      x !in live && Inv(t, live + {x}, hi + 1)
  {
    FallbackFacts(s, live, hi);
    hide Inv, Counts, InBlock;
    GrownKeeps(s, live, hi + 1);
    hide Grown, AlignUp, TakeAt;
    FirstOfNewBlock(Grown(Moved(s)), live, hi);
  }

  lemma FallbackFacts(s: Pool, live: set<nat>, hi: nat)
    requires Inv(s, live, hi) && FallsBack(s) && s.c == hi
    ensures Counts(s, live) && Moved(s) == s.(c := hi + 1, o := 0) && hi + 1 <= |s.v|
    ensures 0 in live && (forall x :: x in live ==> x / N <= hi)
        && (forall q: nat :: q <= hi ==> InBlock(live, q) != {})
  {
    hide Counts;
  }

  /** The highest block used once the next index is handed out. */
  function Higher(s: Pool, hi: nat): nat {
    if FallsBack(s) && hi < s.c + 1 then s.c + 1 else hi
  }

  /** A safe `pop` returns an index that is not in use. */
  lemma PopKeepsInv(s: Pool, live: set<nat>, hi: nat)
    requires Inv(s, live, hi) && Safe(s, hi)
    ensures ReuseOk(s)
    ensures var (t, x) := PopStep(s);
      x !in live && Inv(t, live + {x}, Higher(s, hi))
  {
    InvReuseOk(s, live, hi);
    if s.v0 != [] || s.vc != [] {
      ReuseKeepsInv(s, live, hi);
    } else if s.o < N {
      NewKeepsInv(s, live, hi);
    } else if s.blks != {} {
      MoveToFreeKeepsInv(s, live, hi);
    } else {
      MoveUpKeepsInv(s, live, hi);
    }
  }

  // ----- pushing

  function Listed(s: Pool, x: nat): Pool {
    if x / N == 0 then s.(v0 := s.v0 + [x]) else if x / N == s.c then s.(vc := s.vc + [x]) else s
  }

  lemma PushIntoList(s: Pool, live: set<nat>, x: nat, hi: nat)
    requires Inv(s, live, hi) && x in live && x != 0
    ensures Lists(Listed(s, x), live - {x})
  {
    hide Counts, InBlock;
    FreeSnoc(s.v0, live, x);
    FreeSnoc(s.vc, live, x);
    hide Free;
    var t := Listed(s, x);
    assert x / N == s.c ==> InCurrent(s, x);
    forall j | 0 <= j < |t.v0| ensures t.v0[j] / N == 0 && (t.c == 0 ==> InCurrent(t, t.v0[j])) {
      if j < |s.v0| { assert t.v0[j] == s.v0[j] && (s.c == 0 ==> InCurrent(s, s.v0[j])); }
    }
    forall j | 0 <= j < |t.vc| ensures InCurrent(t, t.vc[j]) {
      if j < |s.vc| { assert t.vc[j] == s.vc[j] && InCurrent(s, s.vc[j]); }
    }
  }

  /** Giving back an index when others of its block are still in use. */
  lemma PushSomeKeepsInv(s: Pool, live: set<nat>, x: nat, hi: nat)
    requires Inv(s, live, hi) && x in live && x != 0 && s.use[x / N] != 1
    ensures Inv(PushStep(s, x), live - {x}, hi)
  {
    var t := PushStep(s, x);
    PushIntoList(s, live, x, hi);
    CountsRemove(s, t, live, x);
    assert 0 in live - {x} && InBlock(live - {x}, x / N) != {};
    hide Counts, Lists;
    forall p: nat ensures InBlock(live - {x}, p) == {} <==> InBlock(live, p) == {} {
      InBlockRemove(live, x, p);
    }
  }

  lemma OnlyOne(live: set<nat>, x: nat)
    requires 0 in live && x in live && x != 0 && |InBlock(live, x / N)| == 1
    ensures x / N != 0 && InBlock(live - {x}, x / N) == {}
  {
    var b := InBlock(live, x / N);
    InBlockRemove(live, x, x / N);
    assert x / N == 0 ==> 0 in b - {x};
  }

  /** Giving back the last index in use of a block: its memory is freed. */
  lemma PushLastKeepsInv(s: Pool, live: set<nat>, x: nat, hi: nat)
    requires Inv(s, live, hi) && x in live && x != 0 && s.use[x / N] == 1
    ensures Inv(PushStep(s, x), live - {x}, hi)
  {
    var t := PushStep(s, x);
    PushIntoList(s, live, x, hi);
    CountsRemove(s, t, live, x);
    OnlyOne(live, x);
    assert Lists(t, live - {x}) by { hide Counts, Blocks, Free; }
    PushLastBlocks(s, live, x, hi);
    hide Counts, Lists, Blocks;
  }

  lemma PushLastBlocks(s: Pool, live: set<nat>, x: nat, hi: nat)
    requires Blocks(s, live, hi) && x in live && x / N < |s.use| == |s.v| && s.use[x / N] == 1
    requires x / N != 0 && InBlock(live - {x}, x / N) == {}
    ensures Blocks(PushStep(s, x), live - {x}, hi)
  {
    var q := x / N;
    forall p: nat ensures InBlock(live - {x}, p) == if p == q then {} else InBlock(live, p) {
      InBlockRemove(live, x, p);
    }
  }

  /** Giving back an index in use. */
  lemma PushKeepsInv(s: Pool, live: set<nat>, x: nat, hi: nat)
    requires Inv(s, live, hi) && x in live && x != 0
    ensures x / N < |s.use| && x / N < |s.v|
    ensures Inv(PushStep(s, x), live - {x}, hi)
  {
    if s.use[x / N] == 1 { PushLastKeepsInv(s, live, x, hi); } else { PushSomeKeepsInv(s, live, x, hi); }
  }

  // ----- runs

  datatype Op = PopOp | PushOp(x: nat)

  /** The pool, the indices in use and the highest block ever used. */
  datatype State = State(pool: Pool, live: set<nat>, hi: nat)

  function After(st: State, op: Op): State {
    match op
    case PopOp =>
      if ReuseOk(st.pool) then
        State(PopStep(st.pool).0, st.live + {PopStep(st.pool).1}, Higher(st.pool, st.hi))
      else st
    case PushOp(x) =>
      if x / N < |st.pool.use| && x / N < |st.pool.v| then State(PushStep(st.pool, x), st.live - {x}, st.hi) else st
  }

  function Run(ops: seq<Op>): State {
    if ops == [] then State(Init(), {}, 0) else After(Run(ops[..|ops| - 1]), ops[|ops| - 1])
  }

  /** Only indices in use are given back, and never index 0, the main coroutine. */
  predicate Allowed(st: State, op: Op) {
    match op
    case PopOp => Safe(st.pool, st.hi)
    case PushOp(x) => x in st.live && x != 0
  }

  predicate Good(ops: seq<Op>) {
    forall k :: 0 <= k < |ops| ==> Allowed(Run(ops[..k]), ops[k])
  }

  function Balance(ops: seq<Op>): int {
    if ops == [] then 0 else Balance(ops[..|ops| - 1]) + if ops[|ops| - 1].PopOp? then 1 else -1
  }

  lemma InitInv()
    ensures Inv(Init(), {}, 0)
  {
    assert forall q: nat :: InBlock({}, q) == {};
  }

  lemma StepKeepsInv(st: State, op: Op)
    requires Inv(st.pool, st.live, st.hi) && Allowed(st, op)
    ensures var t := After(st, op);
      Inv(t.pool, t.live, t.hi) && |t.live| == |st.live| + if op.PopOp? then 1 else -1
  {
    hide Inv, PopStep, PushStep;
    match op
    case PopOp => PopKeepsInv(st.pool, st.live, st.hi);
    case PushOp(x) => PushKeepsInv(st.pool, st.live, x, st.hi);
  }

  /** On every run that takes the fallback only from the highest block ever used: the counts of the
      blocks are right, the free blocks are empty, and there are as many indices in use as pops
      without a matching push, so that no index was ever handed out twice. */
  lemma {:induction false} RunKeepsInv(ops: seq<Op>)
    requires Good(ops)
    ensures var st := Run(ops); Inv(st.pool, st.live, st.hi) && ReuseOk(st.pool) && |st.live| == Balance(ops)
    decreases |ops|
  {
    if ops == [] {
      InitInv();
    } else {
      var init := ops[..|ops| - 1];
      assert forall k :: 0 <= k < |init| ==> init[..k] == ops[..k];
      assert Good(init);
      RunKeepsInv(init);
      hide Inv, After;
      assert Allowed(Run(ops[..|ops| - 1]), ops[|ops| - 1]);
      StepKeepsInv(Run(init), ops[|ops| - 1]);
    }
    var st := Run(ops);
    InvReuseOk(st.pool, st.live, st.hi);
  }

  lemma GoodSnoc(ops: seq<Op>, op: Op)
    requires Good(ops) && Allowed(Run(ops), op)
    ensures Good(ops + [op]) && Run(ops + [op]) == After(Run(ops), op)
  {
    var all := ops + [op];
    assert all[..|ops|] == ops;
    hide Run, Allowed;
    forall k | 0 <= k < |all| ensures Allowed(Run(all[..k]), all[k]) {
      if k < |ops| { assert all[..k] == ops[..k]; }
    }
  }

  // ----- records are used again

  /** Index `x` was handed out before, of a block whose indices are remembered: block 0 and the current one. */
  predicate Handed(s: Pool, x: nat) {
    (x / N == s.c && x % N < s.o) || (x / N == 0 && s.c != 0)
  }

  predicate Listing(s: Pool, x: nat) {
    if x / N == 0 then x in s.v0 else x in s.vc
  }

  /** Each of them that is not in use is listed to be used again. */
  ghost predicate Kept(s: Pool, live: set<nat>) {
    forall x: nat :: Handed(s, x) && x !in live ==> Listing(s, x)
  }

  lemma InitOf(s: seq<nat>)
    requires s != []
    ensures forall x :: x in s ==> x == s[|s| - 1] || x in s[..|s| - 1]
  {
  }

  lemma PopKeeps(s: Pool, live: set<nat>, hi: nat)
    requires Inv(s, live, hi) && Safe(s, hi) && ReuseOk(s) && Kept(s, live)
    ensures var (t, x) := PopStep(s); Kept(t, live + {x})
  {
    var (t, x) := PopStep(s);
    forall y: nat | Handed(t, y) && y !in live + {x} ensures Listing(t, y) {
      if s.v0 != [] {
        InitOf(s.v0);
        assert Handed(s, y) && Listing(s, y);
      } else if s.vc != [] {
        InitOf(s.vc);
        assert Handed(s, y) && Listing(s, y);
      } else {
        NewKeeps(s, live, hi, y);
      }
    }
  }

  lemma NewKeeps(s: Pool, live: set<nat>, hi: nat, y: nat)
    requires Inv(s, live, hi) && Safe(s, hi) && Kept(s, live) && s.v0 == [] && s.vc == [] && y !in live
    ensures Handed(PopStep(s).0, y) ==> y == PopStep(s).1
  {
    assert !Handed(s, y);
    var (t, x) := PopStep(s);
    if s.o < N {
      assert t.c == s.c && t.o == s.o + 1 && x == s.c * N + s.o;
      hide PopStep, Inv;
      if y / N == s.c && y % N == s.o { assert y == x; }
    } else {
      assert t.o == 1 && x == t.c * N && (t.c == 0 ==> 0 in s.blks);
      NotBlockZero(s, live, hi);
      hide PopStep, Inv;
      if y / N == t.c && y % N == 0 { assert y == x; }
    }
  }

  /** Block 0 is never free, and a block that is used up has no index left to hand out. */
  lemma NotBlockZero(s: Pool, live: set<nat>, hi: nat)
    requires Inv(s, live, hi)
    ensures live != {} ==> 0 !in s.blks
    ensures s.o >= N ==> s.o == N && live != {}
  {
    assert 0 in live ==> 0 in InBlock(live, 0);
  }

  lemma PushKeeps(s: Pool, live: set<nat>, x: nat, hi: nat)
    requires Inv(s, live, hi) && x in live && x != 0 && x / N < |s.use| && x / N < |s.v| && Kept(s, live)
    ensures Kept(PushStep(s, x), live - {x})
  {
    var t := PushStep(s, x);
    NotBlockZero(s, live, hi);
    if s.use[x / N] == 1 { OnlyOne(live, x); }
    assert s.use[x / N] >= 1 by { assert x in InBlock(live, x / N); }
    hide Inv;
    forall y: nat | Handed(t, y) && y !in live - {x} ensures Listing(t, y) {
      if y != x { assert Handed(s, y) && Listing(s, y); }
    }
  }

  lemma {:induction false} RunKeeps(ops: seq<Op>)
    requires Good(ops)
    ensures Kept(Run(ops).pool, Run(ops).live)
    decreases |ops|
  {
    if ops != [] {
      var init, op := ops[..|ops| - 1], ops[|ops| - 1];
      assert forall k :: 0 <= k < |init| ==> init[..k] == ops[..k];
      assert Good(init) && Allowed(Run(init), op);
      RunKeepsInv(init);
      RunKeeps(init);
      var st := Run(init);
      hide Inv, Kept, PopStep, PushStep;
      match op
      case PopOp => PopKeeps(st.pool, st.live, st.hi);
      case PushOp(x) =>
        PushKeepsInv(st.pool, st.live, x, st.hi);
        PushKeeps(st.pool, st.live, x, st.hi);
    }
  }

  /** In every allowed run, a pop takes a record that was never used only if each one handed out before, of
      block 0 and of the current block, is in use. */
  lemma UsedBeforeNew(ops: seq<Op>, y: nat)
    requires Good(ops)
    ensures var s, live := Run(ops).pool, Run(ops).live;
      ReuseOk(s) && (Handed(s, y) && y !in live ==> Handed(s, PopStep(s).1))
  {
    RunKeepsInv(ops);
    RunKeeps(ops);
    var st := Run(ops);
    ListedHanded(st.pool, st.live, st.hi);
    hide Inv, Run, Handed;
    if Handed(st.pool, y) && y !in st.live { assert Listing(st.pool, y); }
  }

  /** In every allowed run, an index of block 0 that is given back is the next one to be handed out. */
  lemma GivenBackIsNext(ops: seq<Op>, x: nat)
    requires Good(ops) && x in Run(ops).live && x != 0 && x / N == 0
    ensures Good(ops + [PushOp(x)])
    ensures var t := Run(ops + [PushOp(x)]).pool; ReuseOk(t) && PopStep(t).1 == x
  {
    RunKeepsInv(ops);
    GoodSnoc(ops, PushOp(x));
    RunKeepsInv(ops + [PushOp(x)]);
    var st := Run(ops);
    PushKeepsInv(st.pool, st.live, x, st.hi);
    PushLists(st.pool, x);
    hide Inv, Run, PushStep, Good, Allowed;
  }

  lemma PushLists(s: Pool, x: nat)
    requires x / N < |s.use| && x / N < |s.v| && x / N == 0
    ensures PushStep(s, x).v0 == s.v0 + [x]
  {
  }

  lemma ListedHanded(s: Pool, live: set<nat>, hi: nat)
    requires Inv(s, live, hi)
    ensures forall x :: x in s.v0 || x in s.vc ==> Handed(s, x)
  {
    hide Counts, Blocks, Free;
    forall x | x in s.v0 || x in s.vc ensures Handed(s, x) {
      if x in s.v0 {
        var j :| 0 <= j < |s.v0| && s.v0[j] == x;
      } else {
        var j :| 0 <= j < |s.vc| && s.vc[j] == x;
      }
    }
  }

  // ----- the condition on the fallback is exact

  function PopOnce(s: Pool): (Pool, nat) {
    if ReuseOk(s) then PopStep(s) else (s, 0)
  }

  function Popped(s: Pool, k: nat): Pool {
    if k == 0 then s else PopOnce(Popped(s, k - 1)).0
  }

  /** What the pop after `k` other pops returns. */
  function PopIndex(s: Pool, k: nat): nat {
    PopOnce(Popped(s, k)).1
  }

  lemma {:induction false} FallbackPops(s: Pool, k: nat)
    requires FallsBack(s) && 1 <= k <= N
    ensures var t := Popped(s, k); t.c == s.c + 1 && t.o == k && t.v0 == [] && t.vc == []
    ensures PopIndex(s, k - 1) == (s.c + 1) * N + k - 1
  {
    hide AlignUp;
    if k > 1 {
      FallbackPops(s, k - 1);
    } else {
      assert Popped(s, 0) == s && Popped(s, 1) == PopOnce(s).0;
    }
  }

  /** At a fallback, some of the next pops returns an index in use if and only if the current block is
      not the highest one ever used. */
  lemma FallbackCollidesIff(s: Pool, live: set<nat>, hi: nat)
    requires Inv(s, live, hi) && FallsBack(s)
    ensures (exists k :: 0 <= k < N && PopIndex(s, k) in live) <==> s.c != hi
  {
    FallbackBlock(s, live, hi);
    forall k | 0 <= k < N ensures PopIndex(s, k) == (s.c + 1) * N + k && PopIndex(s, k) / N == s.c + 1 {
      FallbackPops(s, k + 1);
      DivIs((s.c + 1) * N + k, N, s.c + 1, k);
    }
    hide PopIndex;
    if s.c != hi {
      var x :| x in InBlock(live, s.c + 1);
      assert PopIndex(s, x - (s.c + 1) * N) == x;
    } else {
      assert forall x :: x in live ==> x / N <= hi;
    }
  }

  // ----- a run that reaches a bad fallback

  function Pops(k: nat): seq<Op> {
    seq(k, _ => PopOp)
  }

  function Pushes(from: nat, k: nat): seq<Op> {
    seq(k, i requires 0 <= i => PushOp(from + i))
  }

  lemma PopsSnoc(ops: seq<Op>, k: nat)
    requires k > 0
    ensures ops + Pops(k) == ops + Pops(k - 1) + [PopOp] && Pops(k) == Pops(k - 1) + [PopOp]
  {
    assert Pops(k) == Pops(k - 1) + [PopOp];
  }

  lemma PushesSnoc(ops: seq<Op>, from: nat, k: nat)
    requires k > 0
    ensures ops + Pushes(from, k) == ops + Pushes(from, k - 1) + [PushOp(from + k - 1)]
  {
    assert Pushes(from, k) == Pushes(from, k - 1) + [PushOp(from + k - 1)];
  }

  lemma NoOps(ops: seq<Op>)
    ensures Pops(0) == [] && ops + Pops(0) == ops && ops + Pushes(N, 0) == ops
  {
    assert Pushes(N, 0) == [];
  }

  /** The shape of a pool in which nothing is to be used again. */
  predicate Plain(s: Pool, c: nat, o: nat, blks: set<nat>) {
    s.v0 == [] && s.vc == [] && s.c == c && s.o == o && s.blks == blks
  }

  lemma PlainPop(st: State, c: nat, o: nat, blks: set<nat>)
    requires Plain(st.pool, c, o, blks) && (o < N || blks == {})
    ensures var t := After(st, PopOp); var x := if o < N then c * N + o else (c + 1) * N;
      && (if o < N then Plain(t.pool, c, o + 1, blks) else Plain(t.pool, c + 1, 1, {}))
      && t.live == st.live + {x} && t.hi == Higher(st.pool, st.hi)
  {
    hide AlignUp;
  }

  lemma FillOne(st: State, c: nat, o: nat, k: nat)
    requires Plain(st.pool, c, o, {}) && st.hi == c && k > 0 && c * N + o == k - 1 && o <= N
    requires forall x: nat :: x in st.live <==> x < k - 1
    ensures Allowed(st, PopOp)
    ensures var t := After(st, PopOp);
      && (if o < N then Plain(t.pool, c, o + 1, {}) && t.hi == c else Plain(t.pool, c + 1, 1, {}) && t.hi == c + 1)
      && forall x: nat :: x in t.live <==> x < k
  {
    hide After;
    PlainPop(st, c, o, {});
  }

  lemma {:induction false} Fill(k: nat) returns (c: nat, o: nat)
    requires k <= 3 * N
    ensures Good(Pops(k)) && c * N + o == k && o <= N && (k > 0 ==> o > 0)
    ensures var st := Run(Pops(k)); Plain(st.pool, c, o, {}) && st.hi == c
    ensures forall x: nat :: x in Run(Pops(k)).live <==> x < k
  {
    if k == 0 {
      NoOps([]);
      c, o := 0, 0;
    } else {
      hide Run, After, Good, Pops, Plain, Allowed;
      c, o := Fill(k - 1);
      PopsSnoc([], k);
      FillOne(Run(Pops(k - 1)), c, o, k);
      GoodSnoc(Pops(k - 1), PopOp);
      if o < N { o := o + 1; } else { c, o := c + 1, 1; }
    }
  }

  /** Giving back the first `k` indices of block 1. */
  lemma {:induction false} Drain(k: nat)
    requires k <= N
    ensures var ops := Pops(3 * N) + Pushes(N, k); var st := Run(ops);
      && Good(ops) && Plain(st.pool, 2, N, if k == N then {1} else {}) && st.hi == 2
      && forall x: nat :: x in st.live <==> x < N || N + k <= x < 3 * N
  {
    hide Run, After, Good, Pops, Pushes, Inv;
    var ops := Pops(3 * N) + Pushes(N, k);
    if k == 0 {
      var c, o := Fill(3 * N);
      NoOps(Pops(3 * N));
    } else {
      Drain(k - 1);
      var init, x := Pops(3 * N) + Pushes(N, k - 1), N + k - 1;
      PushesSnoc(Pops(3 * N), N, k);
      GoodSnoc(init, PushOp(x));
      RunKeepsInv(init);
      DrainOne(Run(init), Run(ops), k);
    }
  }

  lemma DrainOne(st: State, t: State, k: nat)
    requires 1 <= k <= N && t == After(st, PushOp(N + k - 1))
    requires Inv(st.pool, st.live, st.hi) && Plain(st.pool, 2, N, {})
    requires forall x: nat :: x in st.live <==> x < N || N + k - 1 <= x < 3 * N
    ensures Plain(t.pool, 2, N, if k == N then {1} else {}) && t.hi == st.hi
    ensures forall x: nat :: x in t.live <==> x < N || N + k <= x < 3 * N
  {
    var x := N + k - 1;
    DivIs(x, N, 1, k - 1);
    DivIs(2 * N - 1, N, 1, N - 1);
    assert 1 < |st.pool.use| && 1 < |st.pool.v| && st.pool.use[1] == |InBlock(st.live, 1)|;
    hide Inv, Counts, Blocks, Lists;
    InBlockRemove(st.live, x, 1);
    if k < N {
      assert 2 * N - 1 in InBlock(st.live - {x}, 1);
    } else {
      assert InBlock(st.live - {x}, 1) == {};
    }
  }

  /** Filling block 1 again. */
  lemma {:induction false} Refill(k: nat)
    requires 1 <= k <= N
    ensures var ops := Pops(3 * N) + Pushes(N, N) + Pops(k); var st := Run(ops);
      Good(ops) && Plain(st.pool, 1, k, {}) && st.hi == 2
  {
    hide Run, Good, Pops, Pushes, AlignUp;
    var init := Pops(3 * N) + Pushes(N, N) + Pops(k - 1);
    PopsSnoc(Pops(3 * N) + Pushes(N, N), k);
    if k == 1 {
      Drain(N);
      NoOps(Pops(3 * N) + Pushes(N, N));
      GoodSnoc(init, PopOp);
      assert Least({1}) == 1;
    } else {
      hide After;
      Refill(k - 1);
      GoodSnoc(init, PopOp);
      PlainPop(Run(init), 1, k - 1, {});
    }
  }

  function BadRun(): seq<Op> {
    Pops(3 * N) + Pushes(N, N) + Pops(N)
  }

  /** A run of allowed operations after which the fallback lands on a block in use: fill three blocks,
      empty the middle one, fill it again. Of the next pops, one returns an index in use. */
  lemma FallbackCanCollide()
    ensures var st := Run(BadRun());
      && Good(BadRun()) && FallsBack(st.pool) && st.pool.c != st.hi
      && exists k :: 0 <= k < N && PopIndex(st.pool, k) in st.live
  {
    Refill(N);
    RunKeepsInv(BadRun());
    hide Run, Good, Pops, Pushes;
    var st := Run(BadRun());
    FallbackCollidesIff(st.pool, st.live, st.hi);
  }

  // ----- the pool itself

  class PoolImpl {
    var c: nat
    var o: nat
    var v: seq<bool>
    var use: seq<int>
    var v0: seq<nat>
    var vc: seq<nat>
    var blks: set<nat>

    ghost function Abs(): Pool
      reads this
    {
      Pool(c, o, v, use, v0, vc, blks)
    }

    constructor ()
      ensures Abs() == Init()
    {
      c, o, v0, vc, blks := 0, 0, [], [], {};
      v, use := Nulls(M), Zeros(M);
    }

    /** The label `newco`. */
    method NewCo() returns (x: nat)
      modifies this`v, this`use, this`o
      ensures (Abs(), x) == TakeNew(old(Abs()))
    {
      if c >= |v| || c >= |use| {
        var n := AlignUp(c + 1);
        v := v + Nulls(if |v| < n then n - |v| else 0);
        use := use + Zeros(if |use| < n then n - |use| else 0);
      }
      assert v[c] ==> v[c := true] == v;
      if !v[c] { v := v[c := true]; }
      x := c * N + o;
      o := o + 1;
      use := use[c := use[c] + 1];
    }

    method Pop() returns (x: nat)
      requires ReuseOk(Abs())
      modifies this
      ensures (Abs(), x) == PopStep(old(Abs()))
    {
      hide Grown, AlignUp, TakeAt;
      if v0 != [] {
        x := v0[|v0| - 1];
        v0 := v0[..|v0| - 1];
        use := use[x / N := use[x / N] + 1];
      } else if vc != [] {
        x := vc[|vc| - 1];
        vc := vc[..|vc| - 1];
        use := use[x / N := use[x / N] + 1];
      } else {
        if o >= N {
          if blks != {} {
            var b := Least(blks);
            c, blks := b, blks - {b};
          } else {
            c := c + 1;
          }
          o := 0;
        }
        x := NewCo();
      }
    }

    /** A push makes the index free again; the last one of a block frees its memory, and the current
        block moves down to the lowest free one. */
    method Push(x: nat)
      requires x / N < |use| && x / N < |v|
      modifies this
      ensures Abs() == PushStep(old(Abs()), x)
    {
      var q := x / N;
      if q == 0 {
        v0 := v0 + [x];
      } else if q == c {
        vc := vc + [x];
      }
      use := use[q := use[q] - 1];
      if use[q] == 0 {
        v := v[q := false];
        if q != c {
          blks := blks + {q};
        } else {
          vc, o := [], 0;
          if blks != {} && Least(blks) < c {
            blks := blks + {c};
            c := Least(blks);
            blks := blks - {c};
          }
        }
      }
    }
  }
}
