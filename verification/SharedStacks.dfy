/** The stacks of a coroutine scheduler, `src/co/sched.h` and `src/co/sched.cc`. Many coroutines share a
    few stacks: a switch saves the bytes of the coroutine that owns the stack and restores those of
    the next one. Seen by the coroutines, every one of them has a stack of its own. */
module SharedStacks {
  import opened Options

  type Byte = bv8

  // ----- private stacks: what each coroutine left behind

  /** What a coroutine does when it runs: it fills its stack with anything, then calls `yield` with some
      stack pointer, or ends. */
  datatype Outcome = Yields(mem: seq<Byte>, ctx: nat) | Finishes(mem: seq<Byte>)

  datatype Event =
    | Start(i: nat, zeroed: bool)
    | Resume(i: nat, out: Outcome)

  predicate Fits(out: Outcome, size: nat) {
    |out.mem| == size && (out.Yields? ==> out.ctx <= size)
  }

  /** The live bytes of a suspended coroutine, or nothing if it has not run yet. */
  type Frame = Option<seq<Byte>>

  /** What coroutine `i` left on a stack of its own, by the last event about it: nothing at all if
      it does not exist. */
  function Left(evs: seq<Event>, i: nat): Option<Frame> {
    if evs == [] then None else
      var ev := evs[|evs| - 1];
      if ev.i != i then Left(evs[..|evs| - 1], i) else
      match ev
      case Start(_, _) => Some(None)
      case Resume(_, Yields(mem, ctx)) => Some(Some(mem[if ctx <= |mem| then ctx else |mem|..]))
      case Resume(_, Finishes(_)) => None
  }

  predicate Enabled(evs: seq<Event>, ev: Event, size: nat) {
    match ev
    case Start(i, _) => Left(evs, i).None?
    case Resume(i, out) => Left(evs, i).Some? && Fits(out, size)
  }

  /** Only coroutines that exist are resumed, and only indices not in use are handed out again. */
  predicate Proper(evs: seq<Event>, size: nat) {
    forall k :: 0 <= k < |evs| ==> Enabled(evs[..k], evs[k], size)
  }

  lemma LeftAfter(evs: seq<Event>, k: nat, i: nat)
    requires k < |evs| && evs[k].i != i
    ensures Left(evs[..k + 1], i) == Left(evs[..k], i)
  {
    assert evs[..k + 1][..k] == evs[..k];
  }

  ghost predicate LeftIn(left: map<nat, Frame>, evs: seq<Event>) {
    forall i: nat :: Left(evs, i) == if i in left then Some(left[i]) else None
  }

  function Stepped(left: map<nat, Frame>, ev: Event): map<nat, Frame> {
    match ev
    case Start(i, _) => left[i := None]
    case Resume(i, Yields(mem, ctx)) => left[i := Some(mem[if ctx <= |mem| then ctx else |mem|..])]
    case Resume(i, Finishes(_)) => left - {i}
  }

  lemma NothingLeft()
    ensures LeftIn(map[], [])
  {
  }

  lemma LeftStep(left: map<nat, Frame>, evs: seq<Event>, k: nat, size: nat)
    requires k < |evs| && LeftIn(left, evs[..k]) && Enabled(evs[..k], evs[k], size)
    ensures LeftIn(Stepped(left, evs[k]), evs[..k + 1])
    ensures evs[k].Start? ==> evs[k].i !in left
    ensures evs[k].Resume? ==>
      evs[k].i in left && Fits(evs[k].out, size) && Left(evs[..k], evs[k].i) == Some(left[evs[k].i])
  {
    forall i: nat ensures Left(evs[..k + 1], i) == if i in Stepped(left, evs[k]) then Some(Stepped(left, evs[k])[i])
        else None {
      if i != evs[k].i { LeftAfter(evs, k, i); }
    }
  }

  // ----- growing a block

  /** Capacities and sizes are 32-bit numbers. */
  const WORD := 0x1_0000_0000

  /** The largest stack size for which no block grows beyond what 32 bits can count. */
  const MAX_STACK := 1_717_986_915

  /** The capacity a block of capacity `cap` gets when it grows for `n` more bytes. */
  function Grown(cap: nat, n: nat): nat {
    (cap + (cap / 2 + n) % WORD) % WORD
  }

  /** The bytes there are behind the header after `append` has looked at the capacity. The size given to
      `realloc` is a 32-bit number, too. */
  function Room(cap: nat, size: nat, n: nat): int {
    if cap < (size + n) % WORD then (Grown(cap, n) + 8) % WORD - 8 else cap
  }

  /** When `append` writes `n` bytes behind the `size` ones in a block of capacity `cap`, and stays in it:
      they fit in as it is, or the new capacity does not wrap around, or it wraps around to a large one. */
  predicate Fits32(cap: nat, size: nat, n: nat) {
    || size + n <= cap
    || (size + n < WORD && cap + cap / 2 + n + 8 < WORD)
    || (size + n < WORD && WORD + size <= cap + cap / 2 && cap + cap / 2 + n + 8 < 2 * WORD)
  }

  /** The bytes appended lie inside the block exactly in those cases. */
  lemma AppendFitsIff(cap: nat, size: nat, n: nat)
    requires size <= cap < WORD && n < WORD
    ensures size + n <= Room(cap, size, n) <==> Fits32(cap, size, n)
    ensures Fits32(cap, size, n) && cap < size + n ==> Room(cap, size, n) == Grown(cap, n) >= size + n
  {
    WrapsTwice(cap, n);
    Wraps(size + n);
    Wraps(cap + cap / 2 + n - WORD);
    Wraps(Grown(cap, n) + 8);
  }

  lemma Wraps(x: int)
    requires -WORD <= x < 2 * WORD
    ensures x % WORD == if x < 0 then x + WORD else if x < WORD then x else x - WORD
  {
  }

  lemma WrapsTwice(cap: nat, n: nat)
    requires cap < WORD && n < WORD
    ensures var x := cap + cap / 2 + n;
      Grown(cap, n) == if x < WORD then x else if x < 2 * WORD then x - WORD else x - 2 * WORD
  {
    Wraps(cap / 2 + n);
    Wraps(cap + (cap / 2 + n) % WORD);
  }

  /** Saving stacks of up to `size` bytes always stays inside the block, whatever was saved in it before,
      if and only if the stack size is at most `MAX_STACK`. */
  lemma StackSizeIsSafeIff(size: nat)
    requires size < WORD
    ensures (forall cap: nat, n: nat :: cap < WORD && n <= size ==> Fits32(cap, 0, n)) <==> size <= MAX_STACK
  {
    LargerStackOverruns();
  }

  /** One byte more is too much: after `MAX_STACK` bytes were saved in a block, saving one more than that
      asks `realloc` for nothing and writes behind what it returns. */
  lemma LargerStackOverruns()
    ensures Fits32(MAX_STACK, 0, MAX_STACK) && !Fits32(MAX_STACK, 0, MAX_STACK + 1)
    ensures (Grown(MAX_STACK, MAX_STACK + 1) + 8) % WORD == 0 && Room(MAX_STACK, 0, MAX_STACK + 1) < 0
  {
    WrapsTwice(MAX_STACK, MAX_STACK + 1);
  }

  /** A block that is large enough for its purpose never wraps around, and keeps its bound. */
  lemma SavedFits(cap: nat, n: nat, size: nat)
    requires n <= size <= MAX_STACK && 2 * cap <= 5 * size
    ensures cap < WORD && Fits32(cap, 0, n)
        && (cap < n ==> Grown(cap, n) == cap + cap / 2 + n && 2 * Grown(cap, n) <= 5 * size)
  {
    if cap < n { WrapsTwice(cap, n); }
  }

  lemma WithoutOne<T>(m: map<nat, T>, k: nat, x: T)
    ensures m[k := x] - {k} == m - {k}
  {
  }

  // ----- the shared stacks

  /** A stack has no memory before its first use. */
  datatype Stack = Stack(ready: bool, mem: seq<Byte>, owner: Option<nat>)

  /** A coroutine record. `ctx` is an offset in the memory of the stack, `buf` a pointer to a block. */
  datatype Coroutine = Coroutine(known: bool, ctx: Option<nat>, stack: nat, buf: Option<nat>)

  /** A heap block for saved bytes: its capacity and the bytes in it. */
  datatype Block = Block(cap: nat, data: seq<Byte>)

  const MAX_CAP := 8192
  const MAX_BUFS := 128

  /** Every block belongs to exactly one coroutine or to the free list, which names it once. */
  ghost predicate Owned(cos: map<nat, Coroutine>, heap: map<nat, Block>, bufs: seq<nat>) {
    && (forall i :: i in cos && cos[i].buf.Some? ==> cos[i].buf.value in heap && cos[i].buf.value !in bufs)
    && (forall i, j :: i in cos && j in cos && i != j && cos[i].buf.Some? ==> cos[i].buf != cos[j].buf)
    && (forall k :: 0 <= k < |bufs| ==> bufs[k] in heap)
    && (forall j, k :: 0 <= j < k < |bufs| ==> bufs[j] != bufs[k])
    && (forall b :: b in heap ==> b in bufs || exists i :: i in cos && cos[i].buf == Some(b))
  }

  /** A coroutine without a block takes the last one of the free list. */
  lemma OwnedTake(cos: map<nat, Coroutine>, heap: map<nat, Block>, bufs: seq<nat>, i: nat)
    requires Owned(cos, heap, bufs) && i in cos && cos[i].buf.None? && bufs != []
    ensures Owned(cos[i := cos[i].(buf := Some(bufs[|bufs| - 1]))], heap, bufs[..|bufs| - 1])
  {
    var cos', b := cos[i := cos[i].(buf := Some(bufs[|bufs| - 1]))], bufs[|bufs| - 1];
    var bufs' := bufs[..|bufs| - 1];
    forall x | x in heap ensures x in bufs' || exists j :: j in cos' && cos'[j].buf == Some(x) {
      if x == b {
        assert cos'[i].buf == Some(x);
      } else if x !in bufs {
        var j :| j in cos && cos[j].buf == Some(x);
        assert cos'[j].buf == Some(x);
      } else {
        var k :| 0 <= k < |bufs| && bufs[k] == x;
        assert bufs'[k] == x;
      }
    }
  }

  /** A coroutine replaces its block, if it has one, by the block `b`: the same one or a new one. */
  lemma OwnedReplace(cos: map<nat, Coroutine>, heap: map<nat, Block>, bufs: seq<nat>, i: nat, b: nat, h: Block)
    requires Owned(cos, heap, bufs) && i in cos && (cos[i].buf == Some(b) || b !in heap)
    ensures var p := cos[i].buf;
      Owned(cos[i := cos[i].(buf := Some(b))], (heap - (if p.Some? then {p.value} else {}))[b := h], bufs)
  {
    var p, cos' := cos[i].buf, cos[i := cos[i].(buf := Some(b))];
    var heap' := (heap - (if p.Some? then {p.value} else {}))[b := h];
    forall x | x in heap' ensures x in bufs || exists j :: j in cos' && cos'[j].buf == Some(x) {
      if x == b {
        assert cos'[i].buf == Some(x);
      } else if x !in bufs {
        var j :| j in cos && cos[j].buf == Some(x);
        assert cos'[j].buf == Some(x);
      }
    }
  }

  /** A coroutine gives up its block: it is freed, or goes to the free list. */
  lemma OwnedDrop(cos: map<nat, Coroutine>, heap: map<nat, Block>, bufs: seq<nat>, i: nat)
    requires Owned(cos, heap, bufs) && i in cos && cos[i].buf.Some?
    ensures var cos', b := cos[i := cos[i].(buf := None)], cos[i].buf.value;
      Owned(cos', heap - {b}, bufs) && Owned(cos', heap, bufs + [b])
  {
    var cos', b := cos[i := cos[i].(buf := None)], cos[i].buf.value;
    forall x | x in heap && x != b && x !in bufs ensures exists j :: j in cos' && cos'[j].buf == Some(x) {
      var j :| j in cos && cos[j].buf == Some(x);
      assert cos'[j].buf == Some(x);
    }
    assert Owned(cos', heap - {b}, bufs);
    OwnedKept(cos', heap, bufs, b);
  }

  lemma OwnedKept(cos: map<nat, Coroutine>, heap: map<nat, Block>, bufs: seq<nat>, b: nat)
    requires Owned(cos, heap - {b}, bufs) && b in heap
    ensures Owned(cos, heap, bufs + [b])
  {
    assert forall k :: 0 <= k < |bufs| ==> bufs[k] in heap - {b};
    assert forall x :: x in heap && x != b ==> x in heap - {b};
    assert forall x :: x in bufs ==> x in bufs + [b];
    assert b in [b];
  }

  /** The stack a coroutine runs on; the number of stacks is a power of two, which makes the mask of the
      index its remainder. */
  function StackOf(i: nat, num: nat): (k: nat)
    requires 0 < num
    ensures k < num
  {
    i % num
  }

  /** The fields of the scheduler that this module is about. */
  datatype View = View(num: nat, size: nat, stack: seq<Stack>,
                       cos: map<nat, Coroutine>, heap: map<nat, Block>, bufs: seq<nat>, next: nat)

  /** The record of a coroutine agrees with what it left behind: its bytes lie on the stack if it owns
      it, and otherwise in its own block. */
  ghost predicate Keeps(size: nat, c: Coroutine, s: Stack, heap: map<nat, Block>, i: nat, f: Frame) {
    && c.known
    && (f.None? ==> c.ctx.None?)
    && (f.Some? ==>
          && |f.value| <= size && c.ctx == Some(size - |f.value|)
          && s.ready && |s.mem| == size
          && (if s.owner == Some(i) then s.mem[c.ctx.value..] == f.value
              else c.buf.Some? && c.buf.value in heap && heap[c.buf.value].data == f.value))
  }

  ghost predicate Sizes(v: View) {
    && 0 < v.num == |v.stack| && v.size <= MAX_STACK
    && (forall b :: b in v.heap ==> b < v.next && BlockOk(v.heap[b], v.size))
    && |v.bufs| <= MAX_BUFS
    && (forall k :: 0 <= k < |v.bufs| ==> v.bufs[k] in v.heap && v.heap[v.bufs[k]].cap <= MAX_CAP)
  }

  predicate BlockOk(b: Block, size: nat) {
    |b.data| <= b.cap && 2 * b.cap <= 5 * size
  }

  ghost predicate StackOk(s: Stack, k: nat, num: nat, size: nat, left: map<nat, Frame>)
    requires 0 < num
  {
    && (s.ready ==> |s.mem| == size)
    && (s.owner.Some? ==> s.ready && s.owner.value in left && StackOf(s.owner.value, num) == k)
  }

  ghost predicate Stacks(v: View, left: map<nat, Frame>)
    requires 0 < v.num == |v.stack|
  {
    forall k :: 0 <= k < v.num ==> StackOk(v.stack[k], k, v.num, v.size, left)
  }

  ghost predicate Records(v: View, left: map<nat, Frame>)
    requires 0 < v.num
  {
    && (forall i :: i in v.cos && v.cos[i].known ==> v.cos[i].stack == StackOf(i, v.num))
    && (forall i :: i in v.cos && i !in left ==> v.cos[i].buf.None?)
  }

  ghost predicate Frames(v: View, left: map<nat, Frame>)
    requires 0 < v.num == |v.stack|
  {
    forall i :: i in left ==> i in v.cos && Keeps(v.size, v.cos[i], v.stack[StackOf(i, v.num)], v.heap, i, left[i])
  }

  /** What holds even while a stack is being handed to a new coroutine. */
  ghost predicate Core(v: View, left: map<nat, Frame>) {
    && Sizes(v) && Owned(v.cos, v.heap, v.bufs)
    && Stacks(v, left) && Records(v, left) && Frames(v, left)
  }

  predicate OwnerRan(owner: Option<nat>, left: map<nat, Frame>) {
    owner.Some? ==> owner.value in left && left[owner.value].Some?
  }

  /** What holds between events; in particular, the owner of a stack has run. */
  ghost predicate Inv(v: View, left: map<nat, Frame>) {
    Core(v, left) && forall k :: 0 <= k < v.num ==> OwnerRan(v.stack[k].owner, left)
  }

  // ----- the parts of a switch

  /** A change to coroutine `j` alone leaves the others as they are. */
  lemma OthersKept(v: View, v': View, left: map<nat, Frame>, j: nat)
    requires 0 < v.num == |v.stack| && Frames(v, left) && Records(v, left) && Stacks(v, left)
    requires v' == v.(cos := v'.cos, heap := v'.heap, bufs := v'.bufs, next := v'.next)
    requires v'.cos.Keys == v.cos.Keys && j in v.cos && j in left
    requires forall i :: i in v.cos && i != j ==> v'.cos[i] == v.cos[i]
    requires forall i :: i in v.cos && i != j && v.cos[i].buf.Some? && v.cos[i].buf.value in v.heap ==>
      v.cos[i].buf.value in v'.heap && v'.heap[v.cos[i].buf.value] == v.heap[v.cos[i].buf.value]
    requires v'.cos[j] == v.cos[j].(buf := v'.cos[j].buf)
    requires Keeps(v.size, v'.cos[j], v.stack[StackOf(j, v.num)], v'.heap, j, left[j])
    ensures Frames(v', left) && Records(v', left) && Stacks(v', left)
  {
    hide StackOf;
    assert Frames(v', left) by {
      forall i | i in left ensures i in v'.cos
          && Keeps(v'.size, v'.cos[i], v'.stack[StackOf(i, v'.num)], v'.heap, i, left[i]) {
        assert Keeps(v.size, v.cos[i], v.stack[StackOf(i, v.num)], v.heap, i, left[i]);
      }
    }
  }

  /** A coroutine without a block takes the last one of the free list. */
  lemma TakeKeepsCore(v: View, left: map<nat, Frame>, j: nat)
    requires Core(v, left) && j in v.cos && v.cos[j].buf.None? && v.bufs != [] && j in left
    requires v.stack[StackOf(j, v.num)].owner == Some(j)
    ensures var n := |v.bufs| - 1;
      Core(v.(cos := v.cos[j := v.cos[j].(buf := Some(v.bufs[n]))], bufs := v.bufs[..n]), left)
  {
    var n := |v.bufs| - 1;
    var v' := v.(cos := v.cos[j := v.cos[j].(buf := Some(v.bufs[n]))], bufs := v.bufs[..n]);
    hide Owned, Frames, Records, Stacks, StackOf, Sizes;
    FrameOf(v, left, j);
    OwnerKeeps(v.size, v.cos[j], v.stack[StackOf(j, v.num)], v.heap, j, left[j], v'.cos[j].buf);
    hide Keeps;
    TakeKeepsSizes(v, j);
    OwnedTake(v.cos, v.heap, v.bufs, j);
    OthersKept(v, v', left, j);
  }

  /** The block of the owner of a stack does not matter. */
  lemma OwnerKeeps(size: nat, c: Coroutine, s: Stack, heap: map<nat, Block>, i: nat, f: Frame, buf: Option<nat>)
    requires Keeps(size, c, s, heap, i, f) && s.owner == Some(i)
    ensures Keeps(size, c.(buf := buf), s, heap, i, f)
  {
  }

  lemma FrameOf(v: View, left: map<nat, Frame>, j: nat)
    requires 0 < v.num == |v.stack| && Frames(v, left) && j in left
    ensures j in v.cos && Keeps(v.size, v.cos[j], v.stack[StackOf(j, v.num)], v.heap, j, left[j])
  {
    hide StackOf, Keeps;
  }

  lemma TakeKeepsSizes(v: View, j: nat)
    requires Sizes(v) && j in v.cos && v.bufs != []
    ensures var n := |v.bufs| - 1;
      Sizes(v.(cos := v.cos[j := v.cos[j].(buf := Some(v.bufs[n]))], bufs := v.bufs[..n]))
  {
    hide BlockOk;
  }

  /** The owner `j` of a stack has its bytes copied to the block `b`, its own or a new one. */
  lemma SaveKeepsCore(v: View, left: map<nat, Frame>, j: nat, b: nat, h: Block, next: nat)
    requires Core(v, left) && j in left && left[j].Some? && v.stack[StackOf(j, v.num)].owner == Some(j)
    requires v.cos[j].buf == Some(b) || b !in v.heap
    requires h.data == left[j].value && BlockOk(h, v.size) && b < next && v.next <= next
    ensures Core(Saved(v, j, b, h, next), left)
  {
    var v' := Saved(v, j, b, h, next);
    OwnedReplace(v.cos, v.heap, v.bufs, j, b, h);
    SaveKeepsSizes(v, j, b, h, next);
    assert Keeps(v.size, v.cos[j], v.stack[StackOf(j, v.num)], v.heap, j, left[j]);
    hide BlockOk, Sizes, Owned, Frames, Records, Stacks, StackOf;
    forall i | i in v.cos && i != j && v.cos[i].buf.Some? && v.cos[i].buf.value in v.heap
      ensures v.cos[i].buf.value in v'.heap && v'.heap[v.cos[i].buf.value] == v.heap[v.cos[i].buf.value]
    {
      OtherBlock(v, i, j, b);
    }
    OthersKept(v, v', left, j);
  }

  function Saved(v: View, j: nat, b: nat, h: Block, next: nat): View
    requires j in v.cos
  {
    var p := v.cos[j].buf;
    v.(cos := v.cos[j := v.cos[j].(buf := Some(b))],
       heap := (v.heap - (if p.Some? then {p.value} else {}))[b := h], next := next)
  }

  lemma OtherBlock(v: View, i: nat, j: nat, b: nat)
    requires Owned(v.cos, v.heap, v.bufs) && i in v.cos && j in v.cos && i != j
    requires v.cos[j].buf == Some(b) || b !in v.heap
    ensures v.cos[i].buf.Some? ==>
      v.cos[i].buf.value in v.heap && v.cos[i].buf.value != b && v.cos[i].buf != v.cos[j].buf
  {
  }

  lemma SaveKeepsSizes(v: View, j: nat, b: nat, h: Block, next: nat)
    requires Sizes(v) && Owned(v.cos, v.heap, v.bufs) && j in v.cos
    requires v.cos[j].buf == Some(b) || b !in v.heap
    requires BlockOk(h, v.size) && b < next && v.next <= next
    ensures Sizes(Saved(v, j, b, h, next))
  {
    hide BlockOk;
  }

  /** The saved bytes of a suspended coroutine are those it left behind. */
  ghost predicate SavedIn(v: View, left: map<nat, Frame>, j: nat)
    requires j in left && left[j].Some? && j in v.cos
  {
    var p := v.cos[j].buf;
    p.Some? && p.value in v.heap && v.heap[p.value].data == left[j].value
  }

  lemma RecordOf(v: View, left: map<nat, Frame>, j: nat)
    requires Core(v, left) && j in left
    ensures 0 < v.num == |v.stack| && j in v.cos && v.cos[j].stack == StackOf(j, v.num)
    ensures Keeps(v.size, v.cos[j], v.stack[StackOf(j, v.num)], v.heap, j, left[j])
    ensures v.cos[j].buf.Some? ==> v.cos[j].buf.value in v.heap && BlockOk(v.heap[v.cos[j].buf.value], v.size)
    ensures v.size <= MAX_STACK && forall b :: b in v.heap ==> b < v.next
    ensures StackOk(v.stack[StackOf(j, v.num)], StackOf(j, v.num), v.num, v.size, left)
  {
  }

  /** Stack `k` goes to coroutine `i`, the bytes of its previous owner being saved. */
  lemma HandOver(v: View, left: map<nat, Frame>, i: nat, mem: seq<Byte>)
    requires Core(v, left) && i in left && |mem| == v.size
    requires var o := v.stack[StackOf(i, v.num)].owner; o.Some? && o != Some(i) ==>
      OwnerRan(o, left) && o.value in v.cos && SavedIn(v, left, o.value)
    requires left[i].Some? ==>
      && |left[i].value| <= v.size && v.stack[StackOf(i, v.num)].ready
      && mem[v.size - |left[i].value|..] == left[i].value
    ensures Core(v.(stack := v.stack[StackOf(i, v.num) := Stack(true, mem, Some(i))]), left)
  {
    var k := StackOf(i, v.num);
    var v' := v.(stack := v.stack[k := Stack(true, mem, Some(i))]);
    assert Sizes(v') by { hide Owned, Frames, Records, Stacks, BlockOk; }
    hide StackOf, Owned, Sizes;
    assert Frames(v', left) by {
      forall x | x in left ensures x in v'.cos
          && Keeps(v'.size, v'.cos[x], v'.stack[StackOf(x, v'.num)], v'.heap, x, left[x]) {
        assert Keeps(v.size, v.cos[x], v.stack[StackOf(x, v.num)], v.heap, x, left[x]);
      }
    }
    assert Stacks(v', left);
  }

  function Yielded(v: View, i: nat, out: Outcome): View
    requires 0 < v.num == |v.stack| && i in v.cos && out.Yields?
  {
    v.(stack := v.stack[StackOf(i, v.num) := Stack(true, out.mem, Some(i))],
      cos := v.cos[i := v.cos[i].(ctx := Some(out.ctx))])
  }

  /** Coroutine `i` ran and yielded. */
  lemma YieldKeeps(v: View, left: map<nat, Frame>, i: nat, out: Outcome)
    requires Core(v, left) && i in left && Fits(out, v.size) && out.Yields?
    requires v.stack[StackOf(i, v.num)].owner == Some(i)
    ensures i in v.cos && Core(Yielded(v, i, out), left[i := Some(out.mem[out.ctx..])])
  {
    var v' := Yielded(v, i, out);
    assert Sizes(v') by { hide Owned, Frames, Records, Stacks, BlockOk; }
    assert Owned(v'.cos, v'.heap, v'.bufs) by { SameBlocksOwned(v.cos, v'.cos, v.heap, v.bufs); }
    YieldFrames(v, left, i, out);
    YieldStacks(v, left, i, out);
    hide Sizes, Owned, Frames, Stacks;
  }

  lemma YieldFrames(v: View, left: map<nat, Frame>, i: nat, out: Outcome)
    requires Core(v, left) && i in left && Fits(out, v.size) && out.Yields?
    requires v.stack[StackOf(i, v.num)].owner == Some(i)
    ensures i in v.cos && Frames(Yielded(v, i, out), left[i := Some(out.mem[out.ctx..])])
  {
    var v', left' := Yielded(v, i, out), left[i := Some(out.mem[out.ctx..])];
    hide StackOf, Owned, Sizes, Stacks, Records;
    forall x | x in left'
        ensures x in v'.cos && Keeps(v'.size, v'.cos[x], v'.stack[StackOf(x, v'.num)], v'.heap, x, left'[x]) {
      assert Keeps(v.size, v.cos[x], v.stack[StackOf(x, v.num)], v.heap, x, left[x]);
    }
  }

  lemma YieldStacks(v: View, left: map<nat, Frame>, i: nat, out: Outcome)
    requires Core(v, left) && i in left && Fits(out, v.size) && out.Yields?
    ensures i in v.cos && Stacks(Yielded(v, i, out), left[i := Some(out.mem[out.ctx..])])
  {
    var v', left' := Yielded(v, i, out), left[i := Some(out.mem[out.ctx..])];
    hide StackOf, Owned, Sizes, Records;
    forall k | 0 <= k < v.num ensures StackOk(v'.stack[k], k, v.num, v.size, left') {
      assert StackOk(v.stack[k], k, v.num, v.size, left);
    }
  }

  lemma SameBlocksOwned(cos: map<nat, Coroutine>, cos': map<nat, Coroutine>, heap: map<nat, Block>, bufs: seq<nat>)
    requires Owned(cos, heap, bufs)
    requires forall i :: i in cos ==> i in cos' && cos'[i].buf == cos[i].buf
    requires forall i :: i in cos' && i !in cos ==> cos'[i].buf.None?
    ensures Owned(cos', heap, bufs)
  {
  }

  function Ended(v: View, i: nat, mem: seq<Byte>): View
    requires 0 < v.num == |v.stack|
  {
    v.(stack := v.stack[StackOf(i, v.num) := Stack(true, mem, None)])
  }

  /** Coroutine `i` ended: its stack has no owner. */
  lemma EndKeeps(v: View, left: map<nat, Frame>, i: nat, mem: seq<Byte>)
    requires Core(v, left) && i in left && |mem| == v.size
    requires v.stack[StackOf(i, v.num)].owner == Some(i)
    ensures var v' := Ended(v, i, mem);
      && Sizes(v') && Owned(v'.cos, v'.heap, v'.bufs) && Stacks(v', left - {i}) && Frames(v', left - {i})
      && i in v'.cos && Records(v', (left - {i})[i := None])
  {
    var v', left' := Ended(v, i, mem), left - {i};
    assert Sizes(v') by { hide Owned, Frames, Records, Stacks, BlockOk; }
    EndFrames(v, left, i, mem);
    hide StackOf, Owned, Sizes, Frames, Records;
    forall k | 0 <= k < v.num ensures StackOk(v'.stack[k], k, v.num, v.size, left') {
      assert StackOk(v.stack[k], k, v.num, v.size, left);
    }
  }

  lemma EndFrames(v: View, left: map<nat, Frame>, i: nat, mem: seq<Byte>)
    requires Core(v, left) && i in left && |mem| == v.size
    requires v.stack[StackOf(i, v.num)].owner == Some(i)
    ensures var v' := Ended(v, i, mem); Frames(v', left - {i}) && i in v'.cos && Records(v', (left - {i})[i := None])
  {
    var v', left' := Ended(v, i, mem), left - {i};
    hide StackOf, Owned, Sizes, Stacks;
    forall x | x in left'
        ensures x in v'.cos && Keeps(v'.size, v'.cos[x], v'.stack[StackOf(x, v'.num)], v'.heap, x, left'[x]) {
      assert Keeps(v.size, v.cos[x], v.stack[StackOf(x, v.num)], v.heap, x, left[x]);
    }
  }

  /** The block of a coroutine that ended is freed, or kept on the free list. */
  lemma RecycleKeeps(v: View, left: map<nat, Frame>, i: nat, heap: map<nat, Block>, bufs: seq<nat>)
    requires Sizes(v) && Owned(v.cos, v.heap, v.bufs) && Stacks(v, left) && Frames(v, left) && i !in left && i in v.cos
    requires Records(v, left[i := None]) && v.cos[i].buf.Some?
    requires var b := v.cos[i].buf.value;
      || (heap == v.heap - {b} && bufs == v.bufs)
      || (heap == v.heap && bufs == v.bufs + [b] && |bufs| <= MAX_BUFS && b in heap && heap[b].cap <= MAX_CAP)
    ensures Core(v.(cos := v.cos[i := v.cos[i].(buf := None)], heap := heap, bufs := bufs), left)
  {
    var b := v.cos[i].buf.value;
    var v' := v.(cos := v.cos[i := v.cos[i].(buf := None)], heap := heap, bufs := bufs);
    assert 0 < v.num == |v.stack|;
    hide Owned, Sizes, Stacks, Frames, Records, StackOf;
    RecycleSizes(v, i, heap, bufs);
    OwnedDrop(v.cos, v.heap, v.bufs, i);
    FramesWithout(v, v', left, i);
  }

  lemma RecycleSizes(v: View, i: nat, heap: map<nat, Block>, bufs: seq<nat>)
    requires Sizes(v) && Owned(v.cos, v.heap, v.bufs) && i in v.cos && v.cos[i].buf.Some?
    requires var b := v.cos[i].buf.value;
      || (heap == v.heap - {b} && bufs == v.bufs)
      || (heap == v.heap && bufs == v.bufs + [b] && |bufs| <= MAX_BUFS && b in heap && heap[b].cap <= MAX_CAP)
    ensures Sizes(v.(cos := v.cos[i := v.cos[i].(buf := None)], heap := heap, bufs := bufs))
  {
    var b := v.cos[i].buf.value;
    assert b in v.heap && b !in v.bufs;
    hide Owned, BlockOk;
  }

  lemma FramesWithout(v: View, v': View, left: map<nat, Frame>, i: nat)
    requires 0 < v.num == |v.stack| && Frames(v, left) && Stacks(v, left) && Records(v, left[i := None])
    requires i !in left && i in v.cos && v.cos[i].buf.Some? && Owned(v.cos, v.heap, v.bufs)
    requires v'.num == v.num && v'.size == v.size && v'.stack == v.stack && v'.cos == v.cos[i := v.cos[i].(buf := None)]
    requires v'.heap == v.heap || v'.heap == v.heap - {v.cos[i].buf.value}
    ensures Frames(v', left) && Stacks(v', left) && Records(v', left)
  {
    assert forall x :: x in v.cos && x != i ==> v.cos[x].buf != v.cos[i].buf;
    hide StackOf, Owned;
    assert forall k :: 0 <= k < v.num ==> StackOk(v.stack[k], k, v.num, v.size, left);
    forall x | x in left ensures x in v'.cos
        && Keeps(v'.size, v'.cos[x], v'.stack[StackOf(x, v'.num)], v'.heap, x, left[x]) {
      assert Keeps(v.size, v.cos[x], v.stack[StackOf(x, v.num)], v.heap, x, left[x]);
    }
  }

  lemma NewRecords(v: View, left: map<nat, Frame>, i: nat, c: Coroutine)
    requires 0 < v.num && Records(v, left) && c == Coroutine(true, None, StackOf(i, v.num), None)
    ensures Records(v.(cos := v.cos[i := c]), left[i := None])
  {
  }

  /** A record with neither stack pointer nor block makes a new coroutine. */
  lemma NewKeeps(v: View, left: map<nat, Frame>, i: nat, c: Coroutine)
    requires Inv(v, left) && i !in left
    requires c == Coroutine(true, None, StackOf(i, v.num), None)
    ensures Inv(v.(cos := v.cos[i := c]), left[i := None])
  {
    var v', left' := v.(cos := v.cos[i := c]), left[i := None];
    assert Sizes(v') by { hide Owned, Frames, Records, Stacks, BlockOk; }
    SameBlocksOwned(v.cos, v'.cos, v.heap, v.bufs);
    hide StackOf, Owned, Sizes, Records;
    NewRecords(v, left, i, c);
    forall x | x in left'
        ensures x in v'.cos && Keeps(v'.size, v'.cos[x], v'.stack[StackOf(x, v'.num)], v'.heap, x, left'[x]) {
      if x != i { assert Keeps(v.size, v.cos[x], v.stack[StackOf(x, v.num)], v.heap, x, left[x]); }
    }
    forall k | 0 <= k < v.num
        ensures StackOk(v'.stack[k], k, v.num, v.size, left') && OwnerRan(v'.stack[k].owner, left') {
      assert StackOk(v.stack[k], k, v.num, v.size, left) && OwnerRan(v.stack[k].owner, left);
    }
  }

  /** Owners of the other stacks are other coroutines, and they have run. */
  ghost predicate OthersRan(stack: seq<Stack>, k: nat, left: map<nat, Frame>) {
    forall x :: 0 <= x < |stack| && x != k ==> OwnerRan(stack[x].owner, left)
  }

  lemma OthersStillRan(v: View, left: map<nat, Frame>, i: nat, s: Stack, left': map<nat, Frame>)
    requires Core(v, left) && OthersRan(v.stack, StackOf(i, v.num), left)
    requires forall x :: x in left && x != i ==> x in left' && left'[x] == left[x]
    ensures OthersRan(v.stack[StackOf(i, v.num) := s], StackOf(i, v.num), left')
  {
    var k := StackOf(i, v.num);
    forall x | 0 <= x < |v.stack| && x != k ensures OwnerRan(v.stack[x].owner, left') {
      assert StackOk(v.stack[x], x, v.num, v.size, left) && OwnerRan(v.stack[x].owner, left);
    }
  }

  lemma InvFrom(v: View, left: map<nat, Frame>, k: nat)
    requires Core(v, left) && k < |v.stack| && OthersRan(v.stack, k, left) && OwnerRan(v.stack[k].owner, left)
    ensures Inv(v, left)
  {
  }

  class Sched {
    const stackNum: nat
    const stackSize: nat
    const stack: array<Stack>
    var cos: map<nat, Coroutine>
    var heap: map<nat, Block>
    var bufs: seq<nat>
    var next: nat
    ghost var left: map<nat, Frame>

    ghost function Abs(): View
      reads this, stack
    {
      View(stackNum, stackSize, stack[..], cos, heap, bufs, next)
    }

    ghost predicate Valid()
      reads this, stack
    {
      Inv(Abs(), left)
    }

    constructor (stackNum: nat, stackSize: nat)
      requires 0 < stackNum && stackSize <= MAX_STACK
      ensures Valid() && fresh(stack) && left == map[]
      ensures this.stackNum == stackNum && this.stackSize == stackSize
    {
      this.stackNum, this.stackSize := stackNum, stackSize;
      stack := new Stack[stackNum](_ => Stack(false, [], None));
      cos, heap, bufs, next, left := map[], map[], [], 0, map[];
    }

    /** `Buffer::append` on the block `p`, or on a new one. `fits` tells whether the bytes lie inside it. */
    method Append(p: Option<nat>, data: seq<Byte>) returns (b: nat, fits: bool)
      requires p.Some? ==> p.value in heap && |heap[p.value].data| <= heap[p.value].cap < WORD
      requires |data| < WORD && forall x :: x in heap ==> x < next
      modifies this`heap, this`next
      ensures fits <==> p.None? || Fits32(old(heap[p.value].cap), |old(heap[p.value].data)|, |data|)
      ensures b == if p.Some? && old(heap[p.value].cap) >= (|old(heap[p.value].data)| + |data|) % WORD then p.value
          else old(next)
      ensures next == if b == old(next) then old(next) + 1 else old(next)
      ensures b in heap && heap == old(heap - (if p.Some? then {p.value} else {}))[b := heap[b]]
      ensures fits ==>
        && heap[b].data == (if p.Some? then old(heap[p.value].data) else []) + data && |heap[b].data| <= heap[b].cap
        && heap[b].cap == if p.None? then |data| else if b == p.value then old(heap[b].cap)
          else Grown(old(heap[p.value].cap), |data|)
    {
      var n, size := |data|, if p.Some? then |heap[p.value].data| else 0;
      var room: int := n;
      if p.None? {
        b := next;
        next := next + 1;
        heap := heap[b := Block(n, [])];
      } else {
        AppendFitsIff(heap[p.value].cap, size, n);
        Wraps(size + n);
        b, room := p.value, heap[p.value].cap;
        if heap[p.value].cap < (size + n) % WORD {
          var o := heap[p.value];
          b := next;
          next := next + 1;
          var cap := Grown(o.cap, n);
          room := (cap + 8) % WORD - 8;
          heap := (heap - {p.value})[b := Block(cap, o.data)];
        }
      }
      fits := size + n <= room;
      if fits { heap := heap[b := heap[b].(data := heap[b].data + data)]; }
    }

    /** `Sched::save_stack`: the bytes of the owner of a stack go to its block, taken from the free list
        or allocated if it has none. */
    method SaveStack(owner: Option<nat>)
      requires Core(Abs(), left) && OwnerRan(owner, left)
      requires owner.Some? ==> 0 < stackNum == stack.Length && stack[StackOf(owner.value, stackNum)].owner == owner
      modifies this`cos, this`heap, this`bufs, this`next
      ensures Core(Abs(), left)
      ensures cos.Keys == old(cos.Keys)
      ensures forall i :: i in cos && Some(i) != owner ==> cos[i] == old(cos[i])
      ensures owner.Some? ==> owner.value in cos && SavedIn(Abs(), left, owner.value)
      ensures owner.Some? ==> owner.value in old(cos)
      ensures bufs == if owner.Some? && old(cos)[owner.value].buf.None? && old(bufs) != [] then
                        old(bufs)[..|old(bufs)| - 1]
                      else old(bufs)
    {
      hide Core;
      if owner.Some? {
        var j := owner.value;
        RecordOf(Abs(), left, j);
        if cos[j].buf.None? && bufs != [] {
          TakeKeepsCore(Abs(), left, j);
          cos := cos[j := cos[j].(buf := Some(bufs[|bufs| - 1]))];
          bufs := bufs[..|bufs| - 1];
        }
        SaveBytes(j);
      }
    }

    /** `co->buf.clear(); co->buf.append(co->ctx, co->stack->top - co->ctx)`. */
    method SaveBytes(j: nat)
      requires Core(Abs(), left) && j in left && left[j].Some?
      requires 0 < stackNum == stack.Length && stack[StackOf(j, stackNum)].owner == Some(j)
      modifies this`cos, this`heap, this`next
      ensures Core(Abs(), left)
      ensures cos.Keys == old(cos.Keys)
      ensures forall i :: i in cos && i != j ==> cos[i] == old(cos[i])
      ensures j in cos && SavedIn(Abs(), left, j)
    {
      hide Core, StackOf, Fits32, Grown, Owned;
      ghost var v := Abs();
      RecordOf(v, left, j);
      var c := cos[j];
      if c.buf.Some? {
        WithoutOne(heap, c.buf.value, heap[c.buf.value].(data := []));
        heap := heap[c.buf.value := heap[c.buf.value].(data := [])];
      }
      var data := stack[c.stack].mem[c.ctx.value..];
      var b, fits := Append(c.buf, data);
      assert fits && BlockOk(heap[b], stackSize) by {
        SavedFits(if c.buf.Some? then v.heap[c.buf.value].cap else 0, |data|, stackSize);
      }
      SaveKeepsCore(v, left, j, b, heap[b], next);
      cos := cos[j := c.(buf := Some(b))];
      assert heap == Saved(v, j, b, heap[b], next).heap;
    }

    /** `Sched::new_coroutine` with the record that the pool gave out: one in zeroed memory, or the
        one that the last coroutine with this index left. */
    method NewCoroutine(i: nat, zeroed: bool)
      requires Valid() && i !in left
      modifies this`cos, this`left
      ensures Valid() && left == old(left)[i := None]
    {
      ghost var v := Abs();
      var c := if zeroed || i !in cos then Coroutine(false, None, 0, None) else cos[i].(ctx := None);
      if !c.known { c := c.(known := true, stack := StackOf(i, stackNum)); }
      cos := cos[i := c];
      left := left[i := None];
      NewKeeps(v, old(left), i, c);
    }

    /** `Sched::recycle`. */
    method Recycle(i: nat)
      requires Sizes(Abs()) && Owned(cos, heap, bufs) && Stacks(Abs(), left) && Frames(Abs(), left)
      requires i !in left && i in cos && Records(Abs(), left[i := None])
      modifies this`cos, this`heap, this`bufs
      ensures Core(Abs(), left) && cos == old(cos)[i := old(cos)[i].(buf := None)]
      ensures old(cos)[i].buf.None? ==> heap == old(heap) && bufs == old(bufs)
      ensures old(cos)[i].buf.Some? ==>
        var b := old(cos)[i].buf.value;
        if old(heap)[b].cap > 8192 || |old(bufs)| >= 128 then heap == old(heap) - {b} && bufs == old(bufs)
        else heap == old(heap) && bufs == old(bufs) + [b]
    {
      if cos[i].buf.Some? {
        ghost var v := Abs();
        var b := cos[i].buf.value;
        if heap[b].cap > MAX_CAP || |bufs| >= MAX_BUFS {
          heap := heap - {b};
        } else {
          bufs := bufs + [b];
        }
        RecycleKeeps(v, left, i, heap, bufs);
        cos := cos[i := cos[i].(buf := None)];
      } else {
        assert cos[i].(buf := None) == cos[i] && cos[i := cos[i]] == cos;
      }
    }

    /** The first half of `Sched::resume`: the stack of coroutine `i` gets its bytes back, and what the
        coroutine finds there is read just before the switch. */
    method Load(i: nat) returns (found: Frame)
      requires Valid() && i in left
      modifies this`cos, this`heap, this`bufs, this`next, stack
      ensures Core(Abs(), left) && found == left[i]
      ensures OthersRan(stack[..], StackOf(i, stackNum), left)
      ensures stack[StackOf(i, stackNum)].owner == Some(i)
    {
      hide Core, StackOf;
      RecordOf(Abs(), left, i);
      var k := cos[i].stack;
      assert OwnerRan(stack[k].owner, left);
      if !stack[k].ready {
        HandOver(Abs(), left, i, seq(stackSize, _ => 0));
        stack[k] := Stack(true, seq(stackSize, _ => 0), Some(i));
      } else if stack[k].owner != Some(i) {
        SaveStack(stack[k].owner);
        RecordOf(Abs(), left, i);
        var mem := stack[k].mem;
        if cos[i].ctx.Some? {
          var saved := heap[cos[i].buf.value].data;
          assert stackSize == cos[i].ctx.value + |saved|;
          mem := mem[..cos[i].ctx.value] + saved;
        }
        HandOver(Abs(), left, i, mem);
        stack[k] := Stack(true, mem, Some(i));
      }
      RecordOf(Abs(), left, i);
      found := if cos[i].ctx.None? then None else Some(stack[k].mem[cos[i].ctx.value..]);
    }

    /** `Sched::resume`: after the coroutine ran, its stack pointer is updated or its record recycled. */
    method Resume(i: nat, out: Outcome) returns (found: Frame)
      requires Valid() && i in left && Fits(out, stackSize)
      modifies this, stack
      ensures Valid() && found == old(left[i])
      ensures left == match out
                      case Yields(mem, ctx) => old(left)[i := Some(mem[ctx..])]
                      case Finishes(_) => old(left) - {i}
    {
      hide Core, StackOf;
      found := Load(i);
      RecordOf(Abs(), left, i);
      var k := cos[i].stack;
      if out.Yields? {
        YieldKeeps(Abs(), left, i, out);
        OthersStillRan(Abs(), left, i, Stack(true, out.mem, Some(i)), left[i := Some(out.mem[out.ctx..])]);
        stack[k] := stack[k].(mem := out.mem);
        cos := cos[i := cos[i].(ctx := Some(out.ctx))];
        left := left[i := Some(out.mem[out.ctx..])];
      } else {
        EndKeeps(Abs(), left, i, out.mem);
        OthersStillRan(Abs(), left, i, Stack(true, out.mem, None), left - {i});
        stack[k] := Stack(true, out.mem, None);
        left := left - {i};
        Recycle(i);
      }
      InvFrom(Abs(), left, k);
    }
  }

  /** In every run of starts and resumes, over any number of coroutines and stacks, a resumed coroutine
      finds exactly the bytes it left at its last yield. */
  method Run(stackNum: nat, stackSize: nat, evs: seq<Event>) returns (found: seq<Frame>)
    requires 0 < stackNum && stackSize <= MAX_STACK && Proper(evs, stackSize)
    ensures |found| == |evs|
    ensures forall k :: 0 <= k < |evs| && evs[k].Resume? ==> Left(evs[..k], evs[k].i) == Some(found[k])
  {
    hide Inv, Left, Enabled, LeftIn;
    var sched := new Sched(stackNum, stackSize);
    found := [];
    NothingLeft();
    assert evs[..0] == [];
    for k := 0 to |evs|
      invariant sched.Valid() && fresh(sched) && fresh(sched.stack) && sched.stackSize == stackSize
      invariant |found| == k
      invariant forall x :: 0 <= x < k && evs[x].Resume? ==> Left(evs[..x], evs[x].i) == Some(found[x])
      invariant LeftIn(sched.left, evs[..k])
    {
      assert Enabled(evs[..k], evs[k], stackSize);
      LeftStep(sched.left, evs, k, stackSize);
      var f: Frame := None;
      match evs[k] {
        case Start(i, zeroed) => sched.NewCoroutine(i, zeroed);
        case Resume(i, out) => f := sched.Resume(i, out);
      }
      found := found + [f];
    }
  }
}
