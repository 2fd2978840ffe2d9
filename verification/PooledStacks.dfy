/** The coroutine pool and the shared stacks together, as `Sched::new_coroutine`, `resume` and `recycle` of
    `src/co/sched.h` and `src/co/sched.cc` use them: the pool hands out the indices, and a coroutine that
    ends gives its own back. */
module PooledStacks {
  import opened Options
  import opened Division
  import Pool = CoroutinePool
  import Stacks = SharedStacks

  /** A coroutine is created, or one that exists runs. */
  datatype Op = New | Go(i: nat, out: Stacks.Outcome)

  /** `touched` holds the records used since their block was allocated, `evs` what the stacks see. */
  datatype State = State(st: Pool.State, touched: set<nat>, evs: seq<Stacks.Event>)

  function Init(): State {
    State(Pool.State(Pool.Init(), {}, 0), {}, [])
  }

  /** The next pop takes a record that it has not taken before, by the label `newco`. */
  predicate TakesNew(s: Pool.Pool) {
    s.v0 == [] && s.vc == []
  }

  /** What the stacks see of an operation. */
  function EventOf(s: State, op: Op): Stacks.Event
    requires Pool.ReuseOk(s.st.pool)
  {
    match op
    case New => Stacks.Start(Pool.PopStep(s.st.pool).1, TakesNew(s.st.pool))
    case Go(i, out) => Stacks.Resume(i, out)
  }

  function Step(s: State, op: Op): State {
    if !Pool.ReuseOk(s.st.pool) then s else
      var evs := s.evs + [EventOf(s, op)];
      match op
      case New => State(Pool.After(s.st, Pool.PopOp), s.touched + {Pool.PopStep(s.st.pool).1}, evs)
      case Go(i, out) =>
        if out.Yields? then s.(evs := evs) else
          var t := Pool.After(s.st, Pool.PushOp(i));
          State(t, Remaining(t.pool, i / Pool.N, s.touched), evs)
  }

  /** A block that was freed has no records any more. */
  function Remaining(s: Pool.Pool, q: nat, touched: set<nat>): set<nat> {
    if q < |s.v| && !s.v[q] then set x | x in touched && x / Pool.N != q else touched
  }

  /** Coroutines are created while the pool is safe, and those that exist run, but not the main one. */
  predicate Allowed(s: State, op: Op, size: nat) {
    match op
    case New => Pool.Safe(s.st.pool, s.st.hi)
    case Go(i, out) => i in s.st.live && i != 0 && Stacks.Fits(out, size)
  }

  function Run(ops: seq<Op>): State {
    if ops == [] then Init() else Step(Run(ops[..|ops| - 1]), ops[|ops| - 1])
  }

  predicate Possible(ops: seq<Op>, size: nat) {
    forall k :: 0 <= k < |ops| ==> Allowed(Run(ops[..k]), ops[k], size)
  }

  // ----- the records

  /** Records in use, or to be used again, were touched; touched records lie in blocks with memory, and in
      the current block below the offset of the first new one. */
  ghost predicate TouchedOk(s: Pool.Pool, live: set<nat>, touched: set<nat>) {
    && live <= touched
    && (forall j :: 0 <= j < |s.v0| ==> s.v0[j] in touched)
    && (forall j :: 0 <= j < |s.vc| ==> s.vc[j] in touched)
    && (forall x :: x in touched ==> x / Pool.N < |s.v| && s.v[x / Pool.N])
    && (forall x :: x in touched && x / Pool.N == s.c ==> x % Pool.N < s.o)
  }

  /** A new record was never touched before. */
  lemma TakeNewTouched(s: Pool.Pool, live: set<nat>, touched: set<nat>)
    requires TouchedOk(s, live, touched) && s.o < Pool.N && s.v0 == [] && s.vc == [] && |s.use| == |s.v|
    ensures var (t, x) := Pool.TakeNew(s); x !in touched && TouchedOk(t, live + {x}, touched + {x})
  {
    hide Pool.AlignUp;
    var g := Pool.Grown(s);
    var x := s.c * Pool.N + s.o;
    DivIs(x, Pool.N, s.c, s.o);
    assert forall q :: |s.v| <= q < |g.v| ==> !g.v[q];
  }

  /** The block the pool moves to holds no touched record. */
  lemma MovedTouched(s: Pool.Pool, live: set<nat>, hi: nat, touched: set<nat>)
    requires Pool.Inv(s, live, hi) && Pool.Safe(s, hi) && TouchedOk(s, live, touched) && Pool.MustMove(s)
    ensures TouchedOk(Pool.Moved(s), live, touched)
  {
    hide Pool.Lists;
    var c := Pool.Moved(s).c;
    assert Pool.InBlock(live, c) == {};
    assert c < |s.v| ==> !s.v[c];
  }

  lemma PopTouched(s: Pool.Pool, live: set<nat>, hi: nat, touched: set<nat>)
    requires Pool.Inv(s, live, hi) && Pool.Safe(s, hi) && TouchedOk(s, live, touched)
    ensures Pool.ReuseOk(s)
    ensures var (t, x) := Pool.PopStep(s);
      (x !in touched <==> TakesNew(s)) && TouchedOk(t, live + {x}, touched + {x})
  {
    Pool.InvReuseOk(s, live, hi);
    if TakesNew(s) {
      if s.o < Pool.N {
        hide Pool.TakeNew;
        TakeNewTouched(s, live, touched) by { SameLengths(s, live, hi); }
      } else {
        MovedTouched(s, live, hi, touched);
        hide Pool.TakeNew, Pool.Inv;
        TakeNewTouched(Pool.Moved(s), live, touched) by { SameLengths(s, live, hi); }
      }
    }
  }

  lemma SameLengths(s: Pool.Pool, live: set<nat>, hi: nat)
    requires Pool.Inv(s, live, hi)
    ensures |s.use| == |s.v|
  {
  }

  lemma PushTouched(s: Pool.Pool, live: set<nat>, hi: nat, touched: set<nat>, x: nat)
    requires Pool.Inv(s, live, hi) && x in live && x != 0 && TouchedOk(s, live, touched)
    ensures x / Pool.N < |s.use| && x / Pool.N < |s.v|
    ensures var t := Pool.PushStep(s, x); TouchedOk(t, live - {x}, Remaining(t, x / Pool.N, touched))
  {
    var q := x / Pool.N;
    if s.use[q] == 1 {
      Pool.OnlyOne(live, x);
      LastTouched(s, live, hi, touched, x);
    }
  }

  /** The last record in use of a block is given back: the block is freed. */
  lemma LastTouched(s: Pool.Pool, live: set<nat>, hi: nat, touched: set<nat>, x: nat)
    requires Pool.Inv(s, live, hi) && x in live && TouchedOk(s, live, touched)
    requires x / Pool.N != 0 && x / Pool.N < |s.use| && s.use[x / Pool.N] == 1
    requires Pool.InBlock(live - {x}, x / Pool.N) == {}
    ensures var t := Pool.PushStep(s, x); TouchedOk(t, live - {x}, Remaining(t, x / Pool.N, touched))
  {
    var q, t := x / Pool.N, Pool.PushStep(s, x);
    var rest := Remaining(t, q, touched);
    assert forall y :: y in rest <==> y in touched && y / Pool.N != q;
    assert forall y :: y in live - {x} && y / Pool.N == q ==> y in Pool.InBlock(live - {x}, q);
    assert forall y :: y in live - {x} ==> y in rest;
    if q == s.c && s.blks != {} {
      var b := Pool.Least(s.blks);
      assert Pool.InBlock(live, b) == {} && !s.v[b];
    }
  }

  // ----- runs

  /** The coroutines that exist are those whose index is in use. */
  ghost predicate Inv(s: State, size: nat) {
    && Pool.Inv(s.st.pool, s.st.live, s.st.hi) && TouchedOk(s.st.pool, s.st.live, s.touched)
    && Stacks.Proper(s.evs, size)
    && forall i: nat :: Stacks.Left(s.evs, i).Some? <==> i in s.st.live
  }

  lemma OneMore(evs: seq<Stacks.Event>, ev: Stacks.Event, size: nat)
    requires Stacks.Proper(evs, size) && Stacks.Enabled(evs, ev, size)
    ensures Stacks.Proper(evs + [ev], size)
    ensures forall i: nat :: i != ev.i ==> Stacks.Left(evs + [ev], i) == Stacks.Left(evs, i)
    ensures Stacks.Left(evs + [ev], ev.i).Some? <==> ev.Start? || ev.out.Yields?
  {
    var all := evs + [ev];
    assert all[..|evs|] == evs;
    hide Stacks.Enabled;
    forall k | 0 <= k < |all| ensures Stacks.Enabled(all[..k], all[k], size) {
      if k < |evs| { assert all[..k] == evs[..k]; }
    }
  }

  lemma EventIsEnabled(s: State, op: Op, size: nat)
    requires Inv(s, size) && Allowed(s, op, size)
    ensures Pool.ReuseOk(s.st.pool) && Stacks.Enabled(s.evs, EventOf(s, op), size)
    ensures op.New? ==> Pool.PopStep(s.st.pool).1 !in s.st.live
  {
    Pool.InvReuseOk(s.st.pool, s.st.live, s.st.hi);
    hide Pool.Inv, TouchedOk, Stacks.Left, Stacks.Proper, Pool.PopStep, TakesNew, Pool.ReuseOk;
    if op.New? { Pool.PopKeepsInv(s.st.pool, s.st.live, s.st.hi); }
  }

  lemma StepKeepsInv(s: State, op: Op, size: nat)
    requires Inv(s, size) && Allowed(s, op, size)
    ensures Inv(Step(s, op), size)
    ensures Pool.ReuseOk(s.st.pool) && Stacks.Enabled(s.evs, EventOf(s, op), size)
    ensures op.New? ==> Pool.PopStep(s.st.pool).1 !in s.st.live
  {
    hide Inv, Stacks.Enabled, Step;
    EventIsEnabled(s, op, size);
    match op
    case New => NewKeepsInv(s, size);
    case Go(i, out) => GoKeepsInv(s, i, out, size);
  }

  lemma NewKeepsInv(s: State, size: nat)
    requires Inv(s, size) && Allowed(s, New, size)
    ensures Inv(Step(s, New), size)
  {
    EventIsEnabled(s, New, size);
    hide Pool.Inv, TouchedOk, Stacks.Left, Stacks.Proper, Stacks.Enabled, Pool.PopStep, Pool.ReuseOk, TakesNew;
    OneMore(s.evs, EventOf(s, New), size);
    Pool.PopKeepsInv(s.st.pool, s.st.live, s.st.hi);
    PopTouched(s.st.pool, s.st.live, s.st.hi, s.touched);
  }

  lemma GoKeepsInv(s: State, i: nat, out: Stacks.Outcome, size: nat)
    requires Inv(s, size) && Allowed(s, Go(i, out), size)
    ensures Inv(Step(s, Go(i, out)), size)
  {
    EventIsEnabled(s, Go(i, out), size);
    if out.Yields? {
      hide Pool.Inv, TouchedOk, Stacks.Left, Stacks.Proper, Stacks.Enabled, Pool.ReuseOk, Stacks.Fits;
      OneMore(s.evs, Stacks.Resume(i, out), size);
    } else {
      EndKeepsInv(s, i, out, size);
    }
  }

  lemma EndKeepsInv(s: State, i: nat, out: Stacks.Outcome, size: nat)
    requires Inv(s, size) && Allowed(s, Go(i, out), size) && out.Finishes?
    requires Pool.ReuseOk(s.st.pool) && Stacks.Enabled(s.evs, Stacks.Resume(i, out), size)
    ensures Inv(Step(s, Go(i, out)), size)
  {
    hide Pool.Inv, TouchedOk, Stacks.Left, Stacks.Proper, Stacks.Enabled, Pool.PushStep, Pool.ReuseOk, Remaining;
    hide Stacks.Fits, Pool.PopStep;
    OneMore(s.evs, Stacks.Resume(i, out), size);
    Pool.PushKeepsInv(s.st.pool, s.st.live, i, s.st.hi);
    PushTouched(s.st.pool, s.st.live, s.st.hi, s.touched, i);
  }

  lemma {:induction false} RunKeepsInv(ops: seq<Op>, size: nat)
    requires Possible(ops, size)
    ensures Inv(Run(ops), size)
    decreases |ops|
  {
    hide Inv, Step, Allowed;
    if ops == [] {
      InitInv(size);
    } else {
      var init := ops[..|ops| - 1];
      assert forall k :: 0 <= k < |init| ==> init[..k] == ops[..k];
      RunKeepsInv(init, size);
      assert Allowed(Run(ops[..|ops| - 1]), ops[|ops| - 1], size);
      StepKeepsInv(Run(init), ops[|ops| - 1], size);
    }
  }

  lemma InitInv(size: nat)
    ensures Inv(Init(), size)
  {
    Pool.InitInv();
  }

  /** What the pool hands out is what the stacks rely on: in every run that takes the fallback only from the
      highest block, each coroutine is created with an index no other has, those that exist are those whose
      index is in use, and so the events are proper. */
  lemma PoolKeepsStacksProper(ops: seq<Op>, size: nat)
    requires Possible(ops, size)
    ensures Stacks.Proper(Run(ops).evs, size)
    ensures forall i: nat :: Stacks.Left(Run(ops).evs, i).Some? <==> i in Run(ops).st.live
  {
    RunKeepsInv(ops, size);
  }

  /** The record of a new coroutine is as the allocation zeroed it exactly if the pool takes a new one;
      otherwise it was used before, and the pool clears its stack pointer. */
  lemma NewRecordIsUntouched(ops: seq<Op>, size: nat)
    requires Possible(ops, size) && Allowed(Run(ops), New, size)
    ensures var s := Run(ops);
      && Pool.ReuseOk(s.st.pool)
      && var x := Pool.PopStep(s.st.pool).1; x !in s.st.live && (TakesNew(s.st.pool) <==> x !in s.touched)
  {
    RunKeepsInv(ops, size);
    var s := Run(ops);
    hide Pool.Inv, TouchedOk, Pool.PopStep, TakesNew, Pool.Safe;
    assert Pool.Safe(s.st.pool, s.st.hi);
    StepKeepsInv(s, New, size);
    PopTouched(s.st.pool, s.st.live, s.st.hi, s.touched);
  }

  lemma LastOp(ops: seq<Op>, k: nat)
    requires k < |ops|
    ensures Run(ops[..k + 1]) == Step(Run(ops[..k]), ops[k])
  {
    assert ops[..k + 1][..k] == ops[..k];
    hide Step;
  }

  lemma NextOp(ops: seq<Op>, k: nat, size: nat)
    requires k < |ops| && Possible(ops, size)
    ensures Inv(Run(ops[..k]), size) && Allowed(Run(ops[..k]), ops[k], size)
    ensures Run(ops[..k + 1]) == Step(Run(ops[..k]), ops[k])
  {
    LastOp(ops, k);
    hide Allowed, Run, Inv, Step;
    forall j | 0 <= j < k ensures Allowed(Run(ops[..k][..j]), ops[..k][j], size) {
      assert ops[..k][..j] == ops[..j];
    }
    RunKeepsInv(ops[..k], size);
    assert Allowed(Run(ops[..k]), ops[k], size);
  }

  /** What a step adds to the events of the stacks, and what it finds there. */
  lemma NextEvent(s: State, op: Op, size: nat, left: map<nat, Stacks.Frame>)
    requires Inv(s, size) && Allowed(s, op, size) && Stacks.LeftIn(left, s.evs)
    ensures Pool.ReuseOk(s.st.pool)
    ensures var ev := EventOf(s, op);
      && Step(s, op).evs == s.evs + [ev] && Stacks.LeftIn(Stacks.Stepped(left, ev), Step(s, op).evs)
      && (ev.Start? ==> ev.i !in left) && (ev.Resume? ==> ev.i in left && Stacks.Left(s.evs, ev.i) == Some(left[ev.i]))
  {
    hide Allowed, EventOf, Pool.ReuseOk, Stacks.Left, Stacks.LeftIn, Stacks.Stepped, Stacks.Enabled, Remaining, Inv;
    StepKeepsInv(s, op, size);
    var t := Step(s, op);
    var n := |s.evs|;
    assert t.evs[..n] == s.evs && t.evs[..n + 1] == t.evs;
    Stacks.LeftStep(left, t.evs, n, size);
  }

  /** The pool and the stacks of a scheduler, run together: whatever coroutines are created, run and end, each
      one that runs finds the bytes it left at its last yield. */
  method RunPooled(stackNum: nat, stackSize: nat, ops: seq<Op>) returns (found: seq<Stacks.Frame>)
    requires 0 < stackNum && stackSize <= Stacks.MAX_STACK && Possible(ops, stackSize)
    ensures |found| == |ops|
    ensures forall k :: 0 <= k < |ops| && ops[k].Go? ==> Stacks.Left(Run(ops[..k]).evs, ops[k].i) == Some(found[k])
  {
    hide Stacks.Inv, Stacks.Left, Stacks.LeftIn, Run, Inv, Possible, Pool.PopStep, Pool.PushStep;
    var sched := new Stacks.Sched(stackNum, stackSize);
    var pool := new Pool.PoolImpl();
    found := [];
    Stacks.NothingLeft();
    assert ops[..0] == [] && Run([]) == Init() by { NoOps(); }
    for k := 0 to |ops|
      invariant sched.Valid() && fresh(sched) && fresh(sched.stack) && sched.stackSize == stackSize && fresh(pool)
      invariant |found| == k && pool.Abs() == Run(ops[..k]).st.pool && Stacks.LeftIn(sched.left, Run(ops[..k]).evs)
      invariant forall x :: 0 <= x < k && ops[x].Go? ==> Stacks.Left(Run(ops[..x]).evs, ops[x].i) == Some(found[x])
    {
      ghost var s := Run(ops[..k]);
      NextOp(ops, k, stackSize);
      NextEvent(s, ops[k], stackSize, sched.left);
      var f: Stacks.Frame := None;
      match ops[k] {
        case New =>
          var zeroed := pool.v0 == [] && pool.vc == [];
          var x := pool.Pop();
          sched.NewCoroutine(x, zeroed);
        case Go(i, out) =>
          f := sched.Resume(i, out);
          if out.Finishes? {
            PushIsPossible(s, i, stackSize);
            pool.Push(i);
          }
      }
      found := found + [f];
    }
  }

  lemma NoOps()
    ensures Run([]) == Init()
  {
  }

  lemma PushIsPossible(s: State, i: nat, size: nat)
    requires Inv(s, size) && i in s.st.live && i != 0
    ensures i / Pool.N < |s.st.pool.use| && i / Pool.N < |s.st.pool.v|
  {
    Pool.PushKeepsInv(s.st.pool, s.st.live, i, s.st.hi);
  }
}
