/** The two channel implementations of `src/co/co.cc`. Both refine the bounded queue of `Channel`:
    each critical section turns the abstract channel into exactly what the specified step says. */
module Pipes {
  import opened Options
  import opened Channel
  import opened ChannelSafety
  import opened CList
  import opened Unbuffered

  /** Index of the `k`-th place after `rx` in a ring of `n` places. */
  function At(rx: nat, n: nat, k: nat): (i: nat)
    requires rx < n && k <= n
    ensures i < n
  {
    if rx + k < n then rx + k else rx + k - n
  }

  /** The places from `rx` on hold the queued elements, and all others hold no object. */
  ghost predicate Ring(cells: seq<Slot>, rx: nat, wx: nat, q: seq<Value>) {
    if cells == [] then rx == wx == 0 && q == [] else
      && rx < |cells| && |q| <= |cells| && wx == At(rx, |cells|, |q|)
      && (forall k :: 0 <= k < |q| ==> cells[At(rx, |cells|, k)] == Live(q[k]))
      && (forall k :: |q| <= k < |cells| ==> cells[At(rx, |cells|, k)] == Raw)
  }

  lemma RingPop(cells: seq<Slot>, rx: nat, wx: nat, q: seq<Value>)
    requires Ring(cells, rx, wx, q) && q != []
    ensures rx < |cells| && cells[rx] == Live(q[0])
    ensures Ring(cells[rx := Raw], if rx + 1 == |cells| then 0 else rx + 1, wx, q[1..])
  {
    var n := |cells|;
    var rx', q' := if rx + 1 == n then 0 else rx + 1, q[1..];
    assert At(rx, n, 0) == rx;
    forall k | 0 <= k < n - 1 ensures At(rx', n, k) == At(rx, n, k + 1) && At(rx', n, k) != rx {}
    assert At(rx', n, n - 1) == rx;
    assert forall k :: 0 <= k < |q'| ==> cells[rx := Raw][At(rx', n, k)] == Live(q'[k]);
    forall k | |q'| <= k < n ensures cells[rx := Raw][At(rx', n, k)] == Raw {
      if k < n - 1 { assert cells[At(rx, n, k + 1)] == Raw; }
    }
  }

  lemma RingPush(cells: seq<Slot>, rx: nat, wx: nat, q: seq<Value>, x: Value)
    requires Ring(cells, rx, wx, q) && |q| < |cells|
    ensures wx < |cells| && cells[wx] == Raw
    ensures Ring(cells[wx := Live(x)], rx, if wx + 1 == |cells| then 0 else wx + 1, q + [x])
  {
    var n := |cells|;
    assert cells[At(rx, n, |q|)] == Raw;
    assert forall k :: 0 <= k < n && k != |q| ==> At(rx, n, k) != wx;
  }

  /** `_rx != _wx` tells that the buffer is neither empty nor full. */
  lemma RingFill(cells: seq<Slot>, rx: nat, wx: nat, q: seq<Value>)
    requires Ring(cells, rx, wx, q)
    ensures |q| <= |cells| && (rx == wx <==> q == [] || |q| == |cells|)
  {
  }

  /** One round of the loop that pops timed-out waiters. */
  lemma DropRound(e: Env, destroy: bool)
    requires e.wq != [] && !Wins(e, e.wq[0])
    ensures var f := DropLoser(PopFront(e), e.wq[0], destroy);
      DropLosers(f, destroy) == DropLosers(e, destroy) && f.wq == e.wq[1..]
  {
  }

  lemma DropEnds(e: Env, destroy: bool)
    requires e.wq == [] || Wins(e, e.wq[0])
    ensures DropLosers(e, destroy) == e
  {
  }

  /** The loop of a write that looks for a reader still waiting, the same in both classes. */
  method ServeReader(e0: Env, o: nat, mv: bool) returns (done: bool, e: Env)
    ensures var f := DropLosers(e0, false); var x := Peek(Of(f, o), Arg);
      && done == (f.wq != [])
      && e == if done then Done(Give(ServeHead(f, x), o, x, mv), o, true) else f
  {
    hide DropLosers, DropLoser, WakeUp, GiveHead, Give, Done, Peek, Wins;
    e := e0;
    while e.wq != []
      invariant DropLosers(e, false) == DropLosers(e0, false)
      decreases |e.wq|
    {
      var w := e.wq[0];
      if Wins(e, w) {
        DropEnds(e, false);
        var x := Peek(Of(e, o), Arg);
        e := GiveHead(e, x);
        e := WakeUp(e, w);
        e := Done(Give(e, o, x, mv), o, true);
        return true, e;
      }
      DropRound(e, false);
      e := DropLoser(PopFront(e), w, false);
    }
    DropEnds(e, false);
    done := false;
  }

  /** The loop of a read without a buffer. */
  method TakeDirectly(e0: Env, o: nat) returns (done: bool, e: Env)
    ensures var f := DropLosers(e0, true);
      && done == (f.wq != [])
      && e == if done then Done(WakeUp(BuildOver(TakeHead(f), o, HeadValue(f)), f.wq[0]), o, true) else f
  {
    hide DropLosers, DropLoser, WakeUp, TakeHead, HeadValue, BuildOver, Done, Wins;
    e := e0;
    while e.wq != []
      invariant DropLosers(e, true) == DropLosers(e0, true)
      decreases |e.wq|
    {
      var w := e.wq[0];
      if Wins(e, w) {
        DropEnds(e, true);
        e := BuildOver(TakeHead(e), o, HeadValue(e));
        e := WakeUp(e, w);
        e := Done(e, o, true);
        return true, e;
      }
      DropRound(e, true);
      e := DropLoser(PopFront(e), w, true);
    }
    DropEnds(e, true);
    done := false;
  }

  /** What a caller that waited does after it was woken: the code's assertion holds, and a writer need not look
      at its verdict. */
  method Continue(e: Env, o: nat) returns (f: Env)
    requires EnvOk(e, {}) && o in e.calls && e.calls[o].rec.Some? && !e.calls[o].rec.value.done.Pending?
    ensures f == Set(e, o, Continued(e.calls[o]))
  {
    hide EnvOk;
    CallIn(e, o);
    var k, w := e.calls[o], e.calls[o].rec.value;
    if !k.reader {
      k := Return(Free(k), true);
    } else if w.done.Delivered? {
      if w.own {
        var x := Peek(k, Own);
        k := Construct(Destroy(k, Arg), Arg, x);
        k := Destroy(Take(k, Own, true), Own);
      }
      k := Return(Free(k), true);
    } else {
      assert w.done.ChannelClosed?;
      k := Return(Free(k), false);
    }
    f := Set(e, o, k);
  }

  /** What a blocked thread does when it wakes up. */
  method WakeThread(ghost c: Chan, e: Env, o: nat) returns (f: Env)
    requires c.e == e && EnvOk(e, {}) && Enabled(c, Awake(o))
    ensures c.(e := f) == AwakeStep(c, o)
  {
    if e.calls[o].rec.value.done.Pending? {
      return e.(asleep := e.asleep + {o});
    }
    f := Continue(e, o);
    f := f.(asleep := e.asleep - {o});
  }

  /** The compare-and-swap of the time limit on the state of a waiter, which its caller then gives up. */
  method Expire(ghost c: Chan, e: Env, o: nat) returns (f: Env)
    requires c.e == e && Enabled(c, Timeout(o))
    ensures c.(e := f) == TimeoutStep(c, o)
  {
    var k := e.calls[o];
    k := k.(rec := Some(k.rec.value.(status := TimedOut)));
    k := Return(k, false);
    f := Set(e, o, k).(asleep := e.asleep - {o});
  }

  /** The compare-and-swap of `close` from 0 to 1. */
  method StartClosing(closed: nat) returns (won: bool, after: nat)
    ensures won == (closed == 0) && after == if won then 1 else closed
  {
    won, after := closed == 0, closed;
    if won { after := 1; }
  }

  lemma CallIn(e: Env, o: nat)
    requires EnvOk(e, {}) && o in e.calls
    ensures CallOk(e, o)
  {
  }

  /** `pipe_impl`: a ring of element places, counted in elements instead of bytes, or no buffer at all. */
  class PipeImpl {
    var buf: array<Slot>
    var rx: nat
    var wx: nat
    var full: bool
    var closed: nat
    var e: Env
    ghost var q: seq<Value>

    ghost predicate Valid()
      reads this, buf
    {
      Ring(buf[..], rx, wx, q) && (full <==> |q| == buf.Length)
    }

    ghost function Abs(): Chan
      reads this, buf
    {
      Chan(buf.Length, closed, q, e)
    }

    constructor (size: nat, timed: bool)
      ensures Valid() && fresh(buf) && Abs() == Init(size, timed)
    {
      buf := new Slot[size](_ => Raw);
      rx, wx, full, closed := 0, 0, size == 0, 0;
      e := Init(size, timed).e;
      q := [];
    }

    /** `_read_block`: the front element moves to the caller's object. */
    method ReadBlock(o: nat)
      requires Ring(buf[..], rx, wx, q) && q != []
      modifies this`rx, this`e, this`q, buf
      ensures Ring(buf[..], rx, wx, q) && q == old(q)[1..]
      ensures e == Receive(old(e), o, old(q)[0])
    {
      hide Ring, Receives;
      RingPop(buf[..], rx, wx, q);
      e := Receive(e, o, buf[rx].v);
      buf[rx] := Moved;
      buf[rx] := Raw;
      assert buf[..] == old(buf[..])[rx := Raw];
      rx := rx + 1;
      if rx == buf.Length { rx := 0; }
      q := q[1..];
    }

    /** `_write_block`: an element is constructed in the free place at the write position. */
    method WriteBlock(x: Value)
      requires Ring(buf[..], rx, wx, q) && |q| < buf.Length
      modifies this`wx, this`q, buf
      ensures Ring(buf[..], rx, wx, q) && q == old(q) + [x]
    {
      hide Ring;
      RingPush(buf[..], rx, wx, q, x);
      assert buf[wx].Raw?;
      buf[wx] := Live(x);
      assert buf[..] == old(buf[..])[wx := Live(x)];
      wx := wx + 1;
      if wx == buf.Length { wx := 0; }
      q := q + [x];
    }

    method Read(o: nat, co: bool, onStack: bool, init: Value)
      requires Valid()
      modifies this, buf
      ensures Valid() && buf == old(buf)
      ensures Abs() == if buf.Length > 0 then ReadStep(old(Abs()), o, co, onStack, init)
                       else DirectRead(old(Abs()), o, co, onStack, init)
    {
      hide BuildOver, DropLosers, DropLoser, WakeUp, TakeHead, GiveHead, HeadValue, Give, Receives, Done, Take, Peek,
          Wins, Ring;
      RingFill(buf[..], rx, wx, q);
      e := Set(e, o, Started(true, init));
      if rx != wx {
        ReadBlock(o);
        e := Done(e, o, true);
        return;
      }
      if full && buf.Length > 0 {
        ReadBlock(o);
        ghost var e1 := e;
        while e.wq != []
          invariant Ring(buf[..], rx, wx, q) && buf == old(buf) && full && closed == old(closed) && q == old(q)[1..]
          invariant DropLosers(e, true) == DropLosers(e1, true)
          decreases |e.wq|
        {
          var w := e.wq[0];
          if Wins(e, w) {
            DropEnds(e, true);
            WriteBlock(HeadValue(e));
            e := TakeHead(e);
            e := WakeUp(e, w);
            e := Done(e, o, true);
            return;
          }
          DropRound(e, true);
          e := DropLoser(PopFront(e), w, true);
        }
        DropEnds(e, true);
        full := false;
        e := Done(e, o, true);
        return;
      }
      if full {
        var done;
        done, e := TakeDirectly(e, o);
        if done { return; }
      }
      if closed != 0 {
        e := Done(e, o, false);
        return;
      }
      e := Enqueue(e, o, ReaderRecord(co, onStack));
    }

    method Write(o: nat, co: bool, onStack: bool, val: Value, mv: bool)
      requires Valid()
      modifies this, buf
      ensures Valid() && buf == old(buf)
      ensures Abs() == if buf.Length > 0 then WriteStep(old(Abs()), o, co, onStack, val, mv)
                       else DirectWrite(old(Abs()), o, co, onStack, val, mv)
    {
      hide DropLosers, DropLoser, WakeUp, TakeHead, GiveHead, HeadValue, Give, Receives, Done, Take, Peek, Wins, Ring;
      RingFill(buf[..], rx, wx, q);
      e := Set(e, o, Started(false, val));
      if closed != 0 {
        e := Done(e, o, false);
        return;
      }
      if rx != wx {
        var x := Peek(Of(e, o), Arg);
        WriteBlock(x);
        e := Give(e, o, x, mv);
        RingFill(buf[..], rx, wx, q);
        if rx == wx { full := true; }
        e := Done(e, o, true);
        return;
      }
      if buf.Length == 0 || !full {
        var done;
        done, e := ServeReader(e, o, mv);
        if done { return; }
        if buf.Length > 0 {
          var x := Peek(Of(e, o), Arg);
          WriteBlock(x);
          e := Give(e, o, x, mv);
          RingFill(buf[..], rx, wx, q);
          if rx == wx { full := true; }
          e := Done(e, o, true);
          return;
        }
      }
      var w := WriterRecord(co, onStack, Peek(Of(e, o), Arg), mv);
      if w.own { e := Set(e, o, Take(Of(e, o), Arg, mv)); }
      e := Enqueue(e, o, w);
    }

    /** A coroutine continues after its scheduler was handed it. */
    method Resume(o: nat)
      requires Valid() && EnvOk(e, {}) && Enabled(Abs(), Event.Resume(o))
      modifies this`e
      ensures Valid() && Abs() == Step(old(Abs()), Event.Resume(o))
    {
      WokenHasVerdict(Abs(), o);
      e := Continue(e, o);
    }

    /** A blocked thread wakes up, notified or not, and looks at its verdict. */
    method Awake(o: nat)
      requires Valid() && EnvOk(e, {}) && Enabled(Abs(), Event.Awake(o))
      modifies this`e
      ensures Valid() && Abs() == Step(old(Abs()), Event.Awake(o))
    {
      e := WakeThread(Abs(), e, o);
    }

    /** The time limit of a waiter expires first: its state leaves waiting for timed out. */
    method TimeOut(o: nat)
      requires Valid() && Enabled(Abs(), Timeout(o))
      modifies this`e
      ensures Valid() && Abs() == Step(old(Abs()), Timeout(o))
    {
      e := Expire(Abs(), e, o);
    }

    /** The compare-and-swap of `close` from 0 to 1; it wins only once. */
    method CloseFirst() returns (won: bool)
      requires Valid()
      modifies this`closed
      ensures Valid() && won == (old(closed) == 0)
      ensures Abs() == if won then Step(old(Abs()), CloseBegin) else old(Abs())
    {
      won, closed := StartClosing(closed);
    }

    /** The part of `close` under the lock. */
    method CloseLocked()
      requires Valid()
      modifies this
      ensures Valid() && buf == old(buf)
      ensures Abs() == if buf.Length > 0 then Step(old(Abs()), CloseEnd) else DirectClose(old(Abs()))
    {
      RingFill(buf[..], rx, wx, q);
      hide Ring;
      if rx == wx && !full {
        var os := e.wq;
        e := e.(wq := []);
        ghost var e0, os0 := e, os;
        while os != []
          invariant Valid() && buf == old(buf) && closed == old(closed) && q == old(q)
          invariant CloseEach(e, os) == CloseEach(e0, os0)
          decreases |os|
        {
          var o := os[0];
          os := os[1..];
          var k := Of(e, o);
          if k.rec.Some? && k.rec.value.status.Waiting? {
            e := Set(e, o, Settle(k, Ready, ChannelClosed));
            e := WakeUp(e, o);
          } else {
            e := Set(e, o, Free(k));
          }
        }
      }
      closed := 2;
    }
  }

  /** The element inside a node of the list. */
  class Cell {
    var s: Slot

    constructor (x: Value)
      ensures s == Live(x)
    {
      s := Live(x);
    }
  }

  /** `pipe_impl_cap`: a linked list of separately allocated elements, without bound if `cap` is 0. */
  class PipeImplCap {
    const list: List<Cell>
    var size: nat
    const cap: nat
    var closed: nat
    var e: Env
    ghost var q: seq<Value>

    ghost function Cells(): set<Cell>
      reads list
    {
      set n | n in list.nodes :: n.data
    }

    ghost predicate Valid()
      reads this`size, this`q, list, list.nodes, Cells()
    {
      && list.Valid() && size == |list.nodes| == |q|
      && (forall i, j :: 0 <= i < j < |list.nodes| ==> list.nodes[i].data != list.nodes[j].data)
      && (forall i :: 0 <= i < |list.nodes| ==> list.nodes[i].data.s == Live(q[i]))
    }

    ghost function Abs(): Chan
      reads this
    {
      Chan(cap, closed, q, e)
    }

    predicate IsFull()
      reads this
    {
      cap != 0 && size == cap
    }

    constructor (cap: nat, timed: bool)
      ensures Valid() && Abs() == Init(cap, timed) && fresh(list) && list.nodes == []
    {
      this.cap := cap;
      list := new List();
      size, closed := 0, 0;
      e, q := Init(cap, timed).e, [];
    }

    /** Takes the first node off the list and moves its element to the caller's object. */
    method ReadNode(o: nat)
      requires Valid() && size > 0
      modifies this, list, list.nodes, Cells()
      ensures Valid() && q == old(q)[1..] && closed == old(closed) && list.nodes == old(list.nodes)[1..]
      ensures e == Receive(old(e), o, old(q)[0])
    {
      hide List.Valid;
      var n := list.PopFront();
      size := size - 1;
      e := Receive(e, o, n.data.s.v);
      n.data.s := Moved;
      n.data.s := Raw;
      q := q[1..];
    }

    method WriteNode(x: Value)
      requires Valid()
      modifies this, list, list.nodes
      ensures Valid() && q == old(q) + [x] && closed == old(closed) && e == old(e)
      ensures list.nodes[..|list.nodes| - 1] == old(list.nodes) && fresh(list.nodes[|list.nodes| - 1])
      ensures fresh(list.nodes[|list.nodes| - 1].data)
    {
      hide List.Valid;
      var c := new Cell(x);
      var n := new Clink(c);
      list.PushBack(n);
      size, q := size + 1, q + [x];
    }

    /** The rest of a read of a full list: the first writer still waiting fills the freed place. */
    method Refill(o: nat)
      requires Valid()
      modifies this, list, list.nodes
      ensures Valid() && closed == old(closed)
      ensures forall n :: n in list.nodes ==> n in old(list.nodes) || (fresh(n) && fresh(n.data))
      ensures var e2 := DropLosers(old(e), true);
        if e2.wq == [] then e == Done(e2, o, true) && q == old(q)
        else e == Done(AcceptHead(e2), o, true) && q == old(q) + [HeadValue(e2)]
    {
      hide DropLosers, DropLoser, WakeUp, TakeHead, HeadValue, Done, Wins, List.Valid;
      while e.wq != []
        invariant Valid() && closed == old(closed) && q == old(q) && list.nodes == old(list.nodes)
        invariant DropLosers(e, true) == DropLosers(old(e), true)
        decreases |e.wq|
      {
        var w := e.wq[0];
        if Wins(e, w) {
          DropEnds(e, true);
          WriteNode(HeadValue(e));
          e := TakeHead(e);
          e := WakeUp(e, w);
          e := Done(e, o, true);
          return;
        }
        DropRound(e, true);
        e := DropLoser(PopFront(e), w, true);
      }
      DropEnds(e, true);
      e := Done(e, o, true);
    }

    method Read(o: nat, co: bool, onStack: bool, init: Value)
      requires Valid()
      modifies this, list, list.nodes, Cells()
      ensures Valid() && forall n :: n in list.nodes ==> n in old(list.nodes) || (fresh(n) && fresh(n.data))
      ensures Abs() == ReadStep(old(Abs()), o, co, onStack, init)
    {
      hide List.Valid, DropLosers, AcceptHead, ServeHead, HeadValue, Give, Receives, Done, Take, Peek;
      e := Set(e, o, Started(true, init));
      if size != 0 && !IsFull() {
        ReadNode(o);
        e := Done(e, o, true);
        return;
      }
      if IsFull() {
        ReadNode(o);
        Refill(o);
        return;
      }
      if closed != 0 {
        e := Done(e, o, false);
        return;
      }
      e := Enqueue(e, o, ReaderRecord(co, onStack));
    }

    method Write(o: nat, co: bool, onStack: bool, val: Value, mv: bool)
      requires Valid()
      modifies this, list, list.nodes
      ensures Valid() && forall n :: n in list.nodes ==> n in old(list.nodes) || (fresh(n) && fresh(n.data))
      ensures Abs() == WriteStep(old(Abs()), o, co, onStack, val, mv)
    {
      hide DropLosers, AcceptHead, ServeHead, HeadValue, Give, Receives, Done, Take, Peek;
      e := Set(e, o, Started(false, val));
      if closed != 0 {
        e := Done(e, o, false);
        return;
      }
      if size != 0 && !IsFull() {
        var x := Peek(Of(e, o), Arg);
        WriteNode(x);
        e := Done(Give(e, o, x, mv), o, true);
        return;
      }
      if size == 0 {
        var done;
        done, e := ServeReader(e, o, mv);
        if done { return; }
        var x := Peek(Of(e, o), Arg);
        WriteNode(x);
        e := Done(Give(e, o, x, mv), o, true);
        return;
      }
      var w := WriterRecord(co, onStack, Peek(Of(e, o), Arg), mv);
      if w.own { e := Set(e, o, Take(Of(e, o), Arg, mv)); }
      e := Enqueue(e, o, w);
    }

    /** A coroutine continues after its scheduler was handed it. */
    method Resume(o: nat)
      requires Valid() && EnvOk(e, {}) && Enabled(Abs(), Event.Resume(o))
      modifies this`e
      ensures Valid() && Abs() == Step(old(Abs()), Event.Resume(o))
    {
      WokenHasVerdict(Abs(), o);
      e := Continue(e, o);
    }

    /** A blocked thread wakes up, notified or not, and looks at its verdict. */
    method Awake(o: nat)
      requires Valid() && EnvOk(e, {}) && Enabled(Abs(), Event.Awake(o))
      modifies this`e
      ensures Valid() && Abs() == Step(old(Abs()), Event.Awake(o))
    {
      e := WakeThread(Abs(), e, o);
    }

    /** The time limit of a waiter expires first: its state leaves waiting for timed out. */
    method TimeOut(o: nat)
      requires Valid() && Enabled(Abs(), Timeout(o))
      modifies this`e
      ensures Valid() && Abs() == Step(old(Abs()), Timeout(o))
    {
      e := Expire(Abs(), e, o);
    }

    /** The compare-and-swap of `close` from 0 to 1; it wins only once. */
    method CloseFirst() returns (won: bool)
      requires Valid()
      modifies this`closed
      ensures Valid() && won == (old(closed) == 0)
      ensures Abs() == if won then Step(old(Abs()), CloseBegin) else old(Abs())
    {
      won, closed := StartClosing(closed);
    }

    /** The part of `close` under the lock. */
    method CloseLocked()
      requires Valid()
      modifies this
      ensures Valid() && Abs() == Step(old(Abs()), CloseEnd)
    {
      if size == 0 {
        var os := e.wq;
        e := e.(wq := []);
        ghost var e0, os0 := e, os;
        while os != []
          invariant Valid() && closed == old(closed) && q == old(q)
          invariant CloseEach(e, os) == CloseEach(e0, os0)
          decreases |os|
        {
          var o := os[0];
          os := os[1..];
          var k := Of(e, o);
          if k.rec.Some? && k.rec.value.status.Waiting? {
            e := Set(e, o, Settle(k, Ready, ChannelClosed));
            e := WakeUp(e, o);
          } else {
            e := Set(e, o, Free(k));
          }
        }
      }
      closed := 2;
    }
  }
}
