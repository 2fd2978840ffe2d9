/** The promises of a channel, for every run from a fresh one. */
module ChannelTheorems {
  import opened Options
  import opened Channel
  import opened ChannelSafety

  /** The state after the events `evs` on a fresh channel. */
  function After(cap: nat, timed: bool, evs: seq<Event>): Chan {
    Run(Init(cap, timed), evs)
  }

  ghost predicate Possible(cap: nat, timed: bool, evs: seq<Event>) {
    Runs(Init(cap, timed), evs)
  }

  lemma AfterInv(cap: nat, timed: bool, evs: seq<Event>)
    requires Possible(cap, timed, evs)
    ensures Inv(After(cap, timed, evs))
  {
    InitInv(cap, timed);
    RunKeepsInv(Init(cap, timed), evs);
  }

  lemma {:induction false} RunSplits(c: Chan, xs: seq<Event>, ys: seq<Event>)
    requires Runs(c, xs + ys)
    ensures Runs(c, xs) && Runs(Run(c, xs), ys) && Run(c, xs + ys) == Run(Run(c, xs), ys)
    decreases |xs|
  {
    hide Enabled, Step;
    if xs == [] {
      assert xs + ys == ys;
    } else {
      assert (xs + ys)[1..] == xs[1..] + ys;
      RunSplits(Step(c, xs[0]), xs[1..], ys);
    }
  }

  /** A run in two parts: the state in between and what the rest of the run adds to it. */
  lemma InParts(cap: nat, timed: bool, evs: seq<Event>, more: seq<Event>)
    requires Possible(cap, timed, evs + more)
    ensures Possible(cap, timed, evs) && Inv(After(cap, timed, evs)) && Inv(After(cap, timed, evs + more))
    ensures Runs(After(cap, timed, evs), more) && After(cap, timed, evs + more) == Run(After(cap, timed, evs), more)
    ensures Progress(After(cap, timed, evs).e, After(cap, timed, evs + more).e)
  {
    hide Inv, Progress, Runs, Run;
    RunSplits(Init(cap, timed), evs, more);
    AfterInv(cap, timed, evs);
    RunKeepsInv(After(cap, timed, evs), more);
  }

  /** Order and conservation: the values received, followed by the values buffered, are the values
      accepted, and a wait queue tells whether the buffer is empty or full. */
  lemma ReceivedThenBufferedIsAccepted(cap: nat, timed: bool, evs: seq<Event>)
    requires Possible(cap, timed, evs)
    ensures var c := After(cap, timed, evs);
      && Vals(c.e.accepted) == Vals(c.e.received) + c.q
      && (cap > 0 ==> |c.q| <= cap)
      && (c.e.wq != [] ==> (c.q == [] && AllReaders(c.e)) || (cap > 0 && |c.q| == cap && AllWriters(c.e)))
  {
    AfterInv(cap, timed, evs);
    SameCap(Init(cap, timed), evs);
  }

  /** Only `close` changes whether the channel is closed, and nothing changes its capacity. */
  lemma StepFrame(c: Chan, ev: Event)
    ensures var d := Step(c, ev);
      && d.cap == c.cap
      && d.closed == (if ev.CloseBegin? then 1 else if ev.CloseEnd? then 2 else c.closed)
  {
    hide CloseEach, DropLosers, AcceptHead, ServeHead, Receive, Give, Done, Enqueue, Take, Continued;
  }

  lemma {:induction false} SameCap(c: Chan, evs: seq<Event>)
    requires Runs(c, evs)
    ensures Run(c, evs).cap == c.cap
    decreases |evs|
  {
    hide Step, Enabled;
    if evs != [] {
      StepFrame(c, evs[0]);
      SameCap(Step(c, evs[0]), evs[1..]);
    }
  }

  /** Results are honest. A read that returned true holds the value of its own entry of the received
      values, and one that returned false still holds what it held. A write returned true exactly if its
      value has an entry among the accepted ones. */
  lemma ResultsAreHonest(cap: nat, timed: bool, evs: seq<Event>, o: nat)
    requires Possible(cap, timed, evs) && o in After(cap, timed, evs).e.calls
    requires After(cap, timed, evs).e.calls[o].res.Some?
    ensures var e := After(cap, timed, evs).e; var k := e.calls[o];
      && (k.res.value <==> k.at.Some?)
      && if k.reader then
           if k.res.value then k.at.value < |e.received| && e.received[k.at.value].o == o
             && k.arg == Live(e.received[k.at.value].v)
           else k.arg == Live(k.input)
         else
           k.res.value ==> k.at.value < |e.accepted| && e.accepted[k.at.value] == Entry(o, k.input)
  {
    AfterInv(cap, timed, evs);
    var e := After(cap, timed, evs).e;
    assert CallOk(e, o) && (e.calls[o].at.Some? ==> InLog(e, o));
  }

  /** No value is received or accepted twice, and none comes from nowhere: different places of a log
      belong to different calls, and the value received in a place is what the writer accepted in the same
      place wrote. */
  lemma EachValueOnce(cap: nat, timed: bool, evs: seq<Event>, i: nat, j: nat)
    requires Possible(cap, timed, evs) && i < j
    ensures var e := After(cap, timed, evs).e;
      && (j < |e.received| ==> e.received[i].o != e.received[j].o)
      && (j < |e.accepted| ==> e.accepted[i].o != e.accepted[j].o)
      && (i < |e.received| ==>
            && i < |e.accepted| && e.accepted[i].o in e.calls && !e.calls[e.accepted[i].o].reader
            && e.received[i].v == e.calls[e.accepted[i].o].input)
  {
    AfterInv(cap, timed, evs);
    var c := After(cap, timed, evs);
    if i < |c.e.received| {
      assert |c.e.received| <= |c.e.accepted|;
      assert Vals(c.e.accepted)[i] == Vals(c.e.received)[i];
      WroteIt(c, i);
    }
    if j < |c.e.received| {
      assert OwnEntry(c.e, c.e.received[i].o, true, i) && OwnEntry(c.e, c.e.received[j].o, true, j);
    }
    if j < |c.e.accepted| {
      assert OwnEntry(c.e, c.e.accepted[i].o, false, i) && OwnEntry(c.e, c.e.accepted[j].o, false, j);
    }
  }

  lemma WroteIt(c: Chan, i: nat)
    requires Inv(c) && i < |c.e.accepted|
    ensures var o := c.e.accepted[i].o;
        o in c.e.calls && !c.e.calls[o].reader && c.e.calls[o].input == c.e.accepted[i].v
  {
    var o := c.e.accepted[i].o;
    assert OwnEntry(c.e, o, false, i);
    assert CallOk(c.e, o);
  }

  /** Objects and records: nothing was constructed over an object, destroyed twice, leaked or used
      after it was freed; and every call has returned, waits in the queue, or has been served and is
      about to continue. */
  lemma NothingLostOrFreedTwice(cap: nat, timed: bool, evs: seq<Event>, o: nat)
    requires Possible(cap, timed, evs) && o in After(cap, timed, evs).e.calls
    ensures var e := After(cap, timed, evs).e; var k := e.calls[o];
      && k.ok
      && (k.res.Some? || k.rec.Some?)
      && (o in e.wq <==> k.rec.Some? && k.rec.value.done.Pending?)
      && (k.rec.Some? && k.res.Some? ==> k.rec.value.status.TimedOut? && o in e.wq && k.res == Some(false))
      && (k.past.Some? ==> k.rec.None? && k.res.Some?)
  {
    AfterInv(cap, timed, evs);
    assert CallOk(After(cap, timed, evs).e, o);
  }

  // ----- wake-ups

  /** A coroutine is handed to its scheduler exactly once if its verdict was given, whether a value or
      the end of the channel, and never if it still waits, timed out or did not have to wait. A thread that
      has its verdict, or has returned, is not left blocked. */
  lemma WokenExactlyOnce(cap: nat, timed: bool, evs: seq<Event>, o: nat)
    requires Possible(cap, timed, evs) && o in After(cap, timed, evs).e.calls
    ensures var e := After(cap, timed, evs).e; var k := e.calls[o]; var w := Record(k);
      && k.wakes == (if w.Some? && w.value.co && !w.value.done.Pending? then 1 else 0)
      && (w.Some? && w.value.status.TimedOut? ==> w.value.done.Pending? && k.wakes == 0 && k.res == Some(false))
      && (o in e.asleep ==> k.res.None? && w.Some? && !w.value.co && w.value.done.Pending?)
  {
    AfterInv(cap, timed, evs);
    assert CallOk(After(cap, timed, evs).e, o);
  }

  /** No wake-up is lost: a caller that has its verdict, and has not returned, can continue, and then
      returns what the verdict says. */
  lemma ServedCanContinue(cap: nat, timed: bool, evs: seq<Event>, o: nat)
    requires Possible(cap, timed, evs) && o in After(cap, timed, evs).e.calls
    ensures var c := After(cap, timed, evs); var k := c.e.calls[o];
      k.rec.Some? && !k.rec.value.done.Pending? ==>
        var ev := if k.rec.value.co then Resume(o) else Awake(o);
        && Enabled(c, ev) && o !in c.e.asleep
        && Step(c, ev).e.calls[o].res == Some(k.rec.value.done.Delivered?)
        && Step(c, ev).e.calls[o].rec.None?
  {
    AfterInv(cap, timed, evs);
    var c := After(cap, timed, evs);
    assert CallOk(c.e, o);
    var k := c.e.calls[o];
    if k.rec.Some? && !k.rec.value.done.Pending? {
      ContinuedIs(c.e, k);
      assert c.e.asleep - {o} == c.e.asleep;
    }
  }

  // ----- a waiter settles once

  /** A waiter leaves the waiting state at most once, for ready or for timed out, its verdict is given at
      most once, its record is never allocated again, and a result that was returned stays. */
  lemma WaiterSettlesOnce(cap: nat, timed: bool, evs: seq<Event>, more: seq<Event>, o: nat)
    requires Possible(cap, timed, evs + more) && o in After(cap, timed, evs).e.calls
    ensures var e, f := After(cap, timed, evs).e, After(cap, timed, evs + more).e;
      o in f.calls && Settled(e.calls[o], f.calls[o])
  {
    hide Settled;
    InParts(cap, timed, evs, more);
  }

  /** The race between a time limit and the other side has one winner: a waiter that timed out is
      never given or relieved of a value, and never woken, in any continuation. */
  lemma TimedOutIsNeverServed(cap: nat, timed: bool, evs: seq<Event>, more: seq<Event>, o: nat)
    requires Possible(cap, timed, evs + more) && o in After(cap, timed, evs).e.calls
    requires var w := Record(After(cap, timed, evs).e.calls[o]); w.Some? && w.value.status.TimedOut?
    ensures var f := After(cap, timed, evs + more).e;
      && o in f.calls && f.calls[o].at.None? && f.calls[o].wakes == 0 && f.calls[o].res == Some(false)
      && (forall x :: x in f.accepted || x in f.received ==> x.o != o)
  {
    InParts(cap, timed, evs, more);
    var f := After(cap, timed, evs + more).e;
    assert CallOk(f, o);
    NotLogged(f, o);
  }

  lemma NotLogged(e: Env, o: nat)
    requires Logs(e) && (o in e.calls ==> e.calls[o].at.None?)
    ensures forall x :: x in e.accepted || x in e.received ==> x.o != o
  {
    forall x | x in e.accepted ensures x.o != o {
      var i :| 0 <= i < |e.accepted| && e.accepted[i] == x;
      assert OwnEntry(e, x.o, false, i);
    }
    forall x | x in e.received ensures x.o != o {
      var i :| 0 <= i < |e.received| && e.received[i] == x;
      assert OwnEntry(e, x.o, true, i);
    }
  }

  // ----- what a closed channel still has to deliver

  /** Call `o` is a write that still waits to be accepted. */
  predicate Offering(e: Env, o: nat) {
    o in e.calls && !e.calls[o].reader && e.calls[o].rec.Some? && e.calls[o].rec.value.status.Waiting?
  }

  /** The values of the writers in `os` that still wait, in order, without those that time out in `evs`. */
  ghost function Offers(e: Env, os: seq<nat>, evs: seq<Event>): seq<Value>
    decreases |os|
  {
    if os == [] then []
    else (if Offering(e, os[0]) && Timeout(os[0]) !in evs then [e.calls[os[0]].input] else []) + Offers(e, os[1..], evs)
  }

  /** What is buffered, and then what is offered. */
  ghost function Backlog(c: Chan): seq<Value> {
    c.q + Offers(c.e, c.e.wq, [])
  }

  lemma {:induction false} OffersFrame(e: Env, evs: seq<Event>, f: Env, fvs: seq<Event>, os: seq<nat>)
    requires forall o :: o in os ==> (Offering(e, o) && Timeout(o) !in evs <==> Offering(f, o) && Timeout(o) !in fvs)
    requires forall o :: o in os && Offering(e, o) && Offering(f, o) ==> e.calls[o].input == f.calls[o].input
    ensures Offers(e, os, evs) == Offers(f, os, fvs)
    decreases |os|
  {
    hide Offering;
    if os != [] {
      TailOf(os);
      OffersFrame(e, evs, f, fvs, os[1..]);
    }
  }

  lemma {:induction false} NoOffers(e: Env, os: seq<nat>, evs: seq<Event>)
    requires forall o :: o in os ==> !Offering(e, o)
    ensures Offers(e, os, evs) == []
    decreases |os|
  {
    hide Offering;
    if os != [] {
      TailOf(os);
      NoOffers(e, os[1..], evs);
    }
  }

  /** Fewer writers offer their value when some of them time out; from none remain none. */
  lemma {:induction false} NoneRemain(e: Env, os: seq<nat>, evs: seq<Event>)
    requires Offers(e, os, []) == []
    ensures Offers(e, os, evs) == []
    decreases |os|
  {
    if os != [] {
      NoneRemain(e, os[1..], evs);
    }
  }

  lemma ReadersOfferNothing(c: Chan, evs: seq<Event>)
    requires Inv(c) && c.q == []
    ensures Offers(c.e, c.e.wq, evs) == []
  {
    assert AllReaders(c.e);
    NoOffers(c.e, c.e.wq, evs);
  }

  lemma {:induction false} DropKeepsOffers(e: Env, busy: set<nat>, evs: seq<Event>)
    requires EnvOk(e, busy) && AllWriters(e)
    ensures var f := DropLosers(e, true); Offers(f, f.wq, evs) == Offers(e, e.wq, evs)
    decreases |e.wq|
  {
    hide EnvOk, DropLoser, Settled, Wins;
    if e.wq != [] && !Wins(e, e.wq[0]) {
      var o, f := e.wq[0], DropLoser(PopFront(e), e.wq[0], true);
      DropLoserOk(e, busy, true);
      QueueHead(e, busy);
      TailOf(e.wq);
      OffersFrame(e, evs, f, evs, f.wq);
      DropKeepsOffers(f, busy, evs);
    }
  }

  /** A caller with a verdict cannot time out any more. */
  lemma {:induction false} VerdictIsFinal(c: Chan, evs: seq<Event>, o: nat)
    requires Inv(c) && Runs(c, evs) && o in c.e.calls
    requires Record(c.e.calls[o]).Some? && !Record(c.e.calls[o]).value.done.Pending?
    ensures Timeout(o) !in evs
    decreases |evs|
  {
    hide Inv, Step;
    if evs != [] {
      DecidedStaysIn(c, o);
      StepKeepsInv(c, evs[0]);
      assert Settled(c.e.calls[o], Step(c, evs[0]).e.calls[o]);
      VerdictIsFinal(Step(c, evs[0]), evs[1..], o);
    }
  }

  lemma DecidedStaysIn(c: Chan, o: nat)
    requires Inv(c) && o in c.e.calls
    requires Record(c.e.calls[o]).Some? && !Record(c.e.calls[o]).value.done.Pending?
    ensures !Enabled(c, Timeout(o))
  {
    assert CallOk(c.e, o);
  }

  // ----- the steps of a closed channel

  /** All there is to get from `c` on, if `evs` follow. */
  ghost function Remaining(c: Chan, evs: seq<Event>): seq<Value> {
    c.q + Offers(c.e, c.e.wq, evs)
  }

  /** What a step adds to the values received is taken from the front of what remained. */
  ghost predicate Delivers(c: Chan, d: Chan, now: seq<Event>, next: seq<Event>) {
    Vals(d.e.received) + Remaining(d, next) == Vals(c.e.received) + Remaining(c, now)
  }

  /** Steps that leave the queue, the buffer and the log of received values alone. */
  lemma QuietStep(c: Chan, d: Chan, ev: Event, next: seq<Event>)
    requires d.q == c.q && d.e.received == c.e.received && d.e.wq == c.e.wq
    requires forall o :: o in c.e.wq && o in c.e.calls ==> o in d.e.calls && d.e.calls[o].input == c.e.calls[o].input
    requires forall o :: o in c.e.wq ==> (Offering(c.e, o) && Timeout(o) != ev <==> Offering(d.e, o))
    ensures Delivers(c, d, [ev] + next, next)
  {
    forall o ensures Timeout(o) in [ev] + next <==> Timeout(o) == ev || Timeout(o) in next {}
    OffersFrame(c.e, [ev] + next, d.e, next, c.e.wq);
  }

  /** The only new call is the read `o`, which has returned at once. */
  ghost predicate OneMore(c: Chan, d: Chan, o: nat) {
    && d.e.calls.Keys == c.e.calls.Keys + {o}
    && d.e.calls[o].reader && d.e.calls[o].res.Some? && Record(d.e.calls[o]).None?
  }

  lemma ClosedReadFails(c: Chan, o: nat, co: bool, onStack: bool, init: Value, next: seq<Event>)
    requires Inv(c) && c.closed != 0 && o !in c.e.calls && c.q == []
    ensures var d, ev := ReadStep(c, o, co, onStack, init), Read(o, co, onStack, init);
      && Delivers(c, d, [ev] + next, next) && Backlog(c) == [] && Remaining(c, [ev] + next) == []
      && OneMore(c, d, o) && d.e.calls[o].res == Some(false) && d.e.received == c.e.received
  {
    var d, ev := ReadStep(c, o, co, onStack, init), Read(o, co, onStack, init);
    ReadersOfferNothing(c, []);
    ReadersOfferNothing(c, [ev] + next);
    QuietStep(c, d, ev, next);
  }

  lemma ClosedReadTakes(c: Chan, o: nat, co: bool, onStack: bool, init: Value, next: seq<Event>)
    requires Inv(c) && o !in c.e.calls && c.q != []
    requires Runs(ReadStep(c, o, co, onStack, init), next)
    ensures var d, ev := ReadStep(c, o, co, onStack, init), Read(o, co, onStack, init);
      && Delivers(c, d, [ev] + next, next)
      && OneMore(c, d, o) && d.e.calls[o].res == Some(true) && d.e.received == c.e.received + [Entry(o, c.q[0])]
  {
    hide Inv, Receive, Done, DropLosers, AcceptHead, HeadValue, Offers, Runs, EnvOk, AllWriters, ReturnedOk;
    var ev, x := Read(o, co, onStack, init), c.q[0];
    var e1 := Receive(Set(c.e, o, Started(true, init)), o, x);
    ClosedReadBegins(c, o, co, onStack, init, next);
    ValsMore(c.e.received, Entry(o, x));
    ReadBuffered(c, o, co, onStack, init);
    assert Remaining(c, [ev] + next) == [x] + (c.q[1..] + Offers(e1, e1.wq, next));
    if !c.Full() {
      ReturnOk(e1, o, true);
      OffersFrame(e1, next, Done(e1, o, true), next, e1.wq);
    } else {
      ClosedReadRefills(c, e1, o, next);
    }
  }

  /** The read takes the first value of the buffer; the writers are not looked at yet. */
  lemma ClosedReadBegins(c: Chan, o: nat, co: bool, onStack: bool, init: Value, next: seq<Event>)
    requires Inv(c) && o !in c.e.calls && c.q != []
    ensures var e1 := Receive(Set(c.e, o, Started(true, init)), o, c.q[0]);
      && EnvOk(e1, {o}) && AllWriters(e1) && e1.wq == c.e.wq && o !in e1.wq
      && e1.calls.Keys == c.e.calls.Keys + {o} && e1.calls[o].reader && Record(e1.calls[o]).None?
      && ReturnedOk(e1, e1.calls[o].(res := Some(true)))
      && e1.received == c.e.received + [Entry(o, c.q[0])]
      && Offers(e1, e1.wq, next) == Offers(c.e, c.e.wq, [Read(o, co, onStack, init)] + next)
  {
    hide Receive, Offers, EnvOk;
    var e, x := Set(c.e, o, Started(true, init)), c.q[0];
    var e1 := Receive(e, o, x);
    StartOk(c.e, o, true, init);
    ReceiveOk(e, o, x);
    QueueOfWriters(c);
    OffersFrame(c.e, [Read(o, co, onStack, init)] + next, e1, next, c.e.wq);
  }

  lemma QueueOfWriters(c: Chan)
    requires Inv(c) && c.q != []
    ensures AllWriters(c.e)
  {
  }

  lemma ClosedReadRefills(c: Chan, e1: Env, o: nat, next: seq<Event>)
    requires c.q != [] && EnvOk(e1, {o}) && AllWriters(e1)
    requires o in e1.calls && ReturnedOk(e1, e1.calls[o].(res := Some(true)))
    requires var e2 := DropLosers(e1, true);
      var d := if e2.wq == [] then c.(q := c.q[1..], e := Done(e2, o, true))
               else c.(q := c.q[1..] + [HeadValue(e2)], e := Done(AcceptHead(e2), o, true));
      Inv(d) && Runs(d, next)
    ensures var e2 := DropLosers(e1, true);
      var d := if e2.wq == [] then c.(q := c.q[1..], e := Done(e2, o, true))
               else c.(q := c.q[1..] + [HeadValue(e2)], e := Done(AcceptHead(e2), o, true));
      && Remaining(d, next) == c.q[1..] + Offers(e1, e1.wq, next)
      && d.e.received == e1.received && d.e.calls.Keys == e1.calls.Keys
        && d.e.calls[o] == e1.calls[o].(res := Some(true))
  {
    hide EnvOk, Done, DropLosers, AcceptHead, HeadValue, Settled, Shape, Offers, Runs, Wins, Inv;
    DropLosersOk(e1, {o}, true);
    DropKeepsOffers(e1, {o}, next);
    var e2 := DropLosers(e1, true);
    if e2.wq == [] {
      ReturnOk(e2, o, true);
      var f := Done(e2, o, true);
      NoOffers(e2, [], next);
      NoOffers(f, [], next);
    } else {
      ClosedReadAccepts(c, e2, o, next);
    }
  }

  lemma ClosedReadAccepts(c: Chan, e2: Env, o: nat, next: seq<Event>)
    requires c.q != [] && EnvOk(e2, {o}) && AllWriters(e2) && e2.wq != [] && Wins(e2, e2.wq[0])
    requires o in e2.calls && ReturnedOk(e2, e2.calls[o].(res := Some(true)))
    requires var d := c.(q := c.q[1..] + [HeadValue(e2)], e := Done(AcceptHead(e2), o, true)); Inv(d) && Runs(d, next)
    ensures var d := c.(q := c.q[1..] + [HeadValue(e2)], e := Done(AcceptHead(e2), o, true));
      && Remaining(d, next) == c.q[1..] + Offers(e2, e2.wq, next)
      && d.e.received == e2.received && d.e.calls.Keys == e2.calls.Keys
        && d.e.calls[o] == e2.calls[o].(res := Some(true))
  {
    hide EnvOk, Done, AcceptHead, HeadValue, Settled, Shape, Offers, Runs, Wins, Inv;
    AcceptHeadOk(e2, {o});
    QueueHead(e2, {o});
    BusyFacts(e2, o);
    var e3, h := AcceptHead(e2), e2.wq[0];
    ReturnOk(e3, o, true);
    var d := c.(q := c.q[1..] + [HeadValue(e2)], e := Done(e3, o, true));
    VerdictIsFinal(d, next, h);
    WinnerOffers(e2, {o});
    OffersHead(e2, e2.wq, next);
    OffersFrame(e2, next, d.e, next, e2.wq[1..]);
  }

  lemma WinnerOffers(e: Env, busy: set<nat>)
    requires EnvOk(e, busy) && e.wq != [] && Wins(e, e.wq[0]) && AllWriters(e)
    ensures Offering(e, e.wq[0])
  {
    QueueHead(e, busy);
  }

  lemma OffersHead(e: Env, os: seq<nat>, evs: seq<Event>)
    requires os != [] && Offering(e, os[0]) && Timeout(os[0]) !in evs
    ensures Offers(e, os, evs) == [e.calls[os[0]].input] + Offers(e, os[1..], evs)
  {
  }

  lemma SamePrefix(a: seq<Value>, b: seq<Value>, c: seq<Value>)
    requires a + b == a + c
    ensures b == c
  {
    assert b == (a + b)[|a|..] && c == (a + c)[|a|..];
  }

  /** Reading from a closed channel delivers the head of the backlog, and fails exactly when there is
      none. */
  lemma ClosedReadDelivers(c: Chan, o: nat, co: bool, onStack: bool, init: Value)
    requires Inv(c) && c.closed != 0 && o !in c.e.calls
    ensures var d := ReadStep(c, o, co, onStack, init);
      && o in d.e.calls && d.e.calls[o].res == Some(Backlog(c) != [])
      && (Backlog(c) == [] ==> d.e.received == c.e.received && Backlog(d) == [])
      && (Backlog(c) != [] ==>
            d.e.received == c.e.received + [Entry(o, Backlog(c)[0])] && Backlog(d) == Backlog(c)[1..])
  {
    hide Inv, ReadStep, Offers;
    var ev, d := Read(o, co, onStack, init), ReadStep(c, o, co, onStack, init);
    OffersFrame(c.e, [], c.e, [ev], c.e.wq);
    assert [ev] + [] == [ev];
    if c.q == [] {
      ClosedReadFails(c, o, co, onStack, init, []);
    } else {
      ClosedReadTakes(c, o, co, onStack, init, []);
      ValsMore(c.e.received, Entry(o, c.q[0]));
      assert (Vals(c.e.received) + [c.q[0]]) + Backlog(d) == Vals(c.e.received) + ([c.q[0]] + Backlog(d));
      SamePrefix(Vals(c.e.received), [c.q[0]] + Backlog(d), Backlog(c));
    }
  }

  lemma ClosedWriteFails(c: Chan, o: nat, co: bool, onStack: bool, val: Value, mv: bool, next: seq<Event>)
    requires Inv(c) && c.closed != 0 && o !in c.e.calls
    ensures var d, ev := WriteStep(c, o, co, onStack, val, mv), Write(o, co, onStack, val, mv);
      && Delivers(c, d, [ev] + next, next)
      && o in d.e.calls && d.e.calls[o] == Started(false, val).(res := Some(false)) && d.e.accepted == c.e.accepted
  {
    var d, ev := WriteStep(c, o, co, onStack, val, mv), Write(o, co, onStack, val, mv);
    QuietStep(c, d, ev, next);
  }

  lemma TimeoutDelivers(c: Chan, o: nat, next: seq<Event>)
    requires Inv(c) && Enabled(c, Timeout(o))
    ensures Delivers(c, TimeoutStep(c, o), [Timeout(o)] + next, next)
  {
    QuietStep(c, TimeoutStep(c, o), Timeout(o), next);
  }

  lemma ResumeDelivers(c: Chan, o: nat, ev: Event, next: seq<Event>)
    requires Inv(c) && o in c.e.calls && c.e.calls[o].rec.Some? && !c.e.calls[o].rec.value.done.Pending? && !ev.Timeout?
    ensures Delivers(c, ResumeStep(c, o), [ev] + next, next)
  {
    hide Continued;
    assert CallOk(c.e, o);
    QuietStep(c, ResumeStep(c, o), ev, next);
  }

  lemma AwakeDelivers(c: Chan, o: nat, next: seq<Event>)
    requires Inv(c) && Enabled(c, Awake(o))
    ensures Delivers(c, AwakeStep(c, o), [Awake(o)] + next, next)
  {
    hide ResumeStep;
    assert CallOk(c.e, o);
    if c.e.calls[o].rec.value.done.Pending? {
      QuietStep(c, AwakeStep(c, o), Awake(o), next);
    } else {
      assert c.e.asleep - {o} == c.e.asleep;
      ResumeDelivers(c, o, Awake(o), next);
    }
  }

  lemma CloseEndDelivers(c: Chan, next: seq<Event>)
    requires Inv(c)
    ensures Delivers(c, Step(c, CloseEnd), [CloseEnd] + next, next)
  {
    hide EnvOk, CloseEach, Settled;
    var d := Step(c, CloseEnd);
    if c.q == [] {
      assert c.e.(wq := []).(wq := c.e.wq) == c.e;
      CloseEachOk(c.e.(wq := []), c.e.wq);
      ReadersOfferNothing(c, [CloseEnd] + next);
      NoOffers(d.e, [], next);
    } else {
      QuietStep(c, d, CloseEnd, next);
    }
  }

  lemma InvEnv(c: Chan)
    requires Inv(c)
    ensures EnvOk(c.e, {})
  {
  }

  lemma ClosedStepDelivers(c: Chan, ev: Event, next: seq<Event>)
    requires Inv(c) && c.closed != 0 && Enabled(c, ev) && Runs(Step(c, ev), next)
    ensures Delivers(c, Step(c, ev), [ev] + next, next)
  {
    hide Inv, ReadStep, WriteStep, TimeoutStep, ResumeStep, AwakeStep, CloseEach, Settled, Delivers, Runs;
    match ev
    case Read(o, co, onStack, init) =>
      if c.q == [] {
        ClosedReadFails(c, o, co, onStack, init, next);
      } else {
        ClosedReadTakes(c, o, co, onStack, init, next);
      }
    case Write(o, co, onStack, val, mv) => ClosedWriteFails(c, o, co, onStack, val, mv, next);
    case Timeout(o) => TimeoutDelivers(c, o, next);
    case Resume(o) =>
      InvEnv(c);
      WokenHasVerdict(c, o);
      ResumeDelivers(c, o, ev, next);
    case Awake(o) => AwakeDelivers(c, o, next);
    case CloseBegin =>
    case CloseEnd => CloseEndDelivers(c, next);
  }

  lemma {:induction false} ClosedRunDelivers(c: Chan, evs: seq<Event>)
    requires Inv(c) && c.closed != 0 && Runs(c, evs)
    ensures Vals(Run(c, evs).e.received) + Backlog(Run(c, evs)) == Vals(c.e.received) + Remaining(c, evs)
    ensures Run(c, evs).closed != 0
    decreases |evs|
  {
    hide Inv, Step, Settled, Enabled, Offers;
    if evs != [] {
      assert evs == [evs[0]] + evs[1..];
      ClosedStepDelivers(c, evs[0], evs[1..]);
      StepKeepsInv(c, evs[0]);
      StepFrame(c, evs[0]);
      ClosedRunDelivers(Step(c, evs[0]), evs[1..]);
    } else {
      assert Backlog(c) == Remaining(c, evs);
    }
  }

  // ----- closing

  /** From the moment `close` begins, whatever else happens: the values received since, followed by what
      can still be received, are the values buffered at that moment and then those of the writers waiting at
      that moment which did not time out, in order. */
  lemma ClosedChannelDelivers(cap: nat, timed: bool, before: seq<Event>, after: seq<Event>)
    requires Possible(cap, timed, before + [CloseBegin] + after)
    ensures var c, d := After(cap, timed, before + [CloseBegin]), After(cap, timed, before + [CloseBegin] + after);
      && c.e.received <= d.e.received
      && Vals(d.e.received[|c.e.received|..]) + Backlog(d) == c.q + Offers(c.e, c.e.wq, after)
  {
    hide Inv, Runs, Run, Settled, Offers;
    ClosedFrom(cap, timed, before, after);
    var c, d := After(cap, timed, before + [CloseBegin]), After(cap, timed, before + [CloseBegin] + after);
    ClosedRunDelivers(c, after);
    var n := |c.e.received|;
    assert c.e.received == d.e.received[..n];
    ValsSplit(d.e.received, n);
    assert (Vals(c.e.received) + Vals(d.e.received[n..])) + Backlog(d)
        == Vals(c.e.received) + (Vals(d.e.received[n..]) + Backlog(d));
    SamePrefix(Vals(c.e.received), Vals(d.e.received[n..]) + Backlog(d), Remaining(c, after));
  }

  lemma ValsSplit(log: seq<Entry>, n: nat)
    requires n <= |log|
    ensures Vals(log) == Vals(log[..n]) + Vals(log[n..])
  {
  }

  /** The state in which `close` has begun. */
  lemma ClosedFrom(cap: nat, timed: bool, before: seq<Event>, after: seq<Event>)
    requires Possible(cap, timed, before + [CloseBegin] + after)
    ensures var c, d := After(cap, timed, before + [CloseBegin]), After(cap, timed, before + [CloseBegin] + after);
      && Inv(c) && c.closed == 1 && Runs(c, after) && d == Run(c, after) && Inv(d) && Progress(c.e, d.e)
  {
    hide Inv, Settled, Enabled;
    InParts(cap, timed, before + [CloseBegin], after);
    InParts(cap, timed, before, [CloseBegin]);
  }

  /** A read begun after `close` returns at once. It succeeds, with the first value of the backlog, exactly
      if there is one; if not, nothing is ever received again. */
  lemma ClosedReadFailsLast(cap: nat, timed: bool, before: seq<Event>, mid: seq<Event>, ev: Event, more: seq<Event>)
    requires ev.Read? && Possible(cap, timed, before + [CloseBegin] + mid + [ev] + more)
    ensures var c := After(cap, timed, before + [CloseBegin] + mid);
      var d := After(cap, timed, before + [CloseBegin] + mid + [ev]);
      var f := After(cap, timed, before + [CloseBegin] + mid + [ev] + more);
      && ev.o in d.e.calls && d.e.calls[ev.o].res == Some(Backlog(c) != [])
      && (Backlog(c) != [] ==> d.e.received == c.e.received + [Entry(ev.o, Backlog(c)[0])])
      && (Backlog(c) == [] ==> f.e.received == c.e.received && Backlog(f) == [])
  {
    hide Inv, Settled, Offers, ReadStep;
    var begun := before + [CloseBegin];
    InParts(cap, timed, begun + mid + [ev], more);
    InParts(cap, timed, begun + mid, [ev]);
    ClosedFrom(cap, timed, before, mid);
    ClosedRunDelivers(After(cap, timed, begun), mid);
    var c, d := After(cap, timed, begun + mid), After(cap, timed, begun + mid + [ev]);
    ClosedReadDelivers(c, ev.o, ev.co, ev.onStack, ev.init);
    assert d == ReadStep(c, ev.o, ev.co, ev.onStack, ev.init);
    StepFrame(c, ev);
    if Backlog(c) == [] {
      ClosedRunDelivers(d, more);
      NoneRemain(d.e, d.e.wq, more);
      assert |Vals(Run(d, more).e.received)| <= |Vals(d.e.received)|;
    }
  }

  /** No call begun after `close` ever waits, and a write begun after it fails: it leaves its object alone,
      and neither log ever names it as a writer. */
  lemma ClosedRefusesWrites(cap: nat, timed: bool, before: seq<Event>, after: seq<Event>, o: nat)
    requires Possible(cap, timed, before + [CloseBegin] + after)
    ensures var c, d := After(cap, timed, before + [CloseBegin]), After(cap, timed, before + [CloseBegin] + after);
      o in d.e.calls && o !in c.e.calls ==>
        var k := d.e.calls[o];
        && k.res.Some? && Record(k).None?
        && (!k.reader ==>
              k == Started(false, k.input).(res := Some(false)) && forall x :: x in d.e.accepted ==> x.o != o)
  {
    hide Inv, Run, Runs, Settled;
    ClosedFrom(cap, timed, before, after);
    var c, d := After(cap, timed, before + [CloseBegin]), After(cap, timed, before + [CloseBegin] + after);
    if o in d.e.calls && o !in c.e.calls {
      LateCall(c, after, o);
      if !d.e.calls[o].reader { LogsOf(d); NotLogged(d.e, o); }
    }
  }

  lemma LogsOf(c: Chan)
    requires Inv(c)
    ensures Logs(c.e)
  {
  }

  ghost predicate Refused(k: Call) {
    && k.res.Some? && Record(k).None?
    && (!k.reader ==> k == Started(false, k.input).(res := Some(false)))
  }

  lemma {:induction false} LateCall(c: Chan, evs: seq<Event>, o: nat)
    requires Inv(c) && c.closed != 0 && Runs(c, evs) && o !in c.e.calls && o in Run(c, evs).e.calls
    ensures Refused(Run(c, evs).e.calls[o])
    decreases |evs|
  {
    hide Inv, Step;
    if evs != [] {
      var b := Step(c, evs[0]);
      StepKeepsInv(c, evs[0]);
      StepFrame(c, evs[0]);
      if o in b.e.calls {
        LateStep(c, evs[0], o);
        RunKeepsInv(b, evs[1..]);
        assert Settled(b.e.calls[o], Run(b, evs[1..]).e.calls[o]);
      } else {
        LateCall(b, evs[1..], o);
      }
    }
  }

  lemma LateStep(c: Chan, ev: Event, o: nat)
    requires Inv(c) && c.closed != 0 && Enabled(c, ev) && o !in c.e.calls && o in Step(c, ev).e.calls
    ensures Refused(Step(c, ev).e.calls[o])
  {
    hide Inv, ReadStep, WriteStep, CloseEach, Continued;
    match ev
    case Read(u, co, onStack, init) => ClosedReadCalls(c, u, co, onStack, init);
    case Write(u, co, onStack, val, mv) =>
      ClosedWriteFails(c, u, co, onStack, val, mv, []);
      ClosedWriteCalls(c, u, co, onStack, val, mv);
    case Timeout(u) =>
    case Resume(u) =>
    case Awake(u) =>
    case CloseBegin =>
    case CloseEnd => CloseCalls(c);
  }

  lemma ClosedWriteCalls(c: Chan, u: nat, co: bool, onStack: bool, val: Value, mv: bool)
    requires Inv(c) && c.closed != 0 && u !in c.e.calls
    ensures WriteStep(c, u, co, onStack, val, mv).e.calls.Keys == c.e.calls.Keys + {u}
  {
  }

  lemma CloseCalls(c: Chan)
    requires Inv(c)
    ensures Step(c, CloseEnd).e.calls.Keys == c.e.calls.Keys
  {
    hide EnvOk, CloseEach, Settled;
    if c.q == [] {
      assert c.e.(wq := []).(wq := c.e.wq) == c.e;
      CloseEachOk(c.e.(wq := []), c.e.wq);
    }
  }

  lemma ClosedReadCalls(c: Chan, u: nat, co: bool, onStack: bool, init: Value)
    requires Inv(c) && c.closed != 0 && u !in c.e.calls
    ensures OneMore(c, ReadStep(c, u, co, onStack, init), u)
  {
    hide Inv, ReadStep;
    if c.q == [] {
      ClosedReadFails(c, u, co, onStack, init, []);
    } else {
      ClosedReadTakes(c, u, co, onStack, init, []);
    }
  }

  /** Once `close` has completed no reader waits: every read has returned, or it has a verdict and was
      woken to take it. */
  lemma ClosedHasNoWaitingReader(cap: nat, timed: bool, evs: seq<Event>, o: nat)
    requires Possible(cap, timed, evs) && After(cap, timed, evs).closed == 2
    requires o in After(cap, timed, evs).e.calls
    ensures var e := After(cap, timed, evs).e; var k := e.calls[o];
      k.reader ==>
        && o !in e.wq
        && (k.res.Some? ||
              (k.rec.Some? && !k.rec.value.done.Pending? && if k.rec.value.co then k.wakes == 1 else o !in e.asleep))
  {
    AfterInv(cap, timed, evs);
    var e := After(cap, timed, evs).e;
    assert CallOk(e, o);
  }

  /** `os` as a series of reads. */
  function Reads(os: seq<nat>): seq<Event> {
    seq(|os|, i requires 0 <= i < |os| => Read(os[i], false, false, 0))
  }

  /** And reads that follow each other get it all: the first ones succeed, one per value of the backlog,
      and all later ones fail. */
  lemma ClosedChannelDrains(cap: nat, timed: bool, evs: seq<Event>, os: seq<nat>)
    requires Possible(cap, timed, evs) && After(cap, timed, evs).closed != 0
    requires forall i, j :: 0 <= i < j < |os| ==> os[i] != os[j]
    requires forall i :: 0 <= i < |os| ==> os[i] !in After(cap, timed, evs).e.calls
    ensures Possible(cap, timed, evs + Reads(os))
    ensures var c, d := After(cap, timed, evs), After(cap, timed, evs + Reads(os));
      var n := if |os| <= |Backlog(c)| then |os| else |Backlog(c)|;
      && Vals(d.e.received) == Vals(c.e.received) + Backlog(c)[..n]
      && (forall i :: 0 <= i < |os| ==> os[i] in d.e.calls && d.e.calls[os[i]].res == Some(i < n))
  {
    hide Inv, Run, Runs, Backlog;
    AfterInv(cap, timed, evs);
    ReadsDrain(After(cap, timed, evs), os);
    RunJoins(Init(cap, timed), evs, Reads(os));
    InParts(cap, timed, evs, Reads(os));
  }

  lemma {:induction false} RunJoins(c: Chan, xs: seq<Event>, ys: seq<Event>)
    requires Runs(c, xs) && Runs(Run(c, xs), ys)
    ensures Runs(c, xs + ys)
    decreases |xs|
  {
    hide Enabled, Step;
    if xs == [] {
      assert xs + ys == ys;
    } else {
      assert (xs + ys)[1..] == xs[1..] + ys;
      RunJoins(Step(c, xs[0]), xs[1..], ys);
    }
  }

  lemma {:induction false} ReadsDrain(c: Chan, os: seq<nat>)
    requires Inv(c) && c.closed != 0
    requires forall i, j :: 0 <= i < j < |os| ==> os[i] != os[j]
    requires forall i :: 0 <= i < |os| ==> os[i] !in c.e.calls
    ensures Runs(c, Reads(os))
    ensures var n := if |os| <= |Backlog(c)| then |os| else |Backlog(c)|;
      var d := Run(c, Reads(os));
      && Vals(d.e.received) == Vals(c.e.received) + Backlog(c)[..n]
      && (forall i :: 0 <= i < |os| ==> os[i] in d.e.calls && d.e.calls[os[i]].res == Some(i < n))
    decreases |os|
  {
    hide Inv, ReadStep, Backlog;
    if os != [] {
      var o, ev := os[0], Read(os[0], false, false, 0);
      assert Reads(os)[0] == ev && Reads(os)[1..] == Reads(os[1..]);
      var b := Step(c, ev);
      ClosedReadDelivers(c, o, false, false, 0);
      StepKeepsInv(c, ev);
      StepFrame(c, ev);
      ClosedReadCalls(c, o, false, false, 0);
      ReadsDrain(b, os[1..]);
      RunKeepsInv(b, Reads(os[1..]));
      assert Settled(b.e.calls[o], Run(b, Reads(os[1..])).e.calls[o]);
      if Backlog(c) != [] { ValsMore(c.e.received, Entry(o, Backlog(c)[0])); }
    }
  }
}
