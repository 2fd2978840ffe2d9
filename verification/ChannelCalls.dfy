/** What the callers of a channel see, for every run from a fresh one: who has to wait and how long, who is
    served first, and what becomes of the object of a writer. */
module ChannelCalls {
  import opened Options
  import opened Channel
  import opened ChannelSafety
  import opened ChannelTheorems

  // ----- one call

  /** While the channel is open, only a time limit makes a call fail, and nobody is told that it was closed. */
  ghost predicate Open(k: Call) {
    && (k.res == Some(false) ==> Record(k).Some? && Record(k).value.status.TimedOut?)
    && (Record(k).Some? ==> !Record(k).value.done.ChannelClosed?)
  }

  /** The object of a writer is as it was if it is to be copied. If it is to be moved, it was moved out when
      the value was accepted, or when it was put into the record's own buffer. */
  ghost predicate ObjectOk(k: Call, mv: bool) {
    && !k.reader && (Record(k).Some? && !Record(k).value.own ==> Record(k).value.mv == mv)
    && k.arg == (if mv && (k.at.Some? || (Record(k).Some? && Record(k).value.own)) then Moved else Live(k.input))
  }

  ghost predicate Fine(k: Call, u: nat, open: bool, o: nat, mv: bool) {
    (open ==> Open(k)) && (u == o ==> ObjectOk(k, mv))
  }

  /** All calls but those in `busy`. */
  ghost predicate AllFine(e: Env, busy: set<nat>, open: bool, o: nat, mv: bool) {
    forall u :: u in e.calls && u !in busy ==> Fine(e.calls[u], u, open, o, mv)
  }

  // ----- the wait queue

  /** The queue lost some of its first callers and nobody else. */
  ghost predicate Cut(s: seq<nat>, t: seq<nat>) {
    |t| <= |s| && t == s[|s| - |t|..]
  }

  lemma CutTrans(s: seq<nat>, t: seq<nat>, u: seq<nat>)
    requires Cut(s, t) && Cut(t, u)
    ensures Cut(s, u)
  {
  }

  lemma {:induction false} DropsFine(e: Env, busy: set<nat>, destroy: bool, open: bool, o: nat, mv: bool)
    requires EnvOk(e, busy) && AllFine(e, busy, open, o, mv)
    requires if destroy then AllWriters(e) else AllReaders(e)
    ensures AllFine(DropLosers(e, destroy), busy, open, o, mv) && Cut(e.wq, DropLosers(e, destroy).wq)
    decreases |e.wq|
  {
    if e.wq != [] && !Wins(e, e.wq[0]) {
      var h, f := e.wq[0], DropLoser(PopFront(e), e.wq[0], destroy);
      QueueHead(e, busy);
      DroppedIs(e.calls[h], destroy);
      assert Fine(f.calls[h], h, open, o, mv);
      DropLoserOk(e, busy, destroy);
      hide EnvOk, DropLoser, Fine, Settled;
      assert AllFine(f, busy, open, o, mv);
      DropsFine(f, busy, destroy, open, o, mv);
      CutTrans(e.wq, f.wq, DropLosers(f, destroy).wq);
    }
  }

  lemma AcceptFine(e: Env, busy: set<nat>, open: bool, o: nat, mv: bool)
    requires EnvOk(e, busy) && AllFine(e, busy, open, o, mv) && e.wq != [] && Wins(e, e.wq[0]) && AllWriters(e)
    ensures AllFine(AcceptHead(e), busy, open, o, mv)
  {
    var h, g, f := e.wq[0], TakeHead(e), AcceptHead(e);
    QueueHead(e, busy);
    AcceptHeadOk(e, busy);
    WakeUpIs(g, h);
    assert Fine(e.calls[h], h, open, o, mv);
    hide EnvOk, Fine;
    AcceptedFine(e.calls[h], f.calls[h], e.timed, |e.accepted|, h, open, o, mv);
    hide AcceptHead;
  }

  lemma AcceptedFine(k: Call, m: Call, timed: bool, n: nat, u: nat, open: bool, o: nat, mv: bool)
    requires k.ok && k.rec.Some? && WaitingOk(k) && !k.reader && Fine(k, u, open, o, mv)
    requires m.(wakes := 0) == Accepted(k, timed, n).(wakes := 0)
    ensures Fine(m, u, open, o, mv)
  {
    AcceptedIs(k, timed, n);
    hide Accepted;
  }

  lemma ServeFine(e: Env, busy: set<nat>, x: Value, open: bool, o: nat, mv: bool)
    requires EnvOk(e, busy) && AllFine(e, busy, open, o, mv) && e.wq != [] && Wins(e, e.wq[0])
    requires e.wq[0] in e.calls ==> e.calls[e.wq[0]].reader
    ensures AllFine(ServeHead(e, x), busy, open, o, mv)
  {
    var h, g, f := e.wq[0], GiveHead(e, x), ServeHead(e, x);
    QueueHead(e, busy);
    ServedIs(e.calls[h], e.timed, x, |e.received|);
    WakeUpIs(g, h);
    ServeHeadOk(e, busy, x);
    assert Fine(e.calls[h], h, open, o, mv);
    hide EnvOk, Settled, ServeHead, Served, WakeUp;
    assert Fine(f.calls[h], h, open, o, mv);
  }

  // ----- the steps

  /** A change to the call in its critical section, or to logs, matters to no other. */
  lemma OnlyBusy(e: Env, f: Env, u: nat, open: bool, o: nat, mv: bool)
    requires AllFine(e, {u}, open, o, mv) && f.calls.Keys == e.calls.Keys + {u}
    requires forall x :: x in e.calls && x != u ==> f.calls[x] == e.calls[x]
    ensures AllFine(f, {u}, open, o, mv)
  {
    hide Fine;
  }

  lemma Settles(e: Env, u: nat, open: bool, o: nat, mv: bool)
    requires AllFine(e, {u}, open, o, mv) && (u in e.calls ==> Fine(e.calls[u], u, open, o, mv))
    ensures AllFine(e, {}, open, o, mv)
  {
    hide Fine;
  }

  lemma ReadFine(c: Chan, u: nat, co: bool, onStack: bool, init: Value, open: bool, o: nat, mv: bool)
    requires Inv(c) && u !in c.e.calls && AllFine(c.e, {}, open, o, mv) && (open ==> c.closed == 0) && u != o
    ensures AllFine(ReadStep(c, u, co, onStack, init).e, {}, open, o, mv)
    ensures var s, t := c.e.wq, ReadStep(c, u, co, onStack, init).e.wq; Cut(s, t) || t == s + [u]
  {
    hide EnvOk, Receive, Done, DropLosers, AcceptHead, HeadValue, Settled, Wins, Fine;
    var e := Set(c.e, u, Started(true, init));
    StartOk(c.e, u, true, init);
    OnlyBusy(c.e, e, u, open, o, mv);
    if c.q != [] {
      ReceiveOk(e, u, c.q[0]);
      var e1 := Receive(e, u, c.q[0]);
      OnlyBusy(e, e1, u, open, o, mv);
      if !c.Full() {
        EndFine(e1, u, true, open, o, mv);
      } else {
        QueueOfWriters(c);
        RefillFine(e1, u, open, o, mv);
      }
    } else if c.closed != 0 {
      EndFine(e, u, false, open, o, mv);
    } else {
      assert AllFine(Enqueue(e, u, ReaderRecord(co, onStack)), {u}, open, o, mv);
      WaitingReaderFine(Enqueue(e, u, ReaderRecord(co, onStack)).calls[u], u, open, o, mv);
      Settles(Enqueue(e, u, ReaderRecord(co, onStack)), u, open, o, mv);
    }
  }

  lemma WaitingReaderFine(k: Call, u: nat, open: bool, o: nat, mv: bool)
    requires k.res.None? && Record(k).Some? && Record(k).value.done.Pending? && u != o
    ensures Fine(k, u, open, o, mv)
  {
  }

  /** A call that returns at once: it may fail only when the channel is not open. */
  lemma EndFine(e: Env, u: nat, done: bool, open: bool, o: nat, mv: bool)
    requires EnvOk(e, {u}) && u in e.calls && AllFine(e, {u}, open, o, mv) && (open ==> done)
    requires ReturnedOk(e, e.calls[u].(res := Some(done))) && (u == o ==> ObjectOk(e.calls[u], mv))
    ensures AllFine(Done(e, u, done), {}, open, o, mv) && Done(e, u, done).wq == e.wq
  {
    BusyFacts(e, u);
    ReturnOk(e, u, done);
    var f := Done(e, u, done);
    assert Fine(f.calls[u], u, open, o, mv);
    hide EnvOk, Done, Fine, Settled;
    OnlyBusy(e, f, u, open, o, mv);
    Settles(f, u, open, o, mv);
  }

  lemma RefillFine(e1: Env, u: nat, open: bool, o: nat, mv: bool)
    requires EnvOk(e1, {u}) && AllWriters(e1) && u in e1.calls && AllFine(e1, {u}, open, o, mv) && u != o
    requires ReturnedOk(e1, e1.calls[u].(res := Some(true)))
    ensures var e2 := DropLosers(e1, true);
      var f := if e2.wq == [] then Done(e2, u, true) else Done(AcceptHead(e2), u, true);
      AllFine(f, {}, open, o, mv) && Cut(e1.wq, f.wq)
  {
    hide EnvOk, Done, DropLosers, AcceptHead, Settled, Wins, Fine;
    DropLosersOk(e1, {u}, true);
    DropsFine(e1, {u}, true, open, o, mv);
    var e2 := DropLosers(e1, true);
    if e2.wq == [] {
      EndFine(e2, u, true, open, o, mv);
    } else {
      AcceptHeadOk(e2, {u});
      AcceptFine(e2, {u}, open, o, mv);
      EndFine(AcceptHead(e2), u, true, open, o, mv);
      CutTrans(e1.wq, e2.wq, e2.wq[1..]);
    }
  }

  lemma WriteFine(c: Chan, u: nat, co: bool, onStack: bool, val: Value, wants: bool, open: bool, o: nat, mv: bool)
    requires Inv(c) && u !in c.e.calls && AllFine(c.e, {}, open, o, mv)
    requires (open ==> c.closed == 0) && (u == o ==> wants == mv)
    ensures AllFine(WriteStep(c, u, co, onStack, val, wants).e, {}, open, o, mv)
    ensures var s, t := c.e.wq, WriteStep(c, u, co, onStack, val, wants).e.wq; Cut(s, t) || t == s + [u]
  {
    hide EnvOk, Give, Done, DropLosers, ServeHead, Settled, Wins, Fine;
    var e := Set(c.e, u, Started(false, val));
    StartOk(c.e, u, false, val);
    OnlyBusy(c.e, e, u, open, o, mv);
    if c.closed != 0 {
      EndFine(e, u, false, open, o, mv);
    } else if c.q == [] {
      WriteEmptyFine(e, u, val, wants, open, o, mv);
    } else if !c.Full() {
      GiveFine(e, u, wants, open, o, mv);
    } else {
      WriteWaitsFine(e, u, co, onStack, val, wants, open, o, mv);
    }
  }

  lemma WriteEmptyFine(e: Env, u: nat, val: Value, wants: bool, open: bool, o: nat, mv: bool)
    requires EnvOk(e, {u}) && AllReaders(e) && u in e.calls && e.calls[u] == Started(false, val)
    requires AllFine(e, {u}, open, o, mv) && (u == o ==> wants == mv)
    ensures var e1 := DropLosers(e, false);
      var e2 := if e1.wq == [] then e1 else ServeHead(e1, val);
      var f := Done(Give(e2, u, val, wants), u, true);
      AllFine(f, {}, open, o, mv) && Cut(e.wq, f.wq) && Peek(Of(e1, u), Arg) == val
  {
    hide EnvOk, Give, Done, DropLosers, ServeHead, Settled, Wins, Fine;
    DropLosersOk(e, {u}, false);
    DropsFine(e, {u}, false, open, o, mv);
    var e1 := DropLosers(e, false);
    if e1.wq == [] {
      GiveFine(e1, u, wants, open, o, mv);
    } else {
      ServeHeadOk(e1, {u}, val);
      ServeFine(e1, {u}, val, open, o, mv);
      CutTrans(e.wq, e1.wq, e1.wq[1..]);
      GiveFine(ServeHead(e1, val), u, wants, open, o, mv);
    }
  }

  lemma WriteWaitsFine(e: Env, u: nat, co: bool, onStack: bool, val: Value, wants: bool, open: bool, o: nat, mv: bool)
    requires u in e.calls && e.calls[u] == Started(false, val)
    requires AllFine(e, {u}, open, o, mv) && (u == o ==> wants == mv)
    ensures var w := WriterRecord(co, onStack, val, wants);
      var f := Enqueue(if w.own then Set(e, u, Take(e.calls[u], Arg, wants)) else e, u, w);
      AllFine(f, {}, open, o, mv) && f.wq == e.wq + [u] && Peek(Of(e, u), Arg) == val
  {
    hide Fine;
    var w := WriterRecord(co, onStack, val, wants);
    var f := Enqueue(if w.own then Set(e, u, Take(e.calls[u], Arg, wants)) else e, u, w);
    OnlyBusy(e, f, u, open, o, mv);
    WaitingWriterFine(e.calls[u], co, onStack, val, wants, u, open, o, mv);
    Settles(f, u, open, o, mv);
  }

  lemma WaitingWriterFine(k: Call, co: bool, onStack: bool, val: Value, wants: bool, u: nat, open: bool, o: nat,
                          mv: bool)
    requires k == Started(false, val) && (u == o ==> wants == mv)
    ensures var w := WriterRecord(co, onStack, val, wants);
      Fine((if w.own then Take(k, Arg, wants) else k).(rec := Some(w)), u, open, o, mv)
  {
  }

  lemma GiveFine(e: Env, u: nat, wants: bool, open: bool, o: nat, mv: bool)
    requires EnvOk(e, {u}) && u in e.calls && AllFine(e, {u}, open, o, mv) && (u == o ==> wants == mv)
    requires e.calls[u] == Started(false, e.calls[u].input)
    ensures var f := Done(Give(e, u, Peek(e.calls[u], Arg), wants), u, true);
      AllFine(f, {}, open, o, mv) && f.wq == e.wq
  {
    hide EnvOk, Give, Done, Settled, Fine;
    GiveOk(e, u, wants);
    var f := Give(e, u, Peek(e.calls[u], Arg), wants);
    OnlyBusy(e, f, u, open, o, mv);
    EndFine(f, u, true, open, o, mv);
  }

  lemma TimeoutFine(c: Chan, u: nat, open: bool, o: nat, mv: bool)
    requires EnvOk(c.e, {}) && Enabled(c, Timeout(u)) && AllFine(c.e, {}, open, o, mv) && (open ==> c.closed == 0)
    ensures AllFine(TimeoutStep(c, u).e, {}, open, o, mv)
  {
    assert CallOk(c.e, u) && Fine(c.e.calls[u], u, open, o, mv);
    hide EnvOk;
    assert Fine(TimeoutStep(c, u).e.calls[u], u, open, o, mv);
    hide Fine;
  }

  lemma ResumeFine(c: Chan, u: nat, open: bool, o: nat, mv: bool)
    requires EnvOk(c.e, {}) && u in c.e.calls && c.e.calls[u].rec.Some? && !c.e.calls[u].rec.value.done.Pending?
    requires AllFine(c.e, {}, open, o, mv) && (open ==> c.closed == 0)
    ensures AllFine(ResumeStep(c, u).e, {}, open, o, mv)
  {
    assert CallOk(c.e, u) && Fine(c.e.calls[u], u, open, o, mv);
    ContinuedIs(c.e, c.e.calls[u]);
    hide EnvOk, Continued;
    assert Fine(ResumeStep(c, u).e.calls[u], u, open, o, mv);
    hide Fine;
  }

  lemma AwakeFine(c: Chan, u: nat, open: bool, o: nat, mv: bool)
    requires EnvOk(c.e, {}) && Enabled(c, Awake(u)) && AllFine(c.e, {}, open, o, mv) && (open ==> c.closed == 0)
    ensures AllFine(AwakeStep(c, u).e, {}, open, o, mv)
  {
    hide ResumeStep, Fine;
    if !c.e.calls[u].rec.value.done.Pending? {
      assert c.e.asleep - {u} == c.e.asleep by { assert CallOk(c.e, u); }
      ResumeFine(c, u, open, o, mv);
    }
  }

  lemma CloseOneFine(e: Env, u: nat, o: nat, mv: bool)
    requires AllFine(e, {}, false, o, mv) && u in e.calls && e.calls[u].rec.Some?
    ensures AllFine(CloseOne(e, u), {}, false, o, mv)
  {
    assert Fine(e.calls[u], u, false, o, mv);
    assert Fine(CloseOne(e, u).calls[u], u, false, o, mv);
    hide Fine;
  }

  lemma {:induction false} CloseEachFine(e: Env, os: seq<nat>, o: nat, mv: bool)
    requires e.wq == [] && EnvOk(e.(wq := os), {}) && AllReaders(e.(wq := os)) && AllFine(e, {}, false, o, mv)
    ensures AllFine(CloseEach(e, os), {}, false, o, mv)
    decreases |os|
  {
    if os != [] {
      QueueHead(e.(wq := os), {});
      hide EnvOk, CloseOne, Fine;
      CloseOneOk(e, os);
      CloseOneFine(e, os[0], o, mv);
      CloseEachFine(CloseOne(e, os[0]), os[1..], o, mv);
    }
  }

  lemma CloseFine(c: Chan, open: bool, o: nat, mv: bool)
    requires Inv(c) && AllFine(c.e, {}, open, o, mv) && (open ==> c.closed == 0)
    ensures AllFine(Step(c, CloseEnd).e, {}, false, o, mv) && Cut(c.e.wq, Step(c, CloseEnd).e.wq)
  {
    assert AllFine(c.e, {}, false, o, mv);
    hide EnvOk, CloseEach, Fine, Settled;
    if c.q == [] {
      var e := c.e.(wq := []);
      assert e.(wq := c.e.wq) == c.e;
      CloseEachOk(e, c.e.wq);
      CloseEachFine(e, c.e.wq, o, mv);
    }
  }

  /** `wants` agrees with the event, if it is the write `o`. */
  predicate Agrees(ev: Event, o: nat, mv: bool) {
    (ev.Write? && ev.o == o ==> ev.mv == mv) && !(ev.Read? && ev.o == o)
  }

  lemma StepFine(c: Chan, ev: Event, open: bool, o: nat, mv: bool)
    requires Inv(c) && Enabled(c, ev) && AllFine(c.e, {}, open, o, mv) && (open ==> c.closed == 0) && Agrees(ev, o, mv)
    ensures AllFine(Step(c, ev).e, {}, open && Step(c, ev).closed == 0, o, mv)
    ensures var s, t := c.e.wq, Step(c, ev).e.wq; Cut(s, t) || ((ev.Read? || ev.Write?) && t == s + [ev.o])
  {
    StepFrame(c, ev);
    InvEnv(c);
    hide Inv, EnvOk, ReadStep, WriteStep, ResumeStep, Fine, CloseEach;
    match ev
    case Read(u, co, onStack, init) => ReadFine(c, u, co, onStack, init, open, o, mv);
    case Write(u, co, onStack, val, wants) => WriteFine(c, u, co, onStack, val, wants, open, o, mv);
    case Timeout(u) => TimeoutFine(c, u, open, o, mv);
    case Resume(u) =>
      WokenHasVerdict(c, u);
      ResumeFine(c, u, open, o, mv);
      ResumeQueue(c, u);
    case Awake(u) =>
      AwakeFine(c, u, open, o, mv);
      ResumeQueue(c.(e := c.e.(asleep := c.e.asleep - {u})), u);
    case CloseBegin => StillFine(c.e, open, o, mv);
    case CloseEnd => CloseFine(c, open, o, mv);
  }

  lemma ResumeQueue(c: Chan, u: nat)
    ensures ResumeStep(c, u).e.wq == c.e.wq
  {
    hide Continued;
  }

  lemma StillFine(e: Env, open: bool, o: nat, mv: bool)
    requires AllFine(e, {}, open, o, mv)
    ensures AllFine(e, {}, false, o, mv)
  {
    forall u | u in e.calls ensures Fine(e.calls[u], u, false, o, mv) {
      assert Fine(e.calls[u], u, open, o, mv);
    }
  }

  lemma {:induction false} RunFine(c: Chan, evs: seq<Event>, o: nat, mv: bool)
    requires Inv(c) && Runs(c, evs) && AllFine(c.e, {}, c.closed == 0, o, mv)
    requires forall i :: 0 <= i < |evs| ==> Agrees(evs[i], o, mv)
    ensures AllFine(Run(c, evs).e, {}, Run(c, evs).closed == 0, o, mv)
    decreases |evs|
  {
    hide Inv, Step, Fine, Enabled, Agrees;
    if evs != [] {
      StepFrame(c, evs[0]);
      StepKeepsInv(c, evs[0]);
      StepFine(c, evs[0], c.closed == 0, o, mv);
      RunFine(Step(c, evs[0]), evs[1..], o, mv);
    }
  }

  // ----- who waits

  lemma {:induction false} UnusedNumber(evs: seq<Event>) returns (o: nat)
    ensures forall i :: 0 <= i < |evs| && (evs[i].Read? || evs[i].Write?) ==> evs[i].o < o
  {
    if evs == [] { return 0; }
    o := UnusedNumber(evs[1..]);
    var ev := evs[0];
    if (ev.Read? || ev.Write?) && o <= ev.o { o := ev.o + 1; }
    assert forall i :: 1 <= i < |evs| ==> evs[i] == evs[1..][i - 1];
  }

  /** While a channel is open, a read of an empty one and a write to a full one wait: no call fails but by its
      time limit, and a call that has not returned has its verdict or stands in the queue. */
  lemma OpenCallsWait(cap: nat, timed: bool, evs: seq<Event>, o: nat)
    requires Possible(cap, timed, evs) && After(cap, timed, evs).closed == 0
    requires o in After(cap, timed, evs).e.calls
    ensures var e := After(cap, timed, evs).e; var k := e.calls[o];
      && (k.res == Some(false) ==> Record(k).Some? && Record(k).value.status.TimedOut?)
      && (k.res.None? ==> k.rec.Some? && !k.rec.value.done.ChannelClosed? && (k.rec.value.done.Pending? ==> o in e.wq))
  {
    var x := UnusedNumber(evs);
    AfterInv(cap, timed, evs);
    InitInv(cap, timed);
    RunFine(Init(cap, timed), evs, x, false);
    var c := After(cap, timed, evs);
    assert CallOk(c.e, o) && Fine(c.e.calls[o], o, true, x, false);
  }

  /** A time limit that wins ends the wait: the call fails. */
  lemma TimeoutEndsWait(cap: nat, timed: bool, evs: seq<Event>, o: nat)
    requires Possible(cap, timed, evs + [Timeout(o)])
    ensures var e := After(cap, timed, evs + [Timeout(o)]).e;
      && o in e.calls && e.calls[o].res == Some(false) && o !in e.asleep
      && e.calls[o].rec.Some? && e.calls[o].rec.value.status.TimedOut? && e.calls[o].rec.value.done.Pending?
  {
    hide Inv;
    InParts(cap, timed, evs, [Timeout(o)]);
    var c := After(cap, timed, evs);
    assert Run(c, [Timeout(o)]) == TimeoutStep(c, o) && Enabled(c, Timeout(o));
    TimesOut(c, o);
  }

  lemma TimesOut(c: Chan, o: nat)
    requires Inv(c) && Enabled(c, Timeout(o))
    ensures var e := TimeoutStep(c, o).e;
      && o in e.calls && e.calls[o].res == Some(false) && o !in e.asleep
      && e.calls[o].rec.Some? && e.calls[o].rec.value.status.TimedOut? && e.calls[o].rec.value.done.Pending?
  {
    assert CallOk(c.e, o);
  }

  // ----- who is first

  ghost predicate Before(s: seq<nat>, o: nat, u: nat) {
    exists i, j :: 0 <= i < j < |s| && s[i] == o && s[j] == u
  }

  /** Call `u` leaves the queue only after call `o`. */
  lemma StepInTurn(c: Chan, ev: Event, o: nat, u: nat)
    requires Inv(c) && Enabled(c, ev) && Before(c.e.wq, o, u)
    ensures var t := Step(c, ev).e.wq; o !in t || Before(t, o, u)
  {
    QueueMoves(c, ev);
    DistinctQueue(c);
    hide *;
    if Cut(c.e.wq, Step(c, ev).e.wq) {
      CutInTurn(c.e.wq, Step(c, ev).e.wq, o, u);
    } else {
      JoinedInTurn(c.e.wq, ev.o, o, u);
    }
  }

  ghost predicate Distinct(s: seq<nat>) {
    forall i, j :: 0 <= i < j < |s| ==> s[i] != s[j]
  }

  lemma DistinctQueue(c: Chan)
    requires Inv(c)
    ensures Distinct(c.e.wq)
  {
  }

  lemma CutInTurn(s: seq<nat>, t: seq<nat>, o: nat, u: nat)
    requires Cut(s, t) && Before(s, o, u) && Distinct(s)
    ensures o !in t || Before(t, o, u)
  {
    hide *;
    var i, j := Places(s, o, u);
    var n := |s| - |t|;
    CutAt(s, t);
    if n <= i { BeforeAt(t, i - n, j - n); } else { CutOff(s, t, i); }
  }

  lemma Places(s: seq<nat>, o: nat, u: nat) returns (i: nat, j: nat)
    requires Before(s, o, u)
    ensures i < j < |s| && s[i] == o && s[j] == u
  {
    i, j :| 0 <= i < j < |s| && s[i] == o && s[j] == u;
  }

  lemma CutAt(s: seq<nat>, t: seq<nat>)
    requires Cut(s, t)
    ensures |t| <= |s| && forall k :: |s| - |t| <= k < |s| ==> t[k - (|s| - |t|)] == s[k]
  {
  }

  lemma BeforeAt(t: seq<nat>, i: nat, j: nat)
    requires i < j < |t|
    ensures Before(t, t[i], t[j])
  {
  }

  lemma CutOff(s: seq<nat>, t: seq<nat>, i: nat)
    requires Cut(s, t) && Distinct(s) && i < |s| - |t|
    ensures s[i] !in t
  {
    forall k | 0 <= k < |t| ensures t[k] != s[i] { assert t[k] == s[|s| - |t| + k]; }
  }

  lemma JoinedInTurn(s: seq<nat>, x: nat, o: nat, u: nat)
    requires Before(s, o, u)
    ensures Before(s + [x], o, u)
  {
    var i, j :| 0 <= i < j < |s| && s[i] == o && s[j] == u;
    assert (s + [x])[i] == o && (s + [x])[j] == u;
  }

  /** Only its first callers leave the queue, and only a new caller joins it, at its end. */
  lemma QueueMoves(c: Chan, ev: Event)
    requires Inv(c) && Enabled(c, ev)
    ensures var s, t := c.e.wq, Step(c, ev).e.wq; Cut(s, t) || ((ev.Read? || ev.Write?) && t == s + [ev.o])
  {
    var x := UnusedCall(c.e, ev);
    StepFine(c, ev, false, x, false);
  }

  lemma {:induction false} LargerThanAll(os: set<nat>) returns (x: nat)
    ensures forall o :: o in os ==> o < x
  {
    if os == {} { return 0; }
    var o :| o in os;
    x := LargerThanAll(os - {o});
    if x <= o { x := o + 1; }
    forall u | u in os ensures u < x { assert u == o || u in os - {o}; }
  }

  lemma UnusedCall(e: Env, ev: Event) returns (x: nat)
    ensures x !in e.calls && ((ev.Read? || ev.Write?) ==> ev.o != x)
  {
    x := LargerThanAll(e.calls.Keys + if ev.Read? || ev.Write? then {ev.o} else {});
  }

  lemma {:induction false} RunInTurn(c: Chan, evs: seq<Event>, o: nat, u: nat)
    requires Inv(c) && Runs(c, evs) && o in c.e.calls && (o !in c.e.wq || Before(c.e.wq, o, u))
    ensures o !in Run(c, evs).e.wq || Before(Run(c, evs).e.wq, o, u)
    decreases |evs|
  {
    hide Inv, Step, Before, Enabled, Settled;
    if evs != [] {
      StepKeepsInv(c, evs[0]);
      if o in c.e.wq { StepInTurn(c, evs[0], o, u); } else { NotAgain(c, evs[0], o); }
      RunInTurn(Step(c, evs[0]), evs[1..], o, u);
    }
  }

  /** A call that left the queue does not join it again. */
  lemma NotAgain(c: Chan, ev: Event, o: nat)
    requires Inv(c) && Enabled(c, ev) && o in c.e.calls && o !in c.e.wq
    ensures o !in Step(c, ev).e.wq
  {
    QueueMoves(c, ev);
    hide Inv, Step;
  }

  /** First come, first served: of two callers in the queue, the one that came later leaves it only after the
      other, whatever happens in between. */
  lemma ServedInTurn(cap: nat, timed: bool, evs: seq<Event>, more: seq<Event>, i: nat, j: nat)
    requires Possible(cap, timed, evs + more) && i < j < |After(cap, timed, evs).e.wq|
    ensures var s, t := After(cap, timed, evs).e.wq, After(cap, timed, evs + more).e.wq; s[i] in t ==> s[j] in t
  {
    hide Inv, Runs, Run;
    InParts(cap, timed, evs, more);
    var c := After(cap, timed, evs);
    var o, u := c.e.wq[i], c.e.wq[j];
    assert Before(c.e.wq, o, u);
    InvEnv(c);
    ListsOf(c.e);
    RunInTurn(c, more, o, u);
  }

  // ----- the object of a writer

  /** The record, if there is one, is of the right kind: the object of a coroutine that lies on its stack is
      out of reach for others while it waits. */
  ghost predicate KindOk(k: Call, co: bool, onStack: bool) {
    Record(k).Some? ==> Record(k).value.co == co && Record(k).value.own == (co && onStack)
  }

  lemma ReadStarts(c: Chan, o: nat, co: bool, onStack: bool, init: Value)
    requires Inv(c) && o !in c.e.calls
    ensures var e := ReadStep(c, o, co, onStack, init).e;
      o in e.calls && e.calls[o].reader && e.calls[o].input == init && KindOk(e.calls[o], co, onStack)
  {
    hide EnvOk, Receive, Done, DropLosers, AcceptHead, HeadValue, Settled, Wins;
    var e := Set(c.e, o, Started(true, init));
    StartOk(c.e, o, true, init);
    if c.q != [] {
      ReceiveOk(e, o, c.q[0]);
      var e1 := Receive(e, o, c.q[0]);
      if !c.Full() {
        EndStarts(e1, o, true);
      } else {
        DropLosersOk(e1, {o}, true) by { QueueOfWriters(c); }
        var e2 := DropLosers(e1, true);
        if e2.wq == [] {
          EndStarts(e2, o, true);
        } else {
          AcceptHeadOk(e2, {o});
          EndStarts(AcceptHead(e2), o, true);
        }
      }
    } else if c.closed != 0 {
      EndStarts(e, o, false);
    }
  }

  /** A call of `write` starts with the object it was passed. */
  lemma WriteStarts(c: Chan, o: nat, co: bool, onStack: bool, val: Value, wants: bool)
    requires Inv(c) && o !in c.e.calls
    ensures var e := WriteStep(c, o, co, onStack, val, wants).e;
      o in e.calls && !e.calls[o].reader && e.calls[o].input == val && KindOk(e.calls[o], co, onStack)
  {
    hide EnvOk, Give, Done, DropLosers, ServeHead, Settled, Wins;
    var e := Set(c.e, o, Started(false, val));
    StartOk(c.e, o, false, val);
    if c.closed != 0 {
      EndStarts(e, o, false);
    } else if c.q == [] {
      DropLosersOk(e, {o}, false);
      var e1 := DropLosers(e, false);
      if e1.wq == [] {
        GiveStarts(e1, o, wants);
      } else {
        ServeHeadOk(e1, {o}, val);
        GiveStarts(ServeHead(e1, val), o, wants);
      }
    } else if !c.Full() {
      GiveStarts(e, o, wants);
    }
  }

  lemma EndStarts(e: Env, o: nat, done: bool)
    requires o in e.calls
    ensures var f := Done(e, o, done);
      && o in f.calls && f.calls[o].reader == e.calls[o].reader && f.calls[o].input == e.calls[o].input
      && Record(f.calls[o]) == Record(e.calls[o])
  {
  }

  lemma GiveStarts(e: Env, o: nat, wants: bool)
    requires o in e.calls
    ensures var f := Done(Give(e, o, Peek(e.calls[o], Arg), wants), o, true);
      && o in f.calls && f.calls[o].reader == e.calls[o].reader && f.calls[o].input == e.calls[o].input
      && Record(f.calls[o]) == Record(e.calls[o])
  {
    EndStarts(Give(e, o, Peek(e.calls[o], Arg), wants), o, true);
    hide Done;
  }

  lemma FirstEvent(c: Chan, ev: Event)
    requires Runs(c, [ev])
    ensures Enabled(c, ev) && Run(c, [ev]) == Step(c, ev)
  {
    hide Enabled, Step;
    assert [ev][1..] == [];
    assert Run(Step(c, ev), []) == Step(c, ev);
  }

  lemma WriteFirst(c: Chan, ev: Event)
    requires Inv(c) && ev.Write? && Enabled(c, ev)
    ensures var e := Step(c, ev).e;
      && ev.o in e.calls && !e.calls[ev.o].reader && e.calls[ev.o].input == ev.val
      && AllFine(e, {}, false, ev.o, ev.mv)
  {
    WriteStarts(c, ev.o, ev.co, ev.onStack, ev.val, ev.mv);
    assert AllFine(c.e, {}, false, ev.o, ev.mv);
    hide Inv, WriteStep, Fine;
    StepFine(c, ev, false, ev.o, ev.mv);
  }

  /** What happens later is no other call with the same number. */
  lemma {:induction false} RunObject(c: Chan, evs: seq<Event>, o: nat, mv: bool)
    requires Inv(c) && Runs(c, evs) && o in c.e.calls && AllFine(c.e, {}, false, o, mv)
    ensures o in Run(c, evs).e.calls && AllFine(Run(c, evs).e, {}, false, o, mv)
    decreases |evs|
  {
    hide Inv, Step, Fine, Settled;
    if evs != [] {
      StepKeepsInv(c, evs[0]);
      StepFine(c, evs[0], false, o, mv);
      RunObject(Step(c, evs[0]), evs[1..], o, mv);
    }
  }

  lemma ObjectSays(c: Chan, o: nat, mv: bool)
    requires Inv(c) && o in c.e.calls && AllFine(c.e, {}, false, o, mv)
    ensures var k := c.e.calls[o];
      && (!mv ==> k.arg == Live(k.input))
      && (mv && k.res == Some(true) ==> k.arg == Moved)
      && (mv && Record(k).None? && k.res == Some(false) ==> k.arg == Live(k.input))
  {
    assert CallOk(c.e, o) && Fine(c.e.calls[o], o, false, o, mv);
    hide EnvOk;
  }

  /** A writer whose value is to be copied keeps its object. One whose value is to be moved has it moved out
      when the value is accepted, or when it waits with an own buffer, and keeps it otherwise. */
  lemma CopiedOrMoved(cap: nat, timed: bool, before: seq<Event>, ev: Event, after: seq<Event>)
    requires ev.Write? && Possible(cap, timed, before + [ev] + after)
    ensures var e, o := After(cap, timed, before + [ev] + after).e, ev.o;
      && o in e.calls && !e.calls[o].reader && e.calls[o].input == ev.val
      && (!ev.mv ==> e.calls[o].arg == Live(ev.val))
      && (ev.mv && e.calls[o].res == Some(true) ==> e.calls[o].arg == Moved)
      && (ev.mv && Record(e.calls[o]).None? && e.calls[o].res == Some(false) ==> e.calls[o].arg == Live(ev.val))
  {
    hide Inv, Run, Runs, Fine, Step;
    InParts(cap, timed, before + [ev], after);
    InParts(cap, timed, before, [ev]);
    var c := After(cap, timed, before);
    var d := After(cap, timed, before + [ev]);
    FirstEvent(c, ev);
    WriteFirst(c, ev);
    RunObject(d, after, ev.o, ev.mv);
    ObjectSays(After(cap, timed, before + [ev] + after), ev.o, ev.mv);
  }

  /** The object of a waiting coroutine that lies on its stack is not touched before it continues. A value
      to be moved was moved out when its writer began to wait. */
  lemma StackObjectUntouched(cap: nat, timed: bool, before: seq<Event>, ev: Event, after: seq<Event>)
    requires (ev.Read? || ev.Write?) && ev.co && ev.onStack && Possible(cap, timed, before + [ev] + after)
    ensures var e := After(cap, timed, before + [ev] + after).e;
      && ev.o in e.calls && e.calls[ev.o].reader == ev.Read?
      && (e.calls[ev.o].res.None? ==>
            e.calls[ev.o].arg == match ev
              case Read(_, _, _, init) => Live(init)
              case Write(_, _, _, val, mv) => if mv then Moved else Live(val))
  {
    hide Inv, Run, Runs, Fine, Step;
    InParts(cap, timed, before + [ev], after);
    InParts(cap, timed, before, [ev]);
    var c, d := After(cap, timed, before), After(cap, timed, before + [ev]);
    FirstEvent(c, ev);
    CallStarts(c, ev);
    KindStays(d, After(cap, timed, before + [ev] + after), ev.o);
    if ev.Write? {
      WriteFirst(c, ev);
      RunObject(d, after, ev.o, ev.mv);
      WaitingObject(After(cap, timed, before + [ev] + after), ev.o, ev.mv);
    } else {
      WaitingReader(After(cap, timed, before + [ev] + after), ev.o);
    }
  }

  lemma KindStays(c: Chan, d: Chan, o: nat)
    requires Inv(c) && Progress(c.e, d.e) && o in c.e.calls && KindOk(c.e.calls[o], true, true)
    ensures d.e.calls[o].rec.Some? ==> d.e.calls[o].rec.value.own
  {
    assert CallOk(c.e, o) && Settled(c.e.calls[o], d.e.calls[o]);
    hide EnvOk;
  }

  lemma CallStarts(c: Chan, ev: Event)
    requires Inv(c) && (ev.Read? || ev.Write?) && Enabled(c, ev)
    ensures var e := Step(c, ev).e;
      && ev.o in e.calls && e.calls[ev.o].reader == ev.Read? && KindOk(e.calls[ev.o], ev.co, ev.onStack)
      && e.calls[ev.o].input == (if ev.Read? then ev.init else ev.val)
  {
    hide Inv, ReadStep, WriteStep;
    if ev.Read? {
      ReadStarts(c, ev.o, ev.co, ev.onStack, ev.init);
    } else {
      WriteStarts(c, ev.o, ev.co, ev.onStack, ev.val, ev.mv);
    }
  }

  lemma WaitingObject(c: Chan, o: nat, mv: bool)
    requires Inv(c) && o in c.e.calls && AllFine(c.e, {}, false, o, mv)
    requires c.e.calls[o].rec.Some? ==> c.e.calls[o].rec.value.own
    ensures var k := c.e.calls[o]; k.res.None? ==> k.arg == if mv then Moved else Live(k.input)
  {
    assert CallOk(c.e, o) && Fine(c.e.calls[o], o, false, o, mv);
    hide EnvOk;
  }

  lemma WaitingReader(c: Chan, o: nat)
    requires Inv(c) && o in c.e.calls && c.e.calls[o].reader
    requires c.e.calls[o].rec.Some? ==> c.e.calls[o].rec.value.own
    ensures var k := c.e.calls[o]; k.res.None? ==> k.arg == Live(k.input)
  {
    assert CallOk(c.e, o);
    hide EnvOk;
  }
}
