/** `pipe_impl` with a buffer of no bytes, which hands values from writers to readers directly: what its
    steps do, and exactly when they are sound. */
module Unbuffered {
  import opened Options
  import opened Channel
  import opened ChannelSafety
  import opened ChannelCalls

  /** `_c` into the object of the reader, which is not destroyed before. */
  function BuildOver(e: Env, o: nat, x: Value): Env {
    Set(e, o, Construct(Of(e, o), Arg, x).(at := Some(|e.received|))).(received := e.received + [Entry(o, x)])
  }

  /** A read takes the value of whoever is first in the queue. */
  function DirectRead(c: Chan, o: nat, co: bool, onStack: bool, init: Value): Chan {
    var e := DropLosers(Set(c.e, o, Started(true, init)), true);
    if e.wq != [] then c.(e := Done(WakeUp(BuildOver(TakeHead(e), o, HeadValue(e)), e.wq[0]), o, true))
    else if c.closed != 0 then c.(e := Done(e, o, false))
    else c.(e := Enqueue(e, o, ReaderRecord(co, onStack)))
  }

  /** A write gives its value to whoever is first in the queue. */
  function DirectWrite(c: Chan, o: nat, co: bool, onStack: bool, val: Value, mv: bool): Chan {
    var e := Set(c.e, o, Started(false, val));
    if c.closed != 0 then c.(e := Done(e, o, false)) else
      var e1 := DropLosers(e, false);
      var x := Peek(Of(e1, o), Arg);
      if e1.wq != [] then c.(e := Done(Give(ServeHead(e1, x), o, x, mv), o, true))
      else
        var w := WriterRecord(co, onStack, x, mv);
        c.(e := Enqueue(if w.own then Set(e1, o, Take(Of(e1, o), Arg, mv)) else e1, o, w))
  }

  /** `close` takes the buffer for full and wakes nobody. */
  function DirectClose(c: Chan): Chan {
    c.(closed := 2)
  }

  /** No object was built over another, destroyed twice or leaked, and no caller was mistaken for one of the
      other side. */
  ghost predicate Sound(e: Env) {
    forall u :: u in e.calls ==> e.calls[u].ok
  }

  /** Dropping the record of a waiter that timed out goes well: a read destroys what the record says, and
      a write destroys nothing. */
  predicate DropsWell(k: Call, read: bool) {
    k.rec.Some? && if read then !(k.reader && k.rec.value.des) else k.reader || !k.rec.value.own
  }

  /** A read goes well with the queue `os` if everyone in it has timed out, a write also if the first who has
      not is a reader. */
  predicate GoesWell(e: Env, os: seq<nat>, read: bool)
    decreases |os|
  {
    os == [] ||
    if Wins(e, os[0]) then !read && Of(e, os[0]).reader else DropsWell(Of(e, os[0]), read) && GoesWell(e, os[1..], read)
  }

  lemma {:induction false} GoesWellFrame(e: Env, f: Env, os: seq<nat>, read: bool)
    requires e.timed == f.timed && forall o :: o in os ==> Of(e, o) == Of(f, o)
    ensures GoesWell(e, os, read) <==> GoesWell(f, os, read)
    decreases |os|
  {
    if os != [] {
      TailOf(os);
      GoesWellFrame(e, f, os[1..], read);
    }
  }

  // ----- what was unsound stays unsound

  ghost predicate Spoilt(e: Env, u: nat) {
    u in e.calls && !e.calls[u].ok
  }

  lemma DroppedSpoilt(c: Call, destroy: bool)
    ensures !c.ok ==> !Dropped(c, destroy).ok
  {
  }

  lemma {:induction false} DropSpoilt(e: Env, destroy: bool, u: nat)
    requires Spoilt(e, u)
    ensures Spoilt(DropLosers(e, destroy), u)
    decreases |e.wq|
  {
    if e.wq != [] && !Wins(e, e.wq[0]) {
      DroppedSpoilt(Of(e, e.wq[0]), destroy);
      DropSpoilt(DropLoser(PopFront(e), e.wq[0], destroy), destroy, u);
    }
  }

  lemma AcceptedSpoilt(c: Call, timed: bool, k: nat)
    ensures !c.ok ==> !Accepted(c, timed, k).ok
  {
  }

  lemma ServedSpoilt(c: Call, timed: bool, x: Value, k: nat)
    ensures !c.ok ==> !Served(c, timed, x, k).ok
  {
  }

  lemma EndSpoilt(e: Env, o: nat, x: Value, mv: bool, w: Waiter, u: nat)
    requires Spoilt(e, u)
    ensures Spoilt(Done(e, o, true), u) && Spoilt(Done(e, o, false), u) && Spoilt(Enqueue(e, o, w), u)
        && Spoilt(WakeUp(e, o), u)
    ensures Spoilt(BuildOver(e, o, x), u) && Spoilt(Give(e, o, x, mv), u)
        && Spoilt(Set(e, o, Take(Of(e, o), Arg, mv)), u)
  {
  }

  lemma HeadSpoilt(e: Env, x: Value, u: nat)
    requires Spoilt(e, u) && e.wq != []
    ensures Spoilt(TakeHead(e), u) && Spoilt(GiveHead(e, x), u)
  {
    AcceptedSpoilt(Of(e, e.wq[0]), e.timed, |e.accepted|);
    ServedSpoilt(Of(e, e.wq[0]), e.timed, x, |e.received|);
  }

  // ----- the steps

  /** A record that is dropped leaves everything sound, or its own call spoilt. */
  lemma DropOne(e: Env, busy: set<nat>, read: bool)
    requires EnvOk(e, busy) && e.wq != [] && !Wins(e, e.wq[0])
    ensures var f := DropLoser(PopFront(e), e.wq[0], read);
      if DropsWell(Of(e, e.wq[0]), read) then
        && EnvOk(f, busy) && f == e.(wq := e.wq[1..], calls := f.calls) && e.wq[0] !in busy && e.wq[0] !in e.wq[1..]
        && f.calls.Keys == e.calls.Keys && forall u :: u in e.calls && u != e.wq[0] ==> f.calls[u] == e.calls[u]
      else
        Spoilt(f, e.wq[0])
  {
    hide Logs, Lists;
    QueueHead(e, busy);
    var o, f := e.wq[0], DropLoser(PopFront(e), e.wq[0], read);
    if DropsWell(e.calls[o], read) {
      LogsSame(e, f, o);
      assert ReturnedOk(f, f.calls[o]);
      Changed(e, busy, f, busy, o);
    }
  }

  /** What is left of the queue when those who timed out are dropped, and whether the step can go well. */
  ghost predicate AfterDrops(e: Env, f: Env, busy: set<nat>, read: bool) {
    if GoesWell(e, e.wq, read) then
      EnvOk(f, busy) && (f.wq != [] ==> !read && Wins(f, f.wq[0]) && Of(f, f.wq[0]).reader)
    else
      || (exists u :: Spoilt(f, u))
      || (EnvOk(f, busy) && f.wq != [] && Wins(f, f.wq[0]) && (read || !Of(f, f.wq[0]).reader))
  }

  lemma {:induction false} DropAll(e: Env, busy: set<nat>, read: bool)
    requires EnvOk(e, busy)
    ensures var f := DropLosers(e, read);
      && AfterDrops(e, f, busy, read) && f.timed == e.timed && f.received == e.received && f.accepted == e.accepted
      && (forall o :: o in busy ==> Of(f, o) == Of(e, o) || exists u :: Spoilt(f, u))
    decreases |e.wq|
  {
    hide EnvOk, DropLoser, Wins, DropsWell;
    DropSame(e, read);
    if e.wq != [] && !Wins(e, e.wq[0]) {
      var f := DropLoser(PopFront(e), e.wq[0], read);
      DropOne(e, busy, read);
      if DropsWell(Of(e, e.wq[0]), read) {
        DropAll(f, busy, read);
        GoesWellFrame(e, f, e.wq[1..], read);
      } else {
        DropSpoilt(f, read, e.wq[0]);
      }
    }
  }

  lemma {:induction false} DropSame(e: Env, read: bool)
    ensures var f := DropLosers(e, read); f.timed == e.timed && f.received == e.received && f.accepted == e.accepted
    decreases |e.wq|
  {
    if e.wq != [] && !Wins(e, e.wq[0]) { DropSame(DropLoser(PopFront(e), e.wq[0], read), read); }
  }

  lemma StartDrops(c: Chan, o: nat, reader: bool, x: Value)
    requires EnvOk(c.e, {}) && o !in c.e.calls
    ensures var e := Set(c.e, o, Started(reader, x)); var f := DropLosers(e, reader);
      && EnvOk(e, {o}) && AfterDrops(e, f, {o}, reader) && f.timed == e.timed
      && (GoesWell(e, e.wq, reader) <==> GoesWell(c.e, c.e.wq, reader))
      && (Of(f, o) == Started(reader, x) || exists u :: Spoilt(f, u))
  {
    hide EnvOk, AfterDrops;
    var e := Set(c.e, o, Started(reader, x));
    StartOk(c.e, o, reader, x);
    DropAll(e, {o}, reader);
    GoesWellFrame(c.e, e, c.e.wq, reader);
  }

  lemma AllSound(e: Env)
    requires EnvOk(e, {})
    ensures Sound(e)
  {
    forall u | u in e.calls ensures e.calls[u].ok { assert CallOk(e, u); }
  }

  lemma SpoiltIsUnsound(e: Env, u: nat)
    requires Spoilt(e, u)
    ensures !Sound(e)
  {
  }

  lemma SomeSpoilt(e: Env)
    requires !Sound(e)
    ensures exists u :: Spoilt(e, u)
  {
    var u :| u in e.calls && !e.calls[u].ok;
    assert Spoilt(e, u);
  }

  lemma ReadSpoilt(c: Chan, e: Env, o: nat, w: Waiter, u: nat)
    requires Spoilt(e, u)
    ensures e.wq != [] ==> Spoilt(Done(WakeUp(BuildOver(TakeHead(e), o, HeadValue(e)), e.wq[0]), o, true), u)
    ensures Spoilt(Done(e, o, false), u) && Spoilt(Enqueue(e, o, w), u)
  {
    hide Spoilt, TakeHead, HeadValue, WakeUp, BuildOver, Done, Enqueue;
    EndSpoilt(e, o, 0, false, w, u);
    if e.wq != [] {
      var x := HeadValue(e);
      HeadSpoilt(e, 0, u);
      EndSpoilt(TakeHead(e), o, x, false, w, u);
      EndSpoilt(BuildOver(TakeHead(e), o, x), e.wq[0], x, false, w, u);
      EndSpoilt(WakeUp(BuildOver(TakeHead(e), o, x), e.wq[0]), o, x, false, w, u);
    }
  }

  /** A read that finds someone to take a value from builds over the object of its caller. */
  lemma MeetingSpoils(e: Env, o: nat)
    requires EnvOk(e, {o}) && e.wq != [] && Of(e, o).arg.Live?
    ensures Spoilt(Done(WakeUp(BuildOver(TakeHead(e), o, HeadValue(e)), e.wq[0]), o, true), o)
  {
    hide Logs, Lists, CallOk, HeadValue, Accepted, WakeUp, Done;
    QueueHead(e, {o});
    BusyFacts(e, o);
    var w := ReaderRecord(true, true);
    var f := BuildOver(TakeHead(e), o, HeadValue(e));
    assert Spoilt(f, o);
    hide Spoilt, BuildOver;
    EndSpoilt(f, e.wq[0], 0, false, w, o);
    EndSpoilt(WakeUp(f, e.wq[0]), o, 0, false, w, o);
  }

  /** A read without a buffer is sound if and only if everyone in the queue has timed out, and none of them is
      a reader whose object the record wants destroyed. In particular, it never meets a waiting writer: it
      would build the value over the object of the caller. */
  lemma DirectReadSoundIff(c: Chan, o: nat, co: bool, onStack: bool, init: Value)
    requires EnvOk(c.e, {}) && o !in c.e.calls
    ensures var f := DirectRead(c, o, co, onStack, init).e;
      && (Sound(f) <==> GoesWell(c.e, c.e.wq, true))
      && (Sound(f) ==> EnvOk(f, {}) && f.accepted == c.e.accepted && f.received == c.e.received)
  {
    hide EnvOk, DropLosers, GoesWell, Spoilt, TakeHead, HeadValue, WakeUp, BuildOver, Done, Enqueue, Wins, Sound;
    var e, w := DropLosers(Set(c.e, o, Started(true, init)), true), ReaderRecord(co, onStack);
    StartDrops(c, o, true, init);
    if GoesWell(c.e, c.e.wq, true) {
      NothingSpoilt(e, o);
      DropSame(Set(c.e, o, Started(true, init)), true);
      if c.closed != 0 {
        ReturnOk(e, o, false);
        AllSound(Done(e, o, false));
      } else {
        EnqueueOk(e, o, w);
        AllSound(Enqueue(e, o, w));
        EnqueueLogs(e, o, w);
      }
    } else if u :| Spoilt(e, u) {
      ReadSpoilt(c, e, o, w, u);
      SpoiltIsUnsound(DirectRead(c, o, co, onStack, init).e, u);
    } else {
      MeetingSpoils(e, o);
      SpoiltIsUnsound(DirectRead(c, o, co, onStack, init).e, o);
    }
  }

  lemma EnqueueLogs(e: Env, o: nat, w: Waiter)
    ensures Enqueue(e, o, w).accepted == e.accepted && Enqueue(e, o, w).received == e.received
  {
  }

  lemma NothingSpoilt(e: Env, o: nat)
    requires EnvOk(e, {o})
    ensures forall u :: !Spoilt(e, u)
  {
    forall u ensures !Spoilt(e, u) {
      assert u in e.calls ==> e.calls[u].ok by {
        if u in e.calls && u != o { assert CallOk(e, u); } else { assert BusyOk(e, o); }
      }
    }
  }

  lemma WriteSpoilt(e: Env, o: nat, x: Value, mv: bool, w: Waiter, u: nat)
    requires Spoilt(e, u)
    ensures e.wq != [] ==> Spoilt(Done(Give(ServeHead(e, x), o, x, mv), o, true), u)
    ensures Spoilt(Enqueue(if w.own then Set(e, o, Take(Of(e, o), Arg, mv)) else e, o, w), u)
  {
    hide Spoilt, GiveHead, WakeUp, Give, Done, Enqueue, Take;
    EndSpoilt(e, o, x, mv, w, u);
    EndSpoilt(Set(e, o, Take(Of(e, o), Arg, mv)), o, x, mv, w, u);
    if e.wq != [] {
      HeadSpoilt(e, x, u);
      EndSpoilt(GiveHead(e, x), e.wq[0], x, mv, w, u);
      EndSpoilt(ServeHead(e, x), o, x, mv, w, u);
      EndSpoilt(Give(ServeHead(e, x), o, x, mv), o, x, mv, w, u);
    }
  }

  /** A write that finds another writer takes it for a reader. */
  lemma MistakenSpoils(e: Env, o: nat, x: Value, mv: bool)
    requires EnvOk(e, {o}) && e.wq != [] && !Of(e, e.wq[0]).reader
    ensures Spoilt(Done(Give(ServeHead(e, x), o, x, mv), o, true), e.wq[0])
  {
    hide Logs, Lists, CallOk, WakeUp, Give, Done;
    QueueHead(e, {o});
    var h, w := e.wq[0], ReaderRecord(true, true);
    assert !Served(Of(e, h), e.timed, x, |e.received|).ok by { NotServed(Of(e, h), e.timed, x, |e.received|); }
    assert Spoilt(GiveHead(e, x), h);
    hide Spoilt, GiveHead;
    EndSpoilt(GiveHead(e, x), h, x, mv, w, h);
    EndSpoilt(ServeHead(e, x), o, x, mv, w, h);
    EndSpoilt(Give(ServeHead(e, x), o, x, mv), o, x, mv, w, h);
  }

  lemma NotServed(k: Call, timed: bool, x: Value, n: nat)
    requires !k.reader
    ensures !Served(k, timed, x, n).ok
  {
  }

  /** A write without a buffer is sound if and only if it is refused, or the first in the queue who has not
      timed out, if any, is a reader, and no record before holds the value of a writer. */
  lemma DirectWriteSoundIff(c: Chan, o: nat, co: bool, onStack: bool, val: Value, mv: bool)
    requires EnvOk(c.e, {}) && o !in c.e.calls
    ensures var f := DirectWrite(c, o, co, onStack, val, mv).e;
      && (Sound(f) <==> c.closed != 0 || GoesWell(c.e, c.e.wq, false))
      && (Sound(f) ==> EnvOk(f, {}))
      && (Sound(f) && Vals(c.e.accepted) == Vals(c.e.received) ==> Vals(f.accepted) == Vals(f.received))
  {
    hide EnvOk, DropLosers, GoesWell, Spoilt, ServeHead, Give, Done, Enqueue, Wins, Sound;
    var e0 := Set(c.e, o, Started(false, val));
    StartDrops(c, o, false, val);
    if c.closed != 0 {
      ReturnOk(e0, o, false);
      AllSound(Done(e0, o, false));
      return;
    }
    var e := DropLosers(e0, false);
    var x := Peek(Of(e, o), Arg);
    var w := WriterRecord(co, onStack, x, mv);
    if GoesWell(c.e, c.e.wq, false) {
      NothingSpoilt(e, o);
      DropSame(e0, false);
      DirectWriteOk(e, o, co, onStack, mv);
    } else if u :| Spoilt(e, u) {
      WriteSpoilt(e, o, x, mv, w, u);
      SpoiltIsUnsound(DirectWrite(c, o, co, onStack, val, mv).e, u);
    } else {
      MistakenSpoils(e, o, x, mv);
      SpoiltIsUnsound(DirectWrite(c, o, co, onStack, val, mv).e, e.wq[0]);
    }
  }

  lemma DirectWriteOk(e: Env, o: nat, co: bool, onStack: bool, mv: bool)
    requires EnvOk(e, {o}) && o in e.calls && e.calls[o] == Started(false, e.calls[o].input)
    requires e.wq != [] ==> Wins(e, e.wq[0]) && Of(e, e.wq[0]).reader
    ensures var x := Peek(Of(e, o), Arg); var w := WriterRecord(co, onStack, x, mv);
      var f := if e.wq != [] then Done(Give(ServeHead(e, x), o, x, mv), o, true)
               else Enqueue(if w.own then Set(e, o, Take(Of(e, o), Arg, mv)) else e, o, w);
      EnvOk(f, {}) && Sound(f) && (Vals(e.accepted) == Vals(e.received) ==> Vals(f.accepted) == Vals(f.received))
  {
    hide EnvOk, ServeHead, Give, Done, Enqueue, Wins, Sound;
    var x := Peek(Of(e, o), Arg);
    var w := WriterRecord(co, onStack, x, mv);
    if e.wq != [] {
      ServeHeadOk(e, {o}, x);
      var f := ServeHead(e, x);
      ValsMore(e.received, Entry(e.wq[0], x));
      ProgressRefl(f);
      GiveReturns(f, f, o, mv);
      AllSound(Done(Give(f, o, x, mv), o, true));
    } else {
      MoveOutOk(e, o, mv);
      var f := if w.own then Set(e, o, Take(Of(e, o), Arg, mv)) else e;
      EnqueueOk(f, o, w);
      EnqueueLogs(f, o, w);
      AllSound(Enqueue(f, o, w));
    }
  }

  // ----- runs

  function DirectStep(c: Chan, ev: Event): Chan {
    match ev
    case Read(o, co, onStack, init) => DirectRead(c, o, co, onStack, init)
    case Write(o, co, onStack, val, mv) => DirectWrite(c, o, co, onStack, val, mv)
    case CloseEnd => DirectClose(c)
    case _ => Step(c, ev)
  }

  predicate StepGoesWell(c: Chan, ev: Event) {
    match ev
    case Read(_, _, _, _) => GoesWell(c.e, c.e.wq, true)
    case Write(_, _, _, _, _) => c.closed != 0 || GoesWell(c.e, c.e.wq, false)
    case _ => true
  }

  predicate DirectRuns(c: Chan, evs: seq<Event>)
    decreases |evs|
  {
    evs == [] || (Enabled(c, evs[0]) && DirectRuns(DirectStep(c, evs[0]), evs[1..]))
  }

  function DirectRun(c: Chan, evs: seq<Event>): Chan
    decreases |evs|
  {
    if evs == [] then c else DirectRun(DirectStep(c, evs[0]), evs[1..])
  }

  /** Each read and each write of a run goes well with the queue it finds. */
  predicate AllGoesWell(c: Chan, evs: seq<Event>)
    decreases |evs|
  {
    evs == [] || (StepGoesWell(c, evs[0]) && AllGoesWell(DirectStep(c, evs[0]), evs[1..]))
  }

  /** What holds as long as everything goes well: each value accepted was handed to a reader at once. */
  ghost predicate DirectInv(c: Chan) {
    EnvOk(c.e, {}) && Vals(c.e.accepted) == Vals(c.e.received)
  }

  lemma DirectStepSoundIff(c: Chan, ev: Event)
    requires DirectInv(c) && Enabled(c, ev)
    ensures Sound(DirectStep(c, ev).e) <==> StepGoesWell(c, ev)
    ensures StepGoesWell(c, ev) ==> DirectInv(DirectStep(c, ev))
  {
    hide EnvOk, DirectRead, DirectWrite, GoesWell, Sound, Settled, Continued;
    match ev
    case Read(o, co, onStack, init) => DirectReadSoundIff(c, o, co, onStack, init);
    case Write(o, co, onStack, val, mv) => DirectWriteSoundIff(c, o, co, onStack, val, mv);
    case Timeout(o) =>
      TimeoutKeeps(c, o);
      AllSound(TimeoutStep(c, o).e);
    case Resume(o) =>
      WokenHasVerdict(c, o);
      ResumeKeeps(c, o);
      AllSound(ResumeStep(c, o).e);
    case Awake(o) =>
      AwakeKeeps(c, o);
      AllSound(AwakeStep(c, o).e);
    case CloseBegin => AllSound(c.e);
    case CloseEnd => AllSound(c.e);
  }

  lemma ContinuedSpoilt(k: Call)
    ensures !k.ok ==> !Continued(k).ok
  {
  }

  /** What was spoilt stays so through every step. */
  lemma DirectStepSpoilt(c: Chan, ev: Event, u: nat)
    requires Spoilt(c.e, u) && Enabled(c, ev)
    ensures Spoilt(DirectStep(c, ev).e, u)
  {
    hide DropLosers, TakeHead, HeadValue, BuildOver, WakeUp, ServeHead, Give, Done, Enqueue, Take, Continued;
    match ev
    case Read(o, co, onStack, init) =>
      var e0 := Set(c.e, o, Started(true, init));
      DropSpoilt(e0, true, u);
      ReadSpoilt(c, DropLosers(e0, true), o, ReaderRecord(co, onStack), u);
    case Write(o, co, onStack, val, mv) =>
      var e0 := Set(c.e, o, Started(false, val));
      var e := DropLosers(e0, false);
      var x := Peek(Of(e, o), Arg);
      DropSpoilt(e0, false, u);
      WriteSpoilt(e, o, x, mv, WriterRecord(co, onStack, x, mv), u);
      EndSpoilt(e0, o, x, mv, ReaderRecord(co, onStack), u);
    case Resume(o) => ContinuedSpoilt(Of(c.e, o));
    case Awake(o) => ContinuedSpoilt(Of(c.e, o));
    case Timeout(o) =>
    case CloseBegin =>
    case CloseEnd =>
  }

  lemma {:induction false} DirectRunSpoilt(c: Chan, evs: seq<Event>, u: nat)
    requires Spoilt(c.e, u) && DirectRuns(c, evs)
    ensures Spoilt(DirectRun(c, evs).e, u)
    decreases |evs|
  {
    hide DirectStep, Enabled, Spoilt;
    if evs != [] {
      DirectStepSpoilt(c, evs[0], u);
      DirectRunSpoilt(DirectStep(c, evs[0]), evs[1..], u);
    }
  }

  lemma {:induction false} DirectRunFrom(c: Chan, evs: seq<Event>)
    requires DirectInv(c) && DirectRuns(c, evs)
    ensures Sound(DirectRun(c, evs).e) <==> AllGoesWell(c, evs)
    ensures AllGoesWell(c, evs) ==> DirectInv(DirectRun(c, evs))
    decreases |evs|
  {
    hide EnvOk, DirectStep, Enabled, StepGoesWell;
    if evs == [] {
      AllSound(c.e);
    } else {
      var d := DirectStep(c, evs[0]);
      DirectStepSoundIff(c, evs[0]);
      if StepGoesWell(c, evs[0]) {
        DirectRunFrom(d, evs[1..]);
      } else {
        SomeSpoilt(d.e);
        var u :| Spoilt(d.e, u);
        DirectRunSpoilt(d, evs[1..], u);
      }
    }
  }

  ghost predicate DirectPossible(timed: bool, evs: seq<Event>) {
    DirectRuns(Init(0, timed), evs)
  }

  function DirectAfter(timed: bool, evs: seq<Event>): Chan {
    DirectRun(Init(0, timed), evs)
  }

  /** A run of a channel without a buffer is sound if and only if each of its reads and writes goes well with
      the queue it finds; and then the values accepted are those received, in order. */
  lemma DirectRunSoundIff(timed: bool, evs: seq<Event>)
    requires DirectPossible(timed, evs)
    ensures var e := DirectAfter(timed, evs).e;
      && (Sound(e) <==> AllGoesWell(Init(0, timed), evs))
      && (Sound(e) ==> EnvOk(e, {}) && Vals(e.accepted) == Vals(e.received))
  {
    InitInv(0, timed);
    hide EnvOk, Sound, AllGoesWell;
    DirectRunFrom(Init(0, timed), evs);
  }

  // ----- two calls

  /** Of two calls on a new channel without a buffer, whatever they are, only a read and then a write go
      well. In particular, a write and then a read do not. */
  lemma TwoCallsSoundIff(timed: bool, a: Event, b: Event)
    requires (a.Read? || a.Write?) && (b.Read? || b.Write?) && a.o != b.o
    ensures DirectPossible(timed, [a, b])
    ensures Sound(DirectAfter(timed, [a, b]).e) <==> a.Read? && b.Write?
  {
    var c := Init(0, timed);
    var d := DirectStep(c, a);
    FirstWaits(timed, a);
    SecondGoesWell(d, a, b);
    hide DirectStep, Sound, StepGoesWell;
    OneEvent(c, a, [b]);
    OneEvent(d, b, []);
    DirectRunSoundIff(timed, [a, b]);
  }

  lemma OneEvent(c: Chan, ev: Event, rest: seq<Event>)
    ensures DirectRuns(c, [ev] + rest) <==> Enabled(c, ev) && DirectRuns(DirectStep(c, ev), rest)
    ensures AllGoesWell(c, [ev] + rest) <==> StepGoesWell(c, ev) && AllGoesWell(DirectStep(c, ev), rest)
    ensures DirectRuns(c, []) && AllGoesWell(c, [])
  {
    assert ([ev] + rest)[1..] == rest;
  }

  lemma SecondGoesWell(d: Chan, a: Event, b: Event)
    requires (a.Read? || a.Write?) && (b.Read? || b.Write?) && a.o != b.o
    requires d.closed == 0 && d.e.wq == [a.o] && d.e.calls.Keys == {a.o} && d.e.calls[a.o].reader == a.Read?
    requires d.e.calls[a.o].rec.Some? && d.e.calls[a.o].rec.value.status.Waiting?
    ensures Enabled(d, b) && (StepGoesWell(d, b) <==> a.Read? && b.Write?)
  {
  }

  /** The first call waits. */
  lemma FirstWaits(timed: bool, a: Event)
    requires a.Read? || a.Write?
    ensures var d := DirectStep(Init(0, timed), a);
      && d.closed == 0 && d.e.timed == timed && d.e.wq == [a.o] && d.e.calls.Keys == {a.o}
      && d.e.calls[a.o].reader == a.Read? && d.e.calls[a.o].rec.Some? && d.e.calls[a.o].rec.value.status.Waiting?
      && Enabled(Init(0, timed), a) && StepGoesWell(Init(0, timed), a)
  {
    assert [] + [a.o] == [a.o];
  }

  // ----- closing

  /** The record of call `o` has no verdict. */
  ghost predicate Undecided(e: Env, o: nat) {
    o in e.calls && Record(e.calls[o]).Some? && Record(e.calls[o]).value.done.Pending?
  }

  lemma DroppedUndecided(k: Call, destroy: bool)
    requires Record(k).Some? && Record(k).value.done.Pending?
    ensures var m := Dropped(k, destroy); Record(m).Some? && Record(m).value.done.Pending?
  {
  }

  lemma {:induction false} DropUndecided(e: Env, destroy: bool, o: nat)
    requires Undecided(e, o)
    ensures Undecided(DropLosers(e, destroy), o)
    decreases |e.wq|
  {
    if e.wq != [] && !Wins(e, e.wq[0]) {
      if o == e.wq[0] { DroppedUndecided(e.calls[o], destroy); }
      DropUndecided(DropLoser(PopFront(e), e.wq[0], destroy), destroy, o);
    }
  }

  lemma ClosedStepUndecided(c: Chan, ev: Event, o: nat)
    requires DirectInv(c) && c.closed != 0 && Enabled(c, ev) && StepGoesWell(c, ev) && Undecided(c.e, o)
    ensures Undecided(DirectStep(c, ev).e, o) && DirectStep(c, ev).closed != 0
  {
    hide EnvOk, DropLosers, GoesWell, Continued, TakeHead, HeadValue, BuildOver, WakeUp, ServeHead, Give, Take;
    match ev
    case Read(u, co, onStack, init) =>
      var e0 := Set(c.e, u, Started(true, init));
      StartDrops(c, u, true, init);
      DropUndecided(e0, true, o);
    case Write(u, co, onStack, val, mv) =>
    case Timeout(u) =>
    case Resume(u) => WokenHasVerdict(c, u);
    case Awake(u) =>
    case CloseBegin =>
    case CloseEnd =>
  }

  lemma {:induction false} ClosedRunUndecided(c: Chan, evs: seq<Event>, o: nat)
    requires DirectInv(c) && c.closed != 0 && DirectRuns(c, evs) && AllGoesWell(c, evs) && Undecided(c.e, o)
    ensures Undecided(DirectRun(c, evs).e, o) && DirectInv(DirectRun(c, evs))
    decreases |evs|
  {
    hide DirectInv, DirectStep, Enabled, StepGoesWell, Undecided;
    if evs != [] {
      ClosedStepUndecided(c, evs[0], o);
      DirectStepSoundIff(c, evs[0]);
      ClosedRunUndecided(DirectStep(c, evs[0]), evs[1..], o);
    }
  }

  lemma {:induction false} DirectSplits(c: Chan, xs: seq<Event>, ys: seq<Event>)
    requires DirectRuns(c, xs + ys)
    ensures DirectRuns(c, xs) && DirectRuns(DirectRun(c, xs), ys)
    ensures DirectRun(c, xs + ys) == DirectRun(DirectRun(c, xs), ys)
    ensures AllGoesWell(c, xs + ys) <==> AllGoesWell(c, xs) && AllGoesWell(DirectRun(c, xs), ys)
    decreases |xs|
  {
    hide DirectStep, Enabled, StepGoesWell;
    if xs == [] {
      assert xs + ys == ys;
    } else {
      assert (xs + ys)[1..] == xs[1..] + ys;
      DirectSplits(DirectStep(c, xs[0]), xs[1..], ys);
    }
  }

  /** Without a buffer `close` wakes nobody: in every sound run, a caller that waits when `close` begins never
      gets a verdict and is never woken, and unless its time limit ends its wait it is still queued. */
  lemma CloseLeavesWaiting(timed: bool, before: seq<Event>, after: seq<Event>, o: nat)
    requires DirectPossible(timed, before + [CloseBegin] + after)
    requires Sound(DirectAfter(timed, before + [CloseBegin] + after).e)
    requires var e := DirectAfter(timed, before + [CloseBegin]).e; o in e.wq && o in e.calls
    ensures var e := DirectAfter(timed, before + [CloseBegin] + after).e;
      && Undecided(e, o) && e.calls[o].wakes == 0 && e.calls[o].at.None?
      && (e.calls[o].res.None? ==> o in e.wq) && (e.calls[o].res.Some? ==> e.calls[o].res == Some(false))
  {
    hide Sound, Undecided, AllGoesWell, DirectRun, DirectRuns, EnvOk;
    var c := DirectAfter(timed, before + [CloseBegin]);
    DirectRunSoundIff(timed, before + [CloseBegin] + after);
    DirectSplits(Init(0, timed), before + [CloseBegin], after);
    CloseBegun(timed, before);
    DirectRunSoundIff(timed, before + [CloseBegin]);
    QueuedIsUndecided(c.e, o);
    ClosedRunUndecided(c, after, o);
    StillWaiting(DirectRun(c, after).e, o);
  }

  lemma CloseBegun(timed: bool, before: seq<Event>)
    requires DirectPossible(timed, before + [CloseBegin])
    ensures DirectAfter(timed, before + [CloseBegin]).closed == 1
  {
    hide Enabled;
    DirectSplits(Init(0, timed), before, [CloseBegin]);
    var c := DirectAfter(timed, before);
    assert DirectRun(c, [CloseBegin]) == DirectStep(c, CloseBegin);
  }

  lemma QueuedIsUndecided(e: Env, o: nat)
    requires EnvOk(e, {}) && o in e.wq && o in e.calls
    ensures Undecided(e, o)
  {
    assert CallOk(e, o);
  }

  lemma StillWaiting(e: Env, o: nat)
    requires EnvOk(e, {}) && Undecided(e, o)
    ensures e.calls[o].wakes == 0 && e.calls[o].at.None?
    ensures (e.calls[o].res.None? ==> o in e.wq) && (e.calls[o].res.Some? ==> e.calls[o].res == Some(false))
  {
    assert CallOk(e, o);
  }

  // ----- who waits while the channel is open

  /** While the channel is open, only a time limit made a call fail. */
  ghost predicate AllOpen(c: Chan, x: nat) {
    c.closed == 0 ==> AllFine(c.e, {}, true, x, false)
  }

  lemma DroppedOpen(k: Call, destroy: bool)
    requires Open(k)
    ensures Open(Dropped(k, destroy))
  {
  }

  lemma {:induction false} DropOpen(e: Env, busy: set<nat>, destroy: bool, x: nat)
    requires AllFine(e, busy, true, x, false) && x !in e.calls && (e.wq != [] ==> x !in e.wq)
    requires forall u :: u in e.wq ==> u in e.calls
    ensures AllFine(DropLosers(e, destroy), busy, true, x, false)
    decreases |e.wq|
  {
    if e.wq != [] && !Wins(e, e.wq[0]) {
      var h, f := e.wq[0], DropLoser(PopFront(e), e.wq[0], destroy);
      TailOf(e.wq);
      if h !in busy {
        assert Fine(e.calls[h], h, true, x, false);
        DroppedOpen(e.calls[h], destroy);
        assert Fine(f.calls[h], h, true, x, false);
      }
      hide Fine, Dropped;
      assert AllFine(f, busy, true, x, false);
      DropOpen(f, busy, destroy, x);
    }
  }

  lemma DirectReadOpen(c: Chan, u: nat, co: bool, onStack: bool, init: Value, x: nat)
    requires EnvOk(c.e, {}) && u !in c.e.calls && GoesWell(c.e, c.e.wq, true) && c.closed == 0
    requires AllOpen(c, x) && x !in c.e.calls && x != u
    ensures AllOpen(DirectRead(c, u, co, onStack, init), x)
  {
    var e := Set(c.e, u, Started(true, init));
    OnlyBusy(c.e, e, u, true, x, false);
    StartDrops(c, u, true, init);
    QueueKnown(e, u);
    hide EnvOk, DropLosers, GoesWell, Wins, Fine;
    DropOpen(e, {u}, true, x);
    var f, w := DropLosers(e, true), ReaderRecord(co, onStack);
    NothingSpoilt(f, u);
    var g := Enqueue(f, u, w);
    OnlyBusy(f, g, u, true, x, false);
    WaitingReaderFine(g.calls[u], u, true, x, false);
    Settles(g, u, true, x, false);
  }

  lemma QueueKnown(e: Env, u: nat)
    requires EnvOk(e, {u})
    ensures u in e.calls && forall v :: v in e.wq ==> v in e.calls
  {
  }

  lemma DirectWriteOpen(c: Chan, u: nat, co: bool, onStack: bool, val: Value, mv: bool, x: nat)
    requires EnvOk(c.e, {}) && u !in c.e.calls && GoesWell(c.e, c.e.wq, false) && c.closed == 0
    requires AllOpen(c, x) && x !in c.e.calls && x != u
    ensures AllOpen(DirectWrite(c, u, co, onStack, val, mv), x)
  {
    var e := Set(c.e, u, Started(false, val));
    OnlyBusy(c.e, e, u, true, x, false);
    StartDrops(c, u, false, val);
    QueueKnown(e, u);
    hide EnvOk, DropLosers, GoesWell, Wins, Fine, ServeHead, Give, Done, Enqueue;
    DropOpen(e, {u}, false, x);
    var f := DropLosers(e, false);
    NothingSpoilt(f, u);
    QueueKnown(f, u);
    GivesOrWaits(f, u, co, onStack, val, mv, x);
  }

  lemma GivesOrWaits(f: Env, u: nat, co: bool, onStack: bool, val: Value, mv: bool, x: nat)
    requires EnvOk(f, {u}) && u in f.calls && f.calls[u] == Started(false, val) && u != x
    requires AllFine(f, {u}, true, x, false) && (f.wq != [] ==> Wins(f, f.wq[0]) && Of(f, f.wq[0]).reader)
    ensures var w := WriterRecord(co, onStack, Peek(Of(f, u), Arg), mv);
      var g := if f.wq != [] then Done(Give(ServeHead(f, val), u, val, mv), u, true)
               else Enqueue(if w.own then Set(f, u, Take(Of(f, u), Arg, mv)) else f, u, w);
      AllFine(g, {}, true, x, false) && Peek(Of(f, u), Arg) == val
  {
    hide EnvOk, Wins, Fine, ServeHead, Give, Done, Enqueue;
    if f.wq != [] {
      ServeHeadOk(f, {u}, val);
      ServeFine(f, {u}, val, true, x, false);
      GiveFine(ServeHead(f, val), u, mv, true, x, false);
    } else {
      WriteWaitsFine(f, u, co, onStack, val, mv, true, x, false);
    }
  }

  lemma DirectStepOpen(c: Chan, ev: Event, x: nat)
    requires DirectInv(c) && Enabled(c, ev) && StepGoesWell(c, ev) && AllOpen(c, x)
    requires x !in c.e.calls && ((ev.Read? || ev.Write?) ==> ev.o != x)
    ensures AllOpen(DirectStep(c, ev), x) && x !in DirectStep(c, ev).e.calls
  {
    hide EnvOk, DirectRead, DirectWrite, GoesWell, Fine, ResumeStep;
    DirectStepKeys(c, ev, x);
    match ev
    case Read(u, co, onStack, init) =>
      if c.closed == 0 { DirectReadOpen(c, u, co, onStack, init, x); } else { DirectStepClosed(c, ev); }
    case Write(u, co, onStack, val, mv) =>
      if c.closed == 0 { DirectWriteOpen(c, u, co, onStack, val, mv, x); } else { DirectStepClosed(c, ev); }
    case Timeout(u) => if c.closed == 0 { TimeoutFine(c, u, true, x, false); }
    case Resume(u) =>
      WokenHasVerdict(c, u);
      if c.closed == 0 { ResumeFine(c, u, true, x, false); } else { DirectStepClosed(c, ev); }
    case Awake(u) => if c.closed == 0 { AwakeFine(c, u, true, x, false); } else { DirectStepClosed(c, ev); }
    case CloseBegin =>
    case CloseEnd =>
  }

  lemma DirectStepClosed(c: Chan, ev: Event)
    ensures DirectStep(c, ev).closed == if ev.CloseBegin? then 1 else if ev.CloseEnd? then 2 else c.closed
  {
    hide DropLosers, TakeHead, HeadValue, BuildOver, WakeUp, ServeHead, Give, Done, Enqueue, Take, Continued;
  }

  lemma {:induction false} DropKeys(e: Env, destroy: bool)
    requires forall u :: u in e.wq ==> u in e.calls
    ensures DropLosers(e, destroy).calls.Keys == e.calls.Keys
    ensures forall u :: u in DropLosers(e, destroy).wq ==> u in e.calls
    decreases |e.wq|
  {
    if e.wq != [] && !Wins(e, e.wq[0]) {
      TailOf(e.wq);
      hide Dropped;
      DropKeys(DropLoser(PopFront(e), e.wq[0], destroy), destroy);
    }
  }

  lemma DirectStepKeys(c: Chan, ev: Event, x: nat)
    requires EnvOk(c.e, {}) && Enabled(c, ev) && x !in c.e.calls && ((ev.Read? || ev.Write?) ==> ev.o != x)
    ensures x !in DirectStep(c, ev).e.calls
  {
    ListsOf(c.e);
    hide EnvOk, DirectRead, DirectWrite, Continued, Return, Settle;
    match ev
    case Read(u, co, onStack, init) => ReadKeys(c, u, co, onStack, init);
    case Write(u, co, onStack, val, mv) => WriteKeys(c, u, co, onStack, val, mv);
    case _ =>
  }

  lemma ReadKeys(c: Chan, u: nat, co: bool, onStack: bool, init: Value)
    requires Lists(c.e)
    ensures DirectRead(c, u, co, onStack, init).e.calls.Keys == c.e.calls.Keys + {u}
  {
    DropKeys(Set(c.e, u, Started(true, init)), true);
    hide DropLosers, HeadValue, Accepted, Construct, Return;
  }

  lemma WriteKeys(c: Chan, u: nat, co: bool, onStack: bool, val: Value, mv: bool)
    requires Lists(c.e)
    ensures DirectWrite(c, u, co, onStack, val, mv).e.calls.Keys == c.e.calls.Keys + {u}
  {
    var e := Set(c.e, u, Started(false, val));
    DropKeys(e, false);
    hide DropLosers, ServeHead, Gives, Return, WriterRecord, Take;
    var f := DropLosers(e, false);
    if c.closed == 0 && f.wq != [] { ServeKeys(f, Peek(Of(f, u), Arg)); }
  }

  lemma ServeKeys(f: Env, x: Value)
    requires f.wq != [] && f.wq[0] in f.calls
    ensures ServeHead(f, x).calls.Keys == f.calls.Keys
  {
    hide Served;
  }

  lemma {:induction false} DirectRunOpen(c: Chan, evs: seq<Event>, x: nat)
    requires DirectInv(c) && DirectRuns(c, evs) && AllGoesWell(c, evs) && AllOpen(c, x) && x !in c.e.calls
    requires forall i :: 0 <= i < |evs| && (evs[i].Read? || evs[i].Write?) ==> evs[i].o < x
    ensures AllOpen(DirectRun(c, evs), x) && DirectInv(DirectRun(c, evs))
    decreases |evs|
  {
    hide DirectInv, DirectStep, Enabled, StepGoesWell, AllOpen;
    if evs != [] {
      DirectStepOpen(c, evs[0], x);
      DirectStepSoundIff(c, evs[0]);
      DirectRunOpen(DirectStep(c, evs[0]), evs[1..], x);
    }
  }

  /** As long as a channel without a buffer is open, a call waits for its partner: in every sound run, no call
      fails but by its time limit, and a call that has not returned has its verdict or stands in the queue. */
  lemma DirectOpenCallsWait(timed: bool, evs: seq<Event>, o: nat)
    requires DirectPossible(timed, evs) && Sound(DirectAfter(timed, evs).e) && DirectAfter(timed, evs).closed == 0
    requires o in DirectAfter(timed, evs).e.calls
    ensures var e := DirectAfter(timed, evs).e; var k := e.calls[o];
      && (k.res == Some(false) ==> Record(k).Some? && Record(k).value.status.TimedOut?)
      && (k.res.None? ==> k.rec.Some? && (k.rec.value.done.Pending? ==> o in e.wq))
  {
    var x := UnusedNumber(evs);
    InitInv(0, timed);
    DirectRunSoundIff(timed, evs);
    DirectRunOpen(Init(0, timed), evs, x);
    var c := DirectAfter(timed, evs);
    assert CallOk(c.e, o) && Fine(c.e.calls[o], o, true, x, false);
  }
}
