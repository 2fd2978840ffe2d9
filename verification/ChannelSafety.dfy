/** What every run of a channel keeps, whatever the interleaving of calls, timeouts, wake-ups and
    `close`. */
module ChannelSafety {
  import opened Options
  import opened Channel

  // ----- the invariant

  function Vals(log: seq<Entry>): (vs: seq<Value>)
    ensures |vs| == |log| && forall i :: 0 <= i < |log| ==> vs[i] == log[i].v
  {
    seq(|log|, i requires 0 <= i < |log| => log[i].v)
  }

  lemma ValsMore(log: seq<Entry>, x: Entry)
    ensures Vals(log + [x]) == Vals(log) + [x.v]
  {
  }

  /** The record of a call, allocated or freed. */
  function Record(k: Call): Option<Waiter> {
    if k.rec.Some? then k.rec else k.past
  }

  /** How often the coroutine of a call has to be woken: once if its verdict was given. */
  function WakesDue(k: Call): nat {
    if Record(k).Some? && Record(k).value.co && !Record(k).value.done.Pending? then 1 else 0
  }

  /** The record of a waiting reader or writer that can still be served. */
  ghost predicate WaitingOk(k: Call)
    requires k.rec.Some?
  {
    var w := k.rec.value;
    && w.status.Waiting? && k.res.None? && k.at.None?
    && (k.reader || !w.own ==> k.arg == Live(k.input))
    && (w.own ==> w.co)
    && if k.reader then
         (w.own ==> w.buf.Raw? && !w.des) && (!w.own && w.co ==> w.des)
       else
         (w.own ==> w.buf == Live(k.input) && w.mv && w.des) && (!w.own ==> !w.des)
  }

  /** A record whose caller has given up; it stays queued until the other side pops it. */
  ghost predicate TimedOutOk(k: Call)
    requires k.rec.Some?
  {
    var w := k.rec.value;
    && w.status.TimedOut? && k.res == Some(false) && k.at.None?
    && (k.reader ==> k.arg == Live(k.input) && (w.own ==> w.buf.Raw?))
    && (!k.reader ==> (w.des <==> w.own) && (w.own ==> w.buf.Live?))
  }

  /** A record that was served or woken by `close`, and whose caller has not continued yet. */
  ghost predicate ServedOk(e: Env, k: Call)
    requires k.rec.Some?
  {
    var w := k.rec.value;
    && k.res.None? && (e.timed ==> w.status.Ready?) && !w.status.TimedOut?
    && if w.done.Delivered? then
         && k.at.Some?
         && if k.reader then
              && k.at.value < |e.received|
              && (if w.own then w.buf == Live(e.received[k.at.value].v) && k.arg == Live(k.input)
                  else k.arg == Live(e.received[k.at.value].v))
            else
              k.at.value < |e.accepted| && e.accepted[k.at.value].v == k.input && (w.own ==> w.buf.Raw?)
       else
         k.reader && k.at.None? && k.arg == Live(k.input) && (w.own ==> w.buf.Raw?)
  }

  /** A call that has returned and left no record behind. */
  ghost predicate ReturnedOk(e: Env, k: Call) {
    && k.res.Some? && (k.res.value <==> k.at.Some?)
    && (if k.reader then
          if k.res.value then k.at.value < |e.received| && k.arg == Live(e.received[k.at.value].v)
          else k.arg == Live(k.input)
        else
          k.res.value ==> k.at.value < |e.accepted| && e.accepted[k.at.value].v == k.input)
    && (k.past.Some? ==>
          && (k.past.value.status.TimedOut? <==> k.past.value.done.Pending?)
          && (k.past.value.done.Delivered? <==> k.res.value))
  }

  ghost predicate CallOk(e: Env, o: nat)
    requires o in e.calls
  {
    var k := e.calls[o];
    && k.ok && k.wakes == WakesDue(k) && (k.rec.Some? ==> k.past.None?)
    && (o in e.wq <==> k.rec.Some? && k.rec.value.done.Pending?)
    && (o in e.asleep ==> k.rec.Some? && !k.rec.value.co && k.rec.value.done.Pending? && k.rec.value.status.Waiting?)
    && if k.rec.Some? then
         if k.rec.value.done.Pending? then WaitingOk(k) || (e.timed && TimedOutOk(k)) else ServedOk(e, k)
       else
         ReturnedOk(e, k)
  }

  /** A call in the middle of its critical section: it has no record and no result yet. */
  ghost predicate BusyOk(e: Env, o: nat) {
    && o in e.calls && o !in e.wq && o !in e.asleep
    && e.calls[o].ok && e.calls[o].rec.None? && e.calls[o].past.None? && e.calls[o].res.None? && e.calls[o].wakes == 0
  }

  ghost predicate Lists(e: Env) {
    && (forall o :: o in e.wq ==> o in e.calls) && e.asleep <= e.calls.Keys
    && (forall i, j :: 0 <= i < j < |e.wq| ==> e.wq[i] != e.wq[j])
  }

  /** Each entry of a log belongs to a call of the right kind, and each such call to one entry. */
  ghost predicate Logs(e: Env) {
    && (forall i :: 0 <= i < |e.received| ==> OwnEntry(e, e.received[i].o, true, i))
    && (forall i :: 0 <= i < |e.accepted| ==> OwnEntry(e, e.accepted[i].o, false, i))
    && (forall o :: o in e.calls && e.calls[o].at.Some? ==> InLog(e, o))
  }

  ghost predicate OwnEntry(e: Env, o: nat, reader: bool, i: nat) {
    o in e.calls && e.calls[o].reader == reader && e.calls[o].at == Some(i)
  }

  ghost predicate InLog(e: Env, o: nat)
    requires o in e.calls && e.calls[o].at.Some?
  {
    var i := e.calls[o].at.value;
    if e.calls[o].reader then i < |e.received| && e.received[i].o == o
    else i < |e.accepted| && e.accepted[i].o == o
  }

  ghost predicate EnvOk(e: Env, busy: set<nat>) {
    && Lists(e) && Logs(e)
    && (forall o :: o in busy ==> BusyOk(e, o))
    && (forall o :: o in e.calls && o !in busy ==> CallOk(e, o))
  }

  ghost predicate AllReaders(e: Env) {
    forall o :: o in e.wq && o in e.calls ==> e.calls[o].reader
  }

  ghost predicate AllWriters(e: Env) {
    forall o :: o in e.wq && o in e.calls ==> !e.calls[o].reader
  }

  /** A non-empty wait queue means an empty buffer with only readers queued, before `close` has
      completed, or a full buffer with only writers queued. */
  ghost predicate Shape(c: Chan) {
    && (c.cap > 0 ==> |c.q| <= c.cap) && c.closed <= 2
    && (c.e.wq != [] ==> (c.q == [] && c.closed != 2 && AllReaders(c.e)) || (c.Full() && AllWriters(c.e)))
  }

  /** What was accepted is what was received, followed by what is buffered, in order. */
  ghost predicate Conserved(c: Chan) {
    Vals(c.e.accepted) == Vals(c.e.received) + c.q
  }

  ghost predicate Inv(c: Chan) {
    EnvOk(c.e, {}) && Shape(c) && Conserved(c)
  }

  // ----- what is decided once

  /** Nothing is taken back: a result, a place in a log and a verdict stay, a record leaves the waiting
      state once, and a call without a record is over. */
  ghost predicate Settled(k: Call, m: Call) {
    && k.reader == m.reader && k.input == m.input && k.wakes <= m.wakes
    && (k.res.Some? ==> m.res == k.res) && (k.at.Some? ==> m.at == k.at)
    && (k.rec.None? && k.res.Some? ==> m == k)
    && (k.rec.Some? && m.rec.None? ==> m.res.Some?)
    && (Record(k).Some? ==> Record(m).Some? && RecordSettled(Record(k).value, Record(m).value))
  }

  ghost predicate RecordSettled(w: Waiter, x: Waiter) {
    && w.co == x.co && w.own == x.own
    && (!w.status.Waiting? ==> x.status == w.status)
    && (!w.done.Pending? ==> x.done == w.done && x.status == w.status)
  }

  ghost predicate Progress(e: Env, f: Env) {
    && e.timed == f.timed && e.accepted <= f.accepted && e.received <= f.received
    && forall u :: u in e.calls ==> u in f.calls && Settled(e.calls[u], f.calls[u])
  }

  lemma ProgressTrans(e: Env, f: Env, g: Env)
    requires Progress(e, f) && Progress(f, g)
    ensures Progress(e, g)
  {
    forall u | u in e.calls ensures u in g.calls && Settled(e.calls[u], g.calls[u]) {
      assert Settled(e.calls[u], f.calls[u]) && Settled(f.calls[u], g.calls[u]);
    }
  }

  // ----- framing

  /** Between `e` and `f` only call `o` changes, apart from threads that are woken. */
  ghost predicate OnlyCall(e: Env, f: Env, o: nat) {
    && f.timed == e.timed && f.calls.Keys == e.calls.Keys + {o}
    && (forall u :: u in e.calls && u != o ==> f.calls[u] == e.calls[u])
    && e.accepted <= f.accepted && e.received <= f.received
    && (forall u :: u != o ==> (u in e.wq <==> u in f.wq))
    && (forall u :: u != o && u in f.asleep ==> u in e.asleep)
  }

  lemma CallFrame(e: Env, f: Env, o: nat, u: nat)
    requires OnlyCall(e, f, o) && u in e.calls && u != o && CallOk(e, u)
    ensures CallOk(f, u)
  {
  }

  lemma Changed(e: Env, busy: set<nat>, f: Env, busy': set<nat>, o: nat)
    requires EnvOk(e, busy) && OnlyCall(e, f, o) && Lists(f) && Logs(f)
    requires busy' == busy || busy' == busy + {o} || busy' == busy - {o}
    requires if o in busy' then BusyOk(f, o) else CallOk(f, o)
    requires o in e.calls ==> Settled(e.calls[o], f.calls[o])
    ensures EnvOk(f, busy') && Progress(e, f)
  {
    hide CallOk, BusyOk, Lists, Logs;
    forall u | u in f.calls && u !in busy' ensures CallOk(f, u) {
      if u != o { CallFrame(e, f, o, u); }
    }
    forall u | u in busy' ensures BusyOk(f, u) {
      if u != o { BusyFrame(e, f, o, u); }
    }
  }

  lemma BusyFrame(e: Env, f: Env, o: nat, u: nat)
    requires OnlyCall(e, f, o) && u != o && BusyOk(e, u)
    ensures BusyOk(f, u)
  {
  }

  /** The logs stay right when call `o` keeps its place or has none. */
  lemma LogsSame(e: Env, f: Env, o: nat)
    requires Logs(e) && f.calls.Keys == e.calls.Keys + {o}
    requires forall u :: u in e.calls && u != o ==> f.calls[u] == e.calls[u]
    requires f.accepted == e.accepted && f.received == e.received
    requires if o in e.calls then f.calls[o].at == e.calls[o].at && f.calls[o].reader == e.calls[o].reader
             else f.calls[o].at.None?
    ensures Logs(f)
  {
    forall i | 0 <= i < |f.received| ensures OwnEntry(f, f.received[i].o, true, i) {
      assert OwnEntry(e, e.received[i].o, true, i);
    }
    forall i | 0 <= i < |f.accepted| ensures OwnEntry(f, f.accepted[i].o, false, i) {
      assert OwnEntry(e, e.accepted[i].o, false, i);
    }
    forall u | u in f.calls && f.calls[u].at.Some? ensures InLog(f, u) {
      assert u in e.calls && InLog(e, u);
    }
  }

  /** The logs stay right when call `o` gets the next place of its log. */
  lemma LogsGrow(e: Env, f: Env, o: nat, x: Value)
    requires Logs(e) && o in e.calls && e.calls[o].at.None? && f.calls.Keys == e.calls.Keys
    requires forall u :: u in e.calls && u != o ==> f.calls[u] == e.calls[u]
    requires f.calls[o].reader == e.calls[o].reader
    requires if f.calls[o].reader then
               && f.received == e.received + [Entry(o, x)] && f.accepted == e.accepted
               && f.calls[o].at == Some(|e.received|)
             else
               && f.accepted == e.accepted + [Entry(o, x)] && f.received == e.received
               && f.calls[o].at == Some(|e.accepted|)
    ensures Logs(f)
  {
    forall i | 0 <= i < |f.received| ensures OwnEntry(f, f.received[i].o, true, i) {
      if i < |e.received| { assert OwnEntry(e, e.received[i].o, true, i); }
    }
    forall i | 0 <= i < |f.accepted| ensures OwnEntry(f, f.accepted[i].o, false, i) {
      if i < |e.accepted| { assert OwnEntry(e, e.accepted[i].o, false, i); }
    }
    forall u | u in f.calls && f.calls[u].at.Some? ensures InLog(f, u) {
      if u != o { assert InLog(e, u); }
    }
  }

  lemma TailOf(s: seq<nat>)
    requires s != []
    ensures forall u :: u in s <==> u == s[0] || u in s[1..]
    ensures forall i :: 0 <= i < |s| - 1 ==> s[1..][i] == s[i + 1]
  {
    assert s == [s[0]] + s[1..];
  }

  lemma QueueHead(e: Env, busy: set<nat>)
    requires EnvOk(e, busy) && e.wq != []
    ensures var o := e.wq[0];
      && o in e.calls && o !in busy && CallOk(e, o) && e.calls[o].rec.Some? && e.calls[o].rec.value.done.Pending?
      && (if Wins(e, o) then WaitingOk(e.calls[o]) else e.timed && TimedOutOk(e.calls[o]))
    ensures forall u :: u != e.wq[0] ==> (u in e.wq <==> u in e.wq[1..])
    ensures e.wq[0] !in e.wq[1..]
    ensures forall f: Env :: f.wq == e.wq[1..] && f.calls.Keys == e.calls.Keys && f.asleep <= e.asleep ==> Lists(f)
  {
    TailOf(e.wq);
    assert CallOk(e, e.wq[0]);
  }

  // ----- dropping waiters that have timed out

  lemma DroppedIs(k: Call, destroy: bool)
    requires k.ok && k.rec.Some? && k.past.None? && TimedOutOk(k) && (destroy <==> !k.reader)
    ensures var w := k.rec.value;
      Dropped(k, destroy) == k.(rec := None, past := Some(if w.own then w.(buf := Raw) else w))
  {
  }

  lemma DropLoserOk(e: Env, busy: set<nat>, destroy: bool)
    requires EnvOk(e, busy) && e.wq != [] && !Wins(e, e.wq[0])
    requires if destroy then AllWriters(e) else AllReaders(e)
    ensures var o, f := e.wq[0], DropLoser(PopFront(e), e.wq[0], destroy);
      && EnvOk(f, busy) && Progress(e, f) && o !in busy && f.calls.Keys == e.calls.Keys
      && f == e.(wq := e.wq[1..], calls := f.calls) && f.calls[o].reader == e.calls[o].reader
      && (forall u :: u in e.calls && u != o ==> f.calls[u] == e.calls[u])
  {
    hide Logs, Lists;
    var o, f := e.wq[0], DropLoser(PopFront(e), e.wq[0], destroy);
    QueueHead(e, busy);
    DroppedIs(e.calls[o], destroy);
    LogsSame(e, f, o);
    assert ReturnedOk(f, f.calls[o]);
    Changed(e, busy, f, busy, o);
  }

  lemma {:induction false} DropLosersOk(e: Env, busy: set<nat>, destroy: bool)
    requires EnvOk(e, busy)
    requires if destroy then AllWriters(e) else AllReaders(e)
    ensures var f := DropLosers(e, destroy);
      && EnvOk(f, busy) && Progress(e, f) && f.calls.Keys == e.calls.Keys
      && f == e.(wq := f.wq, calls := f.calls)
      && (forall u :: u in busy && u in e.calls ==> f.calls[u] == e.calls[u])
      && (if destroy then AllWriters(f) else AllReaders(f))
      && (f.wq != [] ==> Wins(f, f.wq[0]))
    decreases |e.wq|
  {
    hide EnvOk, Settled, DropLoser, Wins;
    if e.wq != [] && !Wins(e, e.wq[0]) {
      DropLoserOk(e, busy, destroy);
      TailOf(e.wq);
      var f := DropLoser(PopFront(e), e.wq[0], destroy);
      DropLosersOk(f, busy, destroy);
      ProgressTrans(e, f, DropLosers(f, destroy));
    } else {
      ProgressRefl(e);
    }
  }

  lemma ProgressRefl(e: Env)
    ensures Progress(e, e)
  {
  }

  // ----- serving the head of the queue

  lemma AcceptedIs(k: Call, timed: bool, n: nat)
    requires k.ok && k.rec.Some? && WaitingOk(k) && !k.reader
    ensures Peek(k, PlaceOf(k)) == k.input
    ensures var w := k.rec.value;
      var x := w.(status := ClaimedStatus(timed), done := Delivered, buf := if w.own then Raw else w.buf);
      Accepted(k, timed, n) == k.(rec := Some(x), arg := if !w.own && w.mv then Moved else k.arg, at := Some(n))
  {
  }

  lemma ServedIs(k: Call, timed: bool, x: Value, n: nat)
    requires k.ok && k.rec.Some? && WaitingOk(k) && k.reader
    ensures var w := k.rec.value;
      var v := w.(status := ClaimedStatus(timed), done := Delivered, buf := if w.own then Live(x) else w.buf);
      Served(k, timed, x, n) == k.(rec := Some(v), arg := if w.own then k.arg else Live(x), at := Some(n))
  {
  }

  /** Waking the caller of a record completes what serving it began. */
  lemma WakeUpIs(e: Env, o: nat)
    requires o in e.calls && e.calls[o].rec.Some?
    ensures var k, f := e.calls[o], WakeUp(e, o);
      && f == e.(calls := f.calls, asleep := f.asleep) && f.calls.Keys == e.calls.Keys
      && f.calls[o] == k.(wakes := k.wakes + if k.rec.value.co then 1 else 0)
      && (forall u :: u in e.calls && u != o ==> f.calls[u] == e.calls[u])
      && f.asleep <= e.asleep && (!k.rec.value.co ==> f.asleep == {})
  {
  }

  lemma AcceptHeadOk(e: Env, busy: set<nat>)
    requires EnvOk(e, busy) && e.wq != [] && Wins(e, e.wq[0]) && AllWriters(e)
    ensures var o, f := e.wq[0], AcceptHead(e);
      && EnvOk(f, busy) && Progress(e, f) && o !in busy && o in e.calls && HeadValue(e) == e.calls[o].input
      && f == e.(wq := e.wq[1..], calls := f.calls, asleep := f.asleep,
        accepted := e.accepted + [Entry(o, e.calls[o].input)])
      && f.calls.Keys == e.calls.Keys && Record(f.calls[o]).Some? && !Record(f.calls[o]).value.done.Pending?
      && (forall u :: u in e.calls && u != o ==> f.calls[u] == e.calls[u])
  {
    hide Logs, Lists, Wins, WakeUp;
    var o, g, f := e.wq[0], TakeHead(e), AcceptHead(e);
    QueueHead(e, busy);
    AcceptedIs(e.calls[o], e.timed, |e.accepted|);
    WakeUpIs(g, o);
    LogsGrow(e, f, o, e.calls[o].input);
    assert ServedOk(f, f.calls[o]);
    Changed(e, busy, f, busy, o);
  }

  lemma ServeHeadOk(e: Env, busy: set<nat>, x: Value)
    requires EnvOk(e, busy) && e.wq != [] && Wins(e, e.wq[0]) && (e.wq[0] in e.calls ==> e.calls[e.wq[0]].reader)
    ensures var o, f := e.wq[0], ServeHead(e, x);
      && EnvOk(f, busy) && Progress(e, f) && o !in busy && o in e.calls
      && f == e.(wq := e.wq[1..], calls := f.calls, asleep := f.asleep, received := e.received + [Entry(o, x)])
      && f.calls.Keys == e.calls.Keys
      && (forall u :: u in e.calls && u != o ==> f.calls[u] == e.calls[u]) && f.calls[o].reader
  {
    hide Logs, Lists, Wins, ServeHead, CallOk, Settled;
    var o, f := e.wq[0], ServeHead(e, x);
    QueueHead(e, busy);
    HeadServed(e, busy, x);
    LogsGrow(e, f, o, x);
    Changed(e, busy, f, busy, o);
  }

  lemma HeadServed(e: Env, busy: set<nat>, x: Value)
    requires EnvOk(e, busy) && e.wq != [] && Wins(e, e.wq[0]) && (e.wq[0] in e.calls ==> e.calls[e.wq[0]].reader)
    ensures var o, f := e.wq[0], ServeHead(e, x);
      && o in e.calls && CallOk(f, o) && Settled(e.calls[o], f.calls[o])
      && e.calls[o].at.None? && f.calls[o].at == Some(|e.received|) && e.calls[o].reader && f.calls[o].reader
      && f == e.(wq := e.wq[1..], calls := f.calls, asleep := f.asleep, received := e.received + [Entry(o, x)])
      && f.calls.Keys == e.calls.Keys && f.asleep <= e.asleep
      && (forall u :: u in e.calls && u != o ==> f.calls[u] == e.calls[u])
  {
    hide Logs, Lists, Wins, WakeUp;
    var o, f := e.wq[0], ServeHead(e, x);
    QueueHead(e, busy);
    ServedIs(e.calls[o], e.timed, x, |e.received|);
    WakeUpIs(GiveHead(e, x), o);
    assert ServedOk(f, f.calls[o]);
  }

  // ----- beginning and ending a call

  lemma BusyFacts(e: Env, o: nat)
    requires EnvOk(e, {o})
    ensures Logs(e) && Lists(e) && BusyOk(e, o)
  {
  }

  lemma StartOk(e: Env, o: nat, reader: bool, x: Value)
    requires EnvOk(e, {}) && o !in e.calls
    ensures var f := Set(e, o, Started(reader, x)); EnvOk(f, {o}) && Progress(e, f) && o !in e.wq
  {
    hide Logs;
    var f := Set(e, o, Started(reader, x));
    LogsSame(e, f, o);
    Changed(e, {}, f, {o}, o);
  }

  lemma ReturnOk(e: Env, o: nat, done: bool)
    requires EnvOk(e, {o}) && o in e.calls && ReturnedOk(e, e.calls[o].(res := Some(done)))
    ensures EnvOk(Done(e, o, done), {}) && Progress(e, Done(e, o, done))
    ensures Done(e, o, done) == e.(calls := e.calls[o := e.calls[o].(res := Some(done))])
  {
    hide Logs;
    var f := Done(e, o, done);
    BusyFacts(e, o);
    LogsSame(e, f, o);
    assert CallOk(f, o);
    Changed(e, {o}, f, {}, o);
  }

  lemma ReceiveOk(e: Env, o: nat, x: Value)
    requires EnvOk(e, {o}) && o in e.calls && e.calls[o].reader && e.calls[o].at.None? && e.calls[o].arg.Live?
    ensures EnvOk(Receive(e, o, x), {o}) && Progress(e, Receive(e, o, x))
    ensures Receive(e, o, x) == e.(calls := e.calls[o := e.calls[o].(arg := Live(x), at := Some(|e.received|))],
                                   received := e.received + [Entry(o, x)])
  {
    hide Logs;
    var f := Receive(e, o, x);
    BusyFacts(e, o);
    LogsGrow(e, f, o, x);
    Changed(e, {o}, f, {o}, o);
  }

  lemma GiveOk(e: Env, o: nat, mv: bool)
    requires EnvOk(e, {o}) && o in e.calls && !e.calls[o].reader && e.calls[o].at.None? && e.calls[o].arg.Live?
    ensures var x := Peek(e.calls[o], Arg); var f := Give(e, o, x, mv);
      && x == e.calls[o].arg.v && EnvOk(f, {o}) && Progress(e, f)
      && f == e.(calls := e.calls[o := e.calls[o].(arg := if mv then Moved else e.calls[o].arg,
                                                   at := Some(|e.accepted|))],
                 accepted := e.accepted + [Entry(o, x)])
  {
    hide Logs;
    var x := Peek(e.calls[o], Arg);
    var f := Give(e, o, x, mv);
    BusyFacts(e, o);
    LogsGrow(e, f, o, x);
    Changed(e, {o}, f, {o}, o);
  }

  lemma EnqueueOk(e: Env, o: nat, w: Waiter)
    requires EnvOk(e, {o}) && o in e.calls && w.done.Pending?
    requires WaitingOk(e.calls[o].(rec := Some(w)))
    ensures EnvOk(Enqueue(e, o, w), {}) && Progress(e, Enqueue(e, o, w))
  {
    hide Logs;
    var f := Enqueue(e, o, w);
    BusyFacts(e, o);
    LogsSame(e, f, o);
    assert CallOk(f, o);
    Changed(e, {o}, f, {}, o);
  }

  // ----- the steps

  lemma ReadBuffered(c: Chan, o: nat, co: bool, onStack: bool, init: Value)
    requires Inv(c) && o !in c.e.calls && c.q != []
    ensures Inv(ReadStep(c, o, co, onStack, init)) && Progress(c.e, ReadStep(c, o, co, onStack, init).e)
  {
    hide EnvOk, Receive, Done, DropLosers, AcceptHead, HeadValue, Settled;
    var e, x := Set(c.e, o, Started(true, init)), c.q[0];
    StartOk(c.e, o, true, init);
    ReceiveOk(e, o, x);
    ValsMore(e.received, Entry(o, x));
    var e1 := Receive(e, o, x);
    ProgressTrans(c.e, e, e1);
    if !c.Full() {
      ReturnOk(e1, o, true);
      ProgressTrans(c.e, e1, Done(e1, o, true));
    } else {
      ReadRefills(c, e1, o);
    }
  }

  /** The part of a read that fills the freed place from the first writer still waiting. */
  lemma ReadRefills(c: Chan, e1: Env, o: nat)
    requires Shape(c) && c.q != [] && c.Full() && EnvOk(e1, {o}) && AllWriters(e1) && Progress(c.e, e1)
    requires o in e1.calls && ReturnedOk(e1, e1.calls[o].(res := Some(true))) && e1.calls[o].reader
    requires Vals(e1.accepted) == Vals(e1.received) + c.q[1..]
    ensures var e2 := DropLosers(e1, true);
      var d := if e2.wq == [] then c.(q := c.q[1..], e := Done(e2, o, true))
               else c.(q := c.q[1..] + [HeadValue(e2)], e := Done(AcceptHead(e2), o, true));
      Inv(d) && Progress(c.e, d.e)
  {
    hide EnvOk, Done, DropLosers, HeadValue, AcceptHead, Settled, Wins;
    DropLosersOk(e1, {o}, true);
    var e2 := DropLosers(e1, true);
    ProgressTrans(c.e, e1, e2);
    if e2.wq == [] {
      ReturnOk(e2, o, true);
      ProgressTrans(c.e, e2, Done(e2, o, true));
    } else {
      RefillAccepts(c, e2, o);
    }
  }

  lemma RefillAccepts(c: Chan, e2: Env, o: nat)
    requires Shape(c) && c.q != [] && c.Full() && EnvOk(e2, {o}) && AllWriters(e2) && Progress(c.e, e2)
    requires e2.wq != [] && Wins(e2, e2.wq[0])
    requires o in e2.calls && ReturnedOk(e2, e2.calls[o].(res := Some(true))) && e2.calls[o].reader
    requires Vals(e2.accepted) == Vals(e2.received) + c.q[1..]
    ensures var d := c.(q := c.q[1..] + [HeadValue(e2)], e := Done(AcceptHead(e2), o, true));
        Inv(d) && Progress(c.e, d.e)
  {
    hide EnvOk, Done, HeadValue, AcceptHead, Settled, Wins, AllWriters;
    var e3 := AcceptHead(e2);
    AcceptHeadOk(e2, {o});
    ValsMore(e2.accepted, Entry(e2.wq[0], HeadValue(e2)));
    TailOf(e2.wq);
    ProgressTrans(c.e, e2, e3);
    ReturnOk(e3, o, true);
    ProgressTrans(c.e, e3, Done(e3, o, true));
    ProgressTrans(e2, e3, Done(e3, o, true));
    BusyFacts(e2, o);
    WritersStay(e2, Done(e3, o, true));
  }

  lemma WritersStay(e: Env, f: Env)
    requires AllWriters(e) && Lists(e) && Progress(e, f) && forall u :: u in f.wq ==> u in e.wq
    ensures AllWriters(f)
  {
  }

  lemma ReadersStay(e: Env, f: Env)
    requires AllReaders(e) && Lists(e) && Progress(e, f) && forall u :: u in f.wq ==> u in e.wq
    ensures AllReaders(f)
  {
  }

  lemma ReadEmpty(c: Chan, o: nat, co: bool, onStack: bool, init: Value)
    requires Inv(c) && o !in c.e.calls && c.q == []
    ensures Inv(ReadStep(c, o, co, onStack, init)) && Progress(c.e, ReadStep(c, o, co, onStack, init).e)
  {
    hide EnvOk, Done, Settled;
    var e := Set(c.e, o, Started(true, init));
    StartOk(c.e, o, true, init);
    if c.closed != 0 {
      ReturnOk(e, o, false);
      ProgressTrans(c.e, e, Done(e, o, false));
    } else {
      var w := ReaderRecord(co, onStack);
      EnqueueOk(e, o, w);
      ProgressTrans(c.e, e, Enqueue(e, o, w));
    }
  }

  lemma WriteRefused(c: Chan, o: nat, co: bool, onStack: bool, val: Value, mv: bool)
    requires Inv(c) && o !in c.e.calls && c.closed != 0
    ensures Inv(WriteStep(c, o, co, onStack, val, mv)) && Progress(c.e, WriteStep(c, o, co, onStack, val, mv).e)
  {
    hide EnvOk, Done, Settled;
    var e := Set(c.e, o, Started(false, val));
    StartOk(c.e, o, false, val);
    ReturnOk(e, o, false);
    ProgressTrans(c.e, e, Done(e, o, false));
  }

  /** The object of a writer may be moved out while its call is going on. */
  lemma MoveOutOk(e: Env, o: nat, mv: bool)
    requires EnvOk(e, {o}) && o in e.calls && e.calls[o].arg.Live?
    ensures var f := Set(e, o, Take(e.calls[o], Arg, mv));
      && EnvOk(f, {o}) && Progress(e, f)
      && f.calls[o] == e.calls[o].(arg := if mv then Moved else e.calls[o].arg)
  {
    hide Logs;
    var f := Set(e, o, Take(e.calls[o], Arg, mv));
    BusyFacts(e, o);
    LogsSame(e, f, o);
    Changed(e, {o}, f, {o}, o);
  }

  lemma WriteWaits(c: Chan, o: nat, co: bool, onStack: bool, val: Value, mv: bool)
    requires Inv(c) && o !in c.e.calls && c.closed == 0 && c.q != [] && c.Full()
    ensures Inv(WriteStep(c, o, co, onStack, val, mv)) && Progress(c.e, WriteStep(c, o, co, onStack, val, mv).e)
  {
    hide EnvOk, Settled;
    var e := Set(c.e, o, Started(false, val));
    StartOk(c.e, o, false, val);
    var w := WriterRecord(co, onStack, val, mv);
    MoveOutOk(e, o, mv);
    var e1 := if w.own then Set(e, o, Take(e.calls[o], Arg, mv)) else e;
    ProgressRefl(e);
    EnqueueOk(e1, o, w);
    ProgressTrans(c.e, e, e1);
    ProgressTrans(c.e, e1, Enqueue(e1, o, w));
  }

  lemma WriteBuffered(c: Chan, o: nat, co: bool, onStack: bool, val: Value, mv: bool)
    requires Inv(c) && o !in c.e.calls && c.closed == 0 && c.q != [] && !c.Full()
    ensures Inv(WriteStep(c, o, co, onStack, val, mv)) && Progress(c.e, WriteStep(c, o, co, onStack, val, mv).e)
  {
    hide EnvOk, Settled, Give, Done;
    var e := Set(c.e, o, Started(false, val));
    StartOk(c.e, o, false, val);
    GiveReturns(c.e, e, o, mv);
  }

  /** The end of a write whose element is taken at once. */
  lemma GiveReturns(e0: Env, e: Env, o: nat, mv: bool)
    requires EnvOk(e, {o}) && Progress(e0, e)
    requires o in e.calls && !e.calls[o].reader && e.calls[o].at.None? && e.calls[o].arg == Live(e.calls[o].input)
    ensures var x := Peek(e.calls[o], Arg); var f := Done(Give(e, o, x, mv), o, true);
      && EnvOk(f, {}) && Progress(e0, f) && x == e.calls[o].input
      && f.wq == e.wq && f.received == e.received && Vals(f.accepted) == Vals(e.accepted) + [x]
      && (forall u :: u in e.calls ==> u in f.calls && f.calls[u].reader == e.calls[u].reader)
      && f.calls.Keys == e.calls.Keys
  {
    hide EnvOk, Settled, Give, Done;
    var x := Peek(e.calls[o], Arg);
    GiveOk(e, o, mv);
    ValsMore(e.accepted, Entry(o, x));
    var f := Give(e, o, x, mv);
    assert ReturnedOk(f, f.calls[o].(res := Some(true))) by { BusyFacts(e, o); }
    ReturnOk(f, o, true);
    ProgressTrans(e0, e, f);
    ProgressTrans(e0, f, Done(f, o, true));
  }

  lemma WriteEmpty(c: Chan, o: nat, co: bool, onStack: bool, val: Value, mv: bool)
    requires Inv(c) && o !in c.e.calls && c.closed == 0 && c.q == []
    ensures Inv(WriteStep(c, o, co, onStack, val, mv)) && Progress(c.e, WriteStep(c, o, co, onStack, val, mv).e)
  {
    hide EnvOk, Settled, Give, Done, DropLosers, ServeHead, Wins;
    var e := Set(c.e, o, Started(false, val));
    StartOk(c.e, o, false, val);
    DropLosersOk(e, {o}, false);
    var e1 := DropLosers(e, false);
    ProgressTrans(c.e, e, e1);
    if e1.wq == [] {
      GiveReturns(c.e, e1, o, mv);
    } else {
      ServeHeadOk(e1, {o}, val);
      var e2 := ServeHead(e1, val);
      ValsMore(e1.received, Entry(e1.wq[0], val));
      TailOf(e1.wq);
      ProgressTrans(c.e, e1, e2);
      GiveReturns(c.e, e2, o, mv);
    }
  }

  lemma TimeoutKeeps(c: Chan, o: nat)
    requires EnvOk(c.e, {}) && Enabled(c, Timeout(o))
    ensures EnvOk(TimeoutStep(c, o).e, {}) && Progress(c.e, TimeoutStep(c, o).e)
    ensures Inv(c) ==> Inv(TimeoutStep(c, o))
  {
    hide Logs;
    var f := TimeoutStep(c, o).e;
    assert CallOk(c.e, o);
    LogsSame(c.e, f, o);
    assert TimedOutOk(f.calls[o]);
    Changed(c.e, {}, f, {}, o);
  }

  lemma ContinuedIs(e: Env, k: Call)
    requires k.ok && k.rec.Some? && !k.rec.value.done.Pending? && ServedOk(e, k)
    ensures var w, m := k.rec.value, Continued(k);
      var moved := k.reader && w.done.Delivered? && w.own;
      m == k.(rec := None, past := Some(if moved then w.(buf := Raw) else w), res := Some(w.done.Delivered?),
              arg := if moved then w.buf else k.arg)
  {
  }

  lemma ResumeKeeps(c: Chan, o: nat)
    requires EnvOk(c.e, {}) && o in c.e.calls && c.e.calls[o].rec.Some? && !c.e.calls[o].rec.value.done.Pending?
    ensures EnvOk(ResumeStep(c, o).e, {}) && Progress(c.e, ResumeStep(c, o).e)
    ensures Inv(c) ==> Inv(ResumeStep(c, o))
    ensures ResumeStep(c, o).e.calls[o].res == Some(c.e.calls[o].rec.value.done.Delivered?)
  {
    hide Logs, Continued;
    var f := ResumeStep(c, o).e;
    assert CallOk(c.e, o);
    ContinuedIs(c.e, c.e.calls[o]);
    LogsSame(c.e, f, o);
    assert ReturnedOk(f, f.calls[o]);
    Changed(c.e, {}, f, {}, o);
  }

  /** A coroutine that was handed to its scheduler, and has not continued, has its verdict. */
  lemma WokenHasVerdict(c: Chan, o: nat)
    requires EnvOk(c.e, {}) && Enabled(c, Resume(o))
    ensures c.e.calls[o].rec.Some? && !c.e.calls[o].rec.value.done.Pending?
  {
    assert CallOk(c.e, o);
  }

  lemma AwakeKeeps(c: Chan, o: nat)
    requires EnvOk(c.e, {}) && Enabled(c, Awake(o))
    ensures EnvOk(AwakeStep(c, o).e, {}) && Progress(c.e, AwakeStep(c, o).e)
    ensures Inv(c) ==> Inv(AwakeStep(c, o))
  {
    hide Logs, ResumeStep;
    assert CallOk(c.e, o);
    var w := c.e.calls[o].rec.value;
    if w.done.Pending? {
      var f := AwakeStep(c, o).e;
      LogsSame(c.e, f, o);
      Changed(c.e, {}, f, {}, o);
    } else {
      assert c.e.asleep - {o} == c.e.asleep;
      ResumeKeeps(c, o);
    }
  }

  lemma CloseOneOk(e: Env, os: seq<nat>)
    requires e.wq == [] && os != [] && EnvOk(e.(wq := os), {}) && AllReaders(e.(wq := os))
    ensures var f := CloseOne(e, os[0]);
      && EnvOk(f.(wq := os[1..]), {}) && AllReaders(f.(wq := os[1..])) && Progress(e, f)
      && f == e.(calls := f.calls, asleep := f.asleep) && f.calls.Keys == e.calls.Keys
  {
    hide Logs, Lists, CloseOne, CallOk, Settled;
    var g, o := e.(wq := os), os[0];
    var f := CloseOne(e, o);
    QueueHead(g, {});
    ClosedOne(e, os);
    LogsSame(g, f.(wq := os[1..]), o);
    Changed(g, {}, f.(wq := os[1..]), {}, o);
    ReadersStay(g, f.(wq := os[1..])) by { TailOf(os); ListsOf(g); }
  }

  lemma ClosedOne(e: Env, os: seq<nat>)
    requires e.wq == [] && os != [] && EnvOk(e.(wq := os), {}) && AllReaders(e.(wq := os))
    ensures var o, f := os[0], CloseOne(e, os[0]);
      && o in e.calls && f == e.(calls := f.calls, asleep := f.asleep) && f.calls.Keys == e.calls.Keys
      && CallOk(f.(wq := os[1..]), o) && Settled(e.calls[o], f.calls[o]) && f.asleep <= e.asleep
      && f.calls[o].at == e.calls[o].at && f.calls[o].reader == e.calls[o].reader
      && (forall u :: u in e.calls && u != o ==> f.calls[u] == e.calls[u])
  {
    hide Logs, Lists, WakeUp;
    var g, o := e.(wq := os), os[0];
    QueueHead(g, {});
    var k := e.calls[o];
    if k.rec.value.status.Waiting? {
      WakeUpIs(Set(e, o, Settle(k, Ready, ChannelClosed)), o);
    }
  }

  lemma ListsOf(e: Env)
    requires EnvOk(e, {})
    ensures Lists(e)
  {
  }

  lemma {:induction false} CloseEachOk(e: Env, os: seq<nat>)
    requires e.wq == [] && EnvOk(e.(wq := os), {}) && AllReaders(e.(wq := os))
    ensures var f := CloseEach(e, os);
      && EnvOk(f, {}) && Progress(e, f)
      && f == e.(calls := f.calls, asleep := f.asleep) && f.calls.Keys == e.calls.Keys
    decreases |os|
  {
    hide EnvOk, CloseOne, Settled;
    if os != [] {
      CloseOneOk(e, os);
      CloseEachOk(CloseOne(e, os[0]), os[1..]);
      ProgressTrans(e, CloseOne(e, os[0]), CloseEach(e, os));
    } else {
      assert e.(wq := os) == e;
      ProgressRefl(e);
    }
  }

  lemma CloseEndKeeps(c: Chan)
    requires Inv(c)
    ensures Inv(Step(c, CloseEnd)) && Progress(c.e, Step(c, CloseEnd).e)
  {
    hide EnvOk, CloseEach, Settled;
    if c.q == [] {
      assert c.e.(wq := []).(wq := c.e.wq) == c.e;
      CloseEachOk(c.e.(wq := []), c.e.wq);
    } else {
      ProgressRefl(c.e);
    }
  }

  /** Every step that can happen keeps the invariant and takes back nothing. */
  lemma StepKeepsInv(c: Chan, ev: Event)
    requires Inv(c) && Enabled(c, ev)
    ensures Inv(Step(c, ev)) && Progress(c.e, Step(c, ev).e)
  {
    hide EnvOk, ReadStep, WriteStep, TimeoutStep, ResumeStep, AwakeStep, CloseEach, Settled;
    match ev
    case Read(o, co, onStack, init) =>
      if c.q != [] { ReadBuffered(c, o, co, onStack, init); } else { ReadEmpty(c, o, co, onStack, init); }
    case Write(o, co, onStack, val, mv) =>
      if c.closed != 0 { WriteRefused(c, o, co, onStack, val, mv); }
      else if c.q != [] && c.Full() { WriteWaits(c, o, co, onStack, val, mv); }
      else if c.q == [] { WriteEmpty(c, o, co, onStack, val, mv); }
      else { WriteBuffered(c, o, co, onStack, val, mv); }
    case Timeout(o) => TimeoutKeeps(c, o);
    case Resume(o) => WokenHasVerdict(c, o); ResumeKeeps(c, o);
    case Awake(o) => AwakeKeeps(c, o);
    case CloseBegin => ProgressRefl(c.e);
    case CloseEnd => CloseEndKeeps(c);
  }

  lemma InitInv(cap: nat, timed: bool)
    ensures Inv(Init(cap, timed))
  {
  }

  lemma {:induction false} RunKeepsInv(c: Chan, evs: seq<Event>)
    requires Inv(c) && Runs(c, evs)
    ensures Inv(Run(c, evs)) && Progress(c.e, Run(c, evs).e)
    decreases |evs|
  {
    hide Inv, Step, Settled, Enabled;
    if evs != [] {
      StepKeepsInv(c, evs[0]);
      RunKeepsInv(Step(c, evs[0]), evs[1..]);
      ProgressTrans(c.e, Step(c, evs[0]).e, Run(c, evs).e);
    } else {
      ProgressRefl(c.e);
    }
  }
}
