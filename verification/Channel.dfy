/** The bounded queue with waiting callers that `pipe_impl` and `pipe_impl_cap` of `src/co/co.cc`
    both implement: one atomic step per critical section, one per timeout, one per continuation of a
    caller that waited. */
module Channel {
  import opened Options

  /** The content of one element. */
  type Value = int

  /** Storage for one element: no object, an object, or an object that was moved from. */
  datatype Slot = Raw | Live(v: Value) | Moved

  /** `st_wait`, `st_ready` and `st_timeout`. */
  datatype Status = Waiting | Ready | TimedOut

  /** `x.done`: 0, 1 and 2. */
  datatype Verdict = Pending | Delivered | ChannelClosed

  /** A `waitx` record, of a coroutine or of a thread. `own` says that it carries its own element buffer,
      because the caller's object is on a coroutine stack; `mv` and `des` are the two bits of `x.v`. */
  datatype Waiter = Waiter(co: bool, status: Status, done: Verdict, mv: bool, des: bool, own: bool, buf: Slot)

  /** Where the object of a call lives: the buffer of its record, or the object the caller passed. */
  datatype Place = Own | Arg

  /** One call of `read` or `write` and what has happened to it.
      - `input`, `arg`: what the caller's object held at first, and what it holds now
      - `res`: the result, once the call has returned
      - `rec`, `past`: its record while it is allocated, and the record as it was when it was freed
      - `at`: the position of its value among those received or accepted
      - `wakes`: how often the coroutine was handed back to its scheduler
      - `ok`: no object was constructed over another, destroyed twice or leaked, no record was used after
        it was freed, and the caller did not continue without a verdict. */
  datatype Call = Call(reader: bool, input: Value, arg: Slot, res: Option<bool>, rec: Option<Waiter>,
                       past: Option<Waiter>, at: Option<nat>, wakes: nat, ok: bool)

  /** A value and the call that gave or got it. */
  datatype Entry = Entry(o: nat, v: Value)

  /** The wait queue, the calls so far, the values taken from writers and given to readers, in order, and
      the threads blocked on the condition variable. */
  datatype Env = Env(timed: bool, wq: seq<nat>, calls: map<nat, Call>, accepted: seq<Entry>, received: seq<Entry>,
                     asleep: set<nat>)

  /** `cap == 0` is a queue without bound; `closed` is 0, 1 (closing) or 2. */
  datatype Chan = Chan(cap: nat, closed: nat, q: seq<Value>, e: Env) {
    predicate Full() {
      cap > 0 && |q| == cap
    }
  }

  datatype Event =
    | Read(o: nat, co: bool, onStack: bool, init: Value)
    | Write(o: nat, co: bool, onStack: bool, val: Value, mv: bool)
    | Timeout(o: nat)
    | Resume(o: nat)
    | Awake(o: nat)
    | CloseBegin
    | CloseEnd

  // ----- one call: its objects and its record

  function Check(c: Call, b: bool): Call {
    c.(ok := c.ok && b)
  }

  function PlaceOf(c: Call): Place {
    if c.rec.Some? && c.rec.value.own then Own else Arg
  }

  /** A caller's object is out of reach once the call has returned. */
  function Get(c: Call, p: Place): Slot {
    match p
    case Own => if c.rec.Some? then c.rec.value.buf else Raw
    case Arg => if c.res.None? then c.arg else Raw
  }

  function Put(c: Call, p: Place, s: Slot): Call {
    match p
    case Own => if c.rec.Some? then c.(rec := Some(c.rec.value.(buf := s))) else Check(c, false)
    case Arg => c.(arg := s)
  }

  /** `_d`: there must be an object. */
  function Destroy(c: Call, p: Place): Call {
    Put(Check(c, !Get(c, p).Raw?), p, Raw)
  }

  /** `_c` into `p`: there must be no object. */
  function Construct(c: Call, p: Place, x: Value): Call {
    Put(Check(c, Get(c, p).Raw?), p, Live(x))
  }

  function Peek(c: Call, p: Place): Value {
    if Get(c, p).Live? then Get(c, p).v else 0
  }

  /** `_c` out of `p`, by copy or by move: there must be an object that was not moved from. */
  function Take(c: Call, p: Place, mv: bool): Call {
    var d := Check(c, Get(c, p).Live?);
    if mv then Put(d, p, Moved) else d
  }

  /** `free` of the record: it must be allocated and its own buffer must hold no object. */
  function Free(c: Call): Call {
    match c.rec
    case None => Check(c, false)
    case Some(w) => Check(c, w.own ==> w.buf.Raw?).(rec := None, past := Some(w))
  }

  function Return(c: Call, done: bool): Call {
    Check(c, c.res.None?).(res := Some(done))
  }

  function Settle(c: Call, status: Status, done: Verdict): Call {
    if c.rec.Some? then c.(rec := Some(c.rec.value.(status := status, done := done))) else Check(c, false)
  }

  function Started(reader: bool, x: Value): Call {
    Call(reader, x, Live(x), None, None, None, None, 0, true)
  }

  /** `_read_block`: the element moves to the caller's object. */
  function Receives(c: Call, x: Value, k: nat): Call {
    Construct(Destroy(c, Arg), Arg, x).(at := Some(k))
  }

  /** `_write_block`, on the side of the caller. */
  function Gives(c: Call, mv: bool, k: nat): Call {
    Take(c, Arg, mv).(at := Some(k))
  }

  /** The record of a waiter that has timed out is freed. Only the reading side destroys the object in
      its buffer, if the record says so. */
  function Dropped(c: Call, destroy: bool): Call {
    Free(if destroy && c.rec.Some? && c.rec.value.des then Destroy(c, PlaceOf(c)) else c)
  }

  /** Without a time limit the state of a waiter stays as it is. */
  function ClaimedStatus(timed: bool): Status {
    if timed then Ready else Waiting
  }

  /** A queued writer whose value goes into the buffer. */
  function Accepted(c: Call, timed: bool, k: nat): Call {
    if c.rec.None? then Check(c, false) else
      var p, w := PlaceOf(c), c.rec.value;
      var d := Take(Check(c, !c.reader), p, w.mv);
      Settle(if w.des then Destroy(d, p) else d, ClaimedStatus(timed), Delivered).(at := Some(k))
  }

  /** A queued reader that is given a value. */
  function Served(c: Call, timed: bool, x: Value, k: nat): Call {
    if c.rec.None? then Check(c, false) else
      var p, w := PlaceOf(c), c.rec.value;
      var d := Settle(Check(c, c.reader), ClaimedStatus(timed), Delivered);
      Construct(if w.des || !w.co then Destroy(d, p) else d, p, x).(at := Some(k))
  }

  /** A caller that waited continues; it must have got a verdict. A reader moves the element out of the
      record's own buffer. */
  function Continued(c: Call): Call {
    if c.rec.None? then Check(c, false) else
      var w := c.rec.value;
      var d := Check(c, !w.done.Pending?);
      var f :=
        if c.reader && w.done.Delivered? && w.own then
          Destroy(Take(Construct(Destroy(d, Arg), Arg, Peek(d, Own)), Own, true), Own)
        else d;
      Return(Free(f), w.done.Delivered?)
  }

  // ----- the calls together

  const UNKNOWN := Call(false, 0, Raw, None, None, None, None, 0, false)

  function Of(e: Env, o: nat): Call {
    if o in e.calls then e.calls[o] else UNKNOWN
  }

  function Set(e: Env, o: nat, c: Call): Env {
    e.(calls := e.calls[o := c])
  }

  function Done(e: Env, o: nat, done: bool): Env {
    Set(e, o, Return(Of(e, o), done))
  }

  function Receive(e: Env, o: nat, x: Value): Env {
    Set(e, o, Receives(Of(e, o), x, |e.received|)).(received := e.received + [Entry(o, x)])
  }

  /** The value `x` was read from the caller's object before. */
  function Give(e: Env, o: nat, x: Value, mv: bool): Env {
    Set(e, o, Gives(Of(e, o), mv, |e.accepted|)).(accepted := e.accepted + [Entry(o, x)])
  }

  /** A caller joins the wait queue. A thread blocks on the condition variable until it is notified, or
      for no reason. */
  function Enqueue(e: Env, o: nat, w: Waiter): Env {
    Set(e, o, Of(e, o).(rec := Some(w))).(wq := e.wq + [o], asleep := if w.co then e.asleep else e.asleep + {o})
  }

  /** `add_ready_task` for a coroutine; `notify_all`, which wakes every blocked thread, for a thread. */
  function WakeUp(e: Env, o: nat): Env {
    var c := Of(e, o);
    if c.rec.Some? && c.rec.value.co then Set(e, o, c.(wakes := c.wakes + 1)) else e.(asleep := {})
  }

  // ----- the wait queue

  /** Without a time limit the state of a waiter is not looked at; with one, the compare-and-swap
      from waiting to ready decides. */
  predicate Wins(e: Env, o: nat) {
    !e.timed || (Of(e, o).rec.Some? && Of(e, o).rec.value.status.Waiting?)
  }

  function PopFront(e: Env): Env {
    e.(wq := if e.wq == [] then [] else e.wq[1..])
  }

  function DropLoser(e: Env, o: nat, destroy: bool): (f: Env)
    ensures f.wq == e.wq
  {
    Set(e, o, Dropped(Of(e, o), destroy))
  }

  /** Pops waiters that have timed out until the queue is empty or its head can be served. */
  function DropLosers(e: Env, destroy: bool): Env
    decreases |e.wq|
  {
    if e.wq == [] || Wins(e, e.wq[0]) then e
    else DropLosers(DropLoser(PopFront(e), e.wq[0], destroy), destroy)
  }

  /** The value of the writer at the head of the queue. */
  function HeadValue(e: Env): Value
    requires e.wq != []
  {
    Peek(Of(e, e.wq[0]), PlaceOf(Of(e, e.wq[0])))
  }

  /** A reader has freed a place: the value of the writer at the head goes into the buffer. */
  function TakeHead(e: Env): Env
    requires e.wq != []
  {
    var o := e.wq[0];
    Set(PopFront(e), o, Accepted(Of(e, o), e.timed, |e.accepted|)).(accepted := e.accepted + [Entry(o, HeadValue(e))])
  }

  /** Then the writer is woken. */
  function AcceptHead(e: Env): Env
    requires e.wq != []
  {
    WakeUp(TakeHead(e), e.wq[0])
  }

  /** A writer hands its value directly to the reader at the head. */
  function GiveHead(e: Env, x: Value): Env
    requires e.wq != []
  {
    var o := e.wq[0];
    Set(PopFront(e), o, Served(Of(e, o), e.timed, x, |e.received|)).(received := e.received + [Entry(o, x)])
  }

  /** Then the reader is woken. */
  function ServeHead(e: Env, x: Value): Env
    requires e.wq != []
  {
    WakeUp(GiveHead(e, x), e.wq[0])
  }

  /** `close` wakes a popped waiter that has not timed out, and frees the record of one that has. */
  function CloseOne(e: Env, o: nat): Env {
    var c := Of(e, o);
    if c.rec.Some? && c.rec.value.status.Waiting? then WakeUp(Set(e, o, Settle(c, Ready, ChannelClosed)), o)
    else Set(e, o, Free(c))
  }

  function CloseEach(e: Env, os: seq<nat>): Env
    decreases |os|
  {
    if os == [] then e else CloseEach(CloseOne(e, os[0]), os[1..])
  }

  // ----- the steps

  /** The record of a waiting reader: without an own buffer, a coroutine has its object destroyed first. */
  function ReaderRecord(co: bool, onStack: bool): Waiter {
    var own := co && onStack;
    Waiter(co, Waiting, Pending, false, co && !own, own, Raw)
  }

  /** The record of a waiting writer of the value `x`. */
  function WriterRecord(co: bool, onStack: bool, x: Value, mv: bool): Waiter {
    var own := co && onStack;
    Waiter(co, Waiting, Pending, own || mv, own, own, if own then Live(x) else Raw)
  }

  function ReadStep(c: Chan, o: nat, co: bool, onStack: bool, init: Value): Chan {
    var e := Set(c.e, o, Started(true, init));
    if c.q != [] then
      var e1 := Receive(e, o, c.q[0]);
      if !c.Full() then c.(q := c.q[1..], e := Done(e1, o, true))
      else
        var e2 := DropLosers(e1, true);
        if e2.wq == [] then c.(q := c.q[1..], e := Done(e2, o, true))
        else c.(q := c.q[1..] + [HeadValue(e2)], e := Done(AcceptHead(e2), o, true))
    else if c.closed != 0 then c.(e := Done(e, o, false))
    else c.(e := Enqueue(e, o, ReaderRecord(co, onStack)))
  }

  function WriteStep(c: Chan, o: nat, co: bool, onStack: bool, val: Value, mv: bool): Chan {
    var e := Set(c.e, o, Started(false, val));
    if c.closed != 0 then c.(e := Done(e, o, false))
    else if c.q == [] then
      var e1 := DropLosers(e, false);
      var x := Peek(Of(e1, o), Arg);
      if e1.wq == [] then c.(q := [x], e := Done(Give(e1, o, x, mv), o, true))
      else c.(e := Done(Give(ServeHead(e1, x), o, x, mv), o, true))
    else if !c.Full() then
      var x := Peek(Of(e, o), Arg);
      c.(q := c.q + [x], e := Done(Give(e, o, x, mv), o, true))
    else
      var w := WriterRecord(co, onStack, Peek(Of(e, o), Arg), mv);
      c.(e := Enqueue(if w.own then Set(e, o, Take(Of(e, o), Arg, mv)) else e, o, w))
  }

  function TimeoutStep(c: Chan, o: nat): Chan {
    var w := Of(c.e, o).rec;
    if w.None? then c else
      c.(e := Set(c.e, o, Return(Settle(Of(c.e, o), TimedOut, w.value.done), false)).(asleep := c.e.asleep - {o}))
  }

  function ResumeStep(c: Chan, o: nat): Chan {
    c.(e := Set(c.e, o, Continued(Of(c.e, o))))
  }

  /** A blocked thread wakes up, notified or not: it continues if there is a verdict, and blocks again if
      there is none. */
  function AwakeStep(c: Chan, o: nat): Chan {
    var w := Of(c.e, o).rec;
    if w.Some? && w.value.done.Pending? then c.(e := c.e.(asleep := c.e.asleep + {o}))
    else ResumeStep(c.(e := c.e.(asleep := c.e.asleep - {o})), o)
  }

  function Step(c: Chan, ev: Event): Chan {
    match ev
    case Read(o, co, onStack, init) => ReadStep(c, o, co, onStack, init)
    case Write(o, co, onStack, val, mv) => WriteStep(c, o, co, onStack, val, mv)
    case Timeout(o) => TimeoutStep(c, o)
    case Resume(o) => ResumeStep(c, o)
    case Awake(o) => AwakeStep(c, o)
    case CloseBegin => c.(closed := 1)
    case CloseEnd => c.(closed := 2, e := if c.q == [] then CloseEach(c.e.(wq := []), c.e.wq) else c.e)
  }

  /** When a step can happen: a call has a new number, a waiter times out only while its state still
      says waiting, a coroutine resumes only after it was handed to its scheduler, a blocked thread may
      wake up at any time, and `close` runs once. */
  predicate Enabled(c: Chan, ev: Event) {
    match ev
    case Read(o, _, _, _) => o !in c.e.calls
    case Write(o, _, _, _, _) => o !in c.e.calls
    case Timeout(o) => c.e.timed && Of(c.e, o).rec.Some? && Of(c.e, o).rec.value.status.Waiting?
    case Resume(o) => o in c.e.calls && c.e.calls[o].wakes > 0 && c.e.calls[o].res.None?
    case Awake(o) =>
      o in c.e.calls && c.e.calls[o].rec.Some? && !c.e.calls[o].rec.value.co && c.e.calls[o].res.None?
    case CloseBegin => c.closed == 0
    case CloseEnd => c.closed == 1
  }

  function Init(cap: nat, timed: bool): Chan {
    Chan(cap, 0, [], Env(timed, [], map[], [], [], {}))
  }

  /** The events can happen one after the other. */
  predicate Runs(c: Chan, evs: seq<Event>)
    decreases |evs|
  {
    evs == [] || (Enabled(c, evs[0]) && Runs(Step(c, evs[0]), evs[1..]))
  }

  function Run(c: Chan, evs: seq<Event>): Chan
    decreases |evs|
  {
    if evs == [] then c else Run(Step(c, evs[0]), evs[1..])
  }
}
