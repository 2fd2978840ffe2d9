/** The loop of a scheduler, `Sched::loop` of `src/co/sched.cc`, against everything that can end the wait
    of a coroutine: an I/O event, another party that claims it, and its time limit. */
module SchedLoop {
  import opened Options

  /** What a coroutine waits for: time only, an I/O event, or a waiting context that others can claim. */
  datatype Kind = Sleep | Io | Context

  datatype End = Open | ByEvent | ByTimeout

  datatype Wait = Wait(kind: Kind, end: End)

  /** The three parts of the loop, in their order. */
  datatype Phase = IoPhase | ReadyPhase | TimeoutPhase

  /** `timers` holds the coroutines with a timer in the order of their deadlines, `stored` those that
      remember their entry, `reg` those with a live `io_event`; `ready` is filled by other parties, `batch`
      is what the loop works through.
      `ok` turns false when a coroutine is resumed that does not wait, and `honest` when the timeout flag
      misleads it. `begun` and `resumed` count waits and resumptions. */
  datatype State = State(phase: Phase, running: Option<nat>, waits: map<nat, Wait>, timers: seq<nat>, stored: set<nat>,
                         reg: set<nat>, ready: seq<nat>, batch: seq<nat>, ok: bool, honest: bool,
                         begun: nat, resumed: nat)

  datatype Event =
    | Start(co: nat)
    | AddIo
    | DelIo
    | BeginWait(kind: Kind)
    | SetTimer(pos: nat)
    | Yield
    | Finish
    | Claim(co: nat)
    | IoEvent(co: nat)
    | TakeReady
    | ResumeNext
    | CheckTimeout(n: nat)
    | NextRound

  function Init(): State {
    State(IoPhase, None, map[], [], {}, {}, [], [], true, true, 0, 0)
  }

  // ----- the steps

  function Without(s: seq<nat>, x: nat): seq<nat> {
    if s == [] then [] else
      Without(s[..|s| - 1], x) + if s[|s| - 1] == x then [] else [s[|s| - 1]]
  }

  /** `Sched::resume`: a remembered timer is removed. The flag `_timeout` is set during the last phase. */
  function Resumed(s: State, co: nat): State {
    s.(ok := s.ok && s.running.None? && co in s.waits,
       honest := s.honest && (co in s.waits ==> (s.phase.TimeoutPhase? <==> s.waits[co].end.ByTimeout?)),
       timers := if co in s.stored then Without(s.timers, co) else s.timers,
       stored := s.stored - {co}, waits := s.waits - {co}, running := Some(co), resumed := s.resumed + 1)
  }

  /** Whether `check_timeout` reports an expired coroutine: it has no waiting context, or the
      compare-and-swap on it succeeds. */
  predicate Fires(waits: map<nat, Wait>, co: nat) {
    co in waits && (waits[co].kind.Context? ==> waits[co].end.Open?)
  }

  function Fired(expired: seq<nat>, waits: map<nat, Wait>): seq<nat> {
    if expired == [] then [] else
      var co := expired[|expired| - 1];
      Fired(expired[..|expired| - 1], waits) + if Fires(waits, co) then [co] else []
  }

  function TimedOut(expired: seq<nat>, waits: map<nat, Wait>): map<nat, Wait> {
    map co | co in waits :: if co in expired && Fires(waits, co) then waits[co].(end := ByTimeout) else waits[co]
  }

  function Step(s: State, ev: Event): State {
    match ev
    case Start(co) => s.(running := Some(co))
    case AddIo => if s.running.Some? then s.(reg := s.reg + {s.running.value}) else s
    case DelIo => if s.running.Some? then s.(reg := s.reg - {s.running.value}) else s
    case BeginWait(kind) =>
      if s.running.Some? then s.(waits := s.waits[s.running.value := Wait(kind, Open)], begun := s.begun + 1) else s
    case SetTimer(pos) =>
      if s.running.Some? && s.running.value in s.waits && pos <= |s.timers| then
        s.(timers := s.timers[..pos] + [s.running.value] + s.timers[pos..],
           stored := if s.waits[s.running.value].kind.Sleep? then s.stored else s.stored + {s.running.value})
      else s
    case Yield => s.(running := None)
    case Finish => s.(running := None)
    case Claim(co) =>
      if co in s.waits then s.(waits := s.waits[co := s.waits[co].(end := ByEvent)], ready := s.ready + [co]) else s
    case IoEvent(co) => Resumed(s, co)
    case TakeReady => s.(phase := ReadyPhase, batch := s.ready, ready := [])
    case ResumeNext => if s.batch == [] then s else Resumed(s.(batch := s.batch[1..]), s.batch[0])
    case CheckTimeout(n) =>
      if n <= |s.timers| then
        var expired := s.timers[..n];
        s.(phase := TimeoutPhase, timers := s.timers[n..], stored := s.stored - (set co | co in expired),
           batch := Fired(expired, s.waits), waits := TimedOut(expired, s.waits))
      else s
    case NextRound => s.(phase := IoPhase)
  }

  /** What can happen when. A coroutine starts when its task is taken; it may be claimed from the moment it
      is queued, even before it yields. An `io_event` registers its coroutine before the first wait and
      unregisters it at the end of its life, and all waits in between are its own. An I/O event finds the
      coroutine that is registered for it, whatever that one is doing. */
  predicate Enabled(s: State, ev: Event) {
    match ev
    case Start(co) => s.phase.ReadyPhase? && s.running.None? && co !in s.waits
    case AddIo => s.running.Some? && s.running.value !in s.waits
    case DelIo => s.running.Some? && s.running.value !in s.waits
    case BeginWait(kind) => s.running.Some? && s.running.value !in s.waits && (kind.Io? <==> s.running.value in s.reg)
    case SetTimer(pos) =>
      s.running.Some? && s.running.value in s.waits && s.running.value !in s.timers && pos <= |s.timers|
    case Yield =>
      && s.running.Some? && s.running.value in s.waits
      && (s.waits[s.running.value].kind.Sleep? ==> s.running.value in s.timers)
    case Finish => s.running.Some? && s.running.value !in s.waits && s.running.value !in s.reg
    case Claim(co) => co in s.waits && s.waits[co] == Wait(Context, Open)
    case IoEvent(co) => s.phase.IoPhase? && s.running.None? && co in s.reg
    case TakeReady => s.phase.IoPhase? && s.running.None?
    case ResumeNext => s.running.None? && s.batch != []
    case CheckTimeout(n) => s.phase.ReadyPhase? && s.running.None? && s.batch == [] && n <= |s.timers|
    case NextRound => s.phase.TimeoutPhase? && s.running.None? && s.batch == []
  }

  function Run(evs: seq<Event>): State {
    if evs == [] then Init() else Step(Run(evs[..|evs| - 1]), evs[|evs| - 1])
  }

  predicate Possible(evs: seq<Event>) {
    forall k :: 0 <= k < |evs| ==> Enabled(Run(evs[..k]), evs[k])
  }

  // ----- the invariant

  ghost predicate Distinct(s: seq<nat>) {
    forall j, k :: 0 <= j < k < |s| ==> s[j] != s[k]
  }

  /** The lists to resume hold each coroutine whose wait has ended, once, and no other. */
  ghost predicate Lists(s: State) {
    && Distinct(s.ready) && Distinct(s.batch)
    && (forall co :: co in s.ready ==> co in s.waits && s.waits[co] == Wait(Context, ByEvent))
    && (forall co :: co in s.batch ==> co in s.waits && co !in s.ready)
    && (forall co :: co in s.waits && !s.waits[co].end.Open? ==> co in s.ready || co in s.batch)
  }

  /** In which phase which waits are being ended. */
  ghost predicate Batch(s: State) {
    && (s.phase.IoPhase? ==> s.batch == [])
    && (s.phase.ReadyPhase? ==> forall co :: co in s.batch && co in s.waits ==> s.waits[co] == Wait(Context, ByEvent))
    && (s.phase.TimeoutPhase? ==> forall co :: co in s.batch && co in s.waits ==> s.waits[co].end.ByTimeout?)
  }

  ghost predicate Timers(s: State) {
    && Distinct(s.timers)
    && (forall co :: co in s.timers ==> co in s.waits && !s.waits[co].end.ByTimeout?)
    && (forall co :: co in s.stored <==> co in s.timers && !s.waits[co].kind.Sleep?)
    && (forall co :: co in s.waits && s.waits[co].kind.Sleep? && s.running != Some(co) && co !in s.batch ==>
          co in s.timers)
  }

  /** A coroutine that is registered runs, or waits for I/O. */
  ghost predicate Registered(s: State) {
    forall co :: co in s.reg ==> (s.running == Some(co) || co in s.waits) && (co in s.waits ==> s.waits[co].kind.Io?)
  }

  ghost predicate Inv(s: State) {
    && s.ok && s.honest && |s.waits| == s.begun - s.resumed
    && (forall co :: co in s.batch ==> co in s.waits && s.running != Some(co))
    && Lists(s) && Batch(s) && Timers(s) && Registered(s)
  }

  lemma {:induction false} WithoutIs(s: seq<nat>, x: nat)
    ensures forall co :: co in Without(s, x) <==> co in s && co != x
    ensures Distinct(s) ==> Distinct(Without(s, x))
  {
    if s != [] {
      var init := s[..|s| - 1];
      WithoutIs(init, x);
      assert s == init + [s[|s| - 1]];
      assert Distinct(s) ==> Distinct(init) && s[|s| - 1] !in init;
    }
  }

  lemma {:induction false} FiredIs(expired: seq<nat>, waits: map<nat, Wait>)
    ensures forall co :: co in Fired(expired, waits) <==> co in expired && Fires(waits, co)
    ensures Distinct(expired) ==> Distinct(Fired(expired, waits))
  {
    if expired != [] {
      var init := expired[..|expired| - 1];
      FiredIs(init, waits);
      assert expired == init + [expired[|expired| - 1]];
      assert Distinct(expired) ==> Distinct(init) && expired[|expired| - 1] !in init;
    }
  }

  /** Resuming a coroutine whose wait was taken off the lists. */
  lemma ResumeKeeps(s: State, t: State, co: nat)
    requires Inv(s) && s.running.None? && co in s.waits && t == Resumed(s.(batch := t.batch), co)
    requires co !in s.ready && co !in t.batch && Distinct(t.batch)
    requires forall x :: x in t.batch <==> x in s.batch && x != co
    requires s.phase.TimeoutPhase? <==> s.waits[co].end.ByTimeout?
    requires co in s.timers ==> co in s.stored
    ensures Inv(t)
  {
    assert |s.waits.Keys| == |s.waits| && t.waits.Keys == s.waits.Keys - {co};
    assert |t.waits| == |s.waits| - 1;
    assert Batch(t) by {
      hide Timers, Lists, Registered;
      assert t.batch != [] ==> t.batch[0] in t.batch;
    }
    ResumeLists(s, t, co);
    ResumeTimers(s, t, co);
    ResumeRegistered(s, t, co);
    hide Timers, Lists, Registered, Batch, Distinct;
  }

  lemma ResumeLists(s: State, t: State, co: nat)
    requires Lists(s) && t.ready == s.ready && t.waits == s.waits - {co} && co !in s.ready && Distinct(t.batch)
    requires forall x :: x in t.batch <==> x in s.batch && x != co
    ensures Lists(t)
  {
    hide Distinct;
  }

  lemma ResumeTimers(s: State, t: State, co: nat)
    requires Timers(s) && s.running.None? && t.waits == s.waits - {co} && t.running == Some(co)
    requires t.timers == (if co in s.stored then Without(s.timers, co) else s.timers) && t.stored == s.stored - {co}
    requires forall x :: x in t.batch <==> x in s.batch && x != co
    requires co in s.timers ==> co in s.stored
    ensures Timers(t)
  {
    WithoutIs(s.timers, co);
    hide Distinct, Without;
  }

  lemma ResumeRegistered(s: State, t: State, co: nat)
    requires Registered(s) && s.running.None? && t.reg == s.reg && t.running == Some(co) && t.waits == s.waits - {co}
    ensures Registered(t)
  {
  }

  lemma IoEventKeeps(s: State, co: nat)
    requires Inv(s) && Enabled(s, IoEvent(co))
    ensures Inv(Step(s, IoEvent(co)))
  {
    ResumeKeeps(s, Step(s, IoEvent(co)), co);
  }

  lemma ResumeNextKeeps(s: State)
    requires Inv(s) && Enabled(s, ResumeNext)
    ensures Inv(Step(s, ResumeNext))
  {
    var co := s.batch[0];
    assert co in s.batch;
    assert s.batch == [co] + s.batch[1..];
    assert forall k :: 0 <= k < |s.batch| - 1 ==> s.batch[1..][k] == s.batch[k + 1];
    assert s.waits[co].kind.Sleep? ==> s.waits[co].end.ByTimeout?;
    ResumeKeeps(s, Step(s, ResumeNext), co);
  }

  lemma Inserted(timers: seq<nat>, pos: nat, co: nat)
    requires Distinct(timers) && pos <= |timers| && co !in timers
    ensures var u := timers[..pos] + [co] + timers[pos..];
      Distinct(u) && forall x :: x in u <==> x in timers || x == co
  {
    var u := timers[..pos] + [co] + timers[pos..];
    assert timers == timers[..pos] + timers[pos..];
    InsertedAt(timers, pos, co);
    forall j, k | 0 <= j < k < |u| ensures u[j] != u[k] {
      assert j != pos ==> u[j] in timers;
      assert k != pos ==> u[k] in timers;
    }
  }

  lemma InsertedAt(timers: seq<nat>, pos: nat, co: nat)
    requires pos <= |timers|
    ensures var u := timers[..pos] + [co] + timers[pos..];
      && |u| == |timers| + 1
      && forall k :: 0 <= k < |u| ==> u[k] == (if k < pos then timers[k] else if k == pos then co else timers[k - 1])
  {
  }

  lemma SetTimerKeeps(s: State, pos: nat)
    requires Inv(s) && Enabled(s, SetTimer(pos))
    ensures Inv(Step(s, SetTimer(pos)))
  {
    var t := Step(s, SetTimer(pos));
    Inserted(s.timers, pos, s.running.value);
    hide Distinct;
    assert Timers(t) by { hide Lists, Batch; }
    assert Lists(t) && Batch(t) by { hide Timers; }
    hide Lists, Batch, Timers;
  }

  lemma ClaimKeeps(s: State, co: nat)
    requires Inv(s) && Enabled(s, Claim(co))
    ensures Inv(Step(s, Claim(co)))
  {
    var t := Step(s, Claim(co));
    assert t.waits.Keys == s.waits.Keys;
    assert |t.waits| == |s.waits|;
  }

  lemma SplitTimers(timers: seq<nat>, n: nat)
    requires Distinct(timers) && n <= |timers|
    ensures Distinct(timers[..n]) && Distinct(timers[n..])
    ensures forall co :: co in timers <==> co in timers[..n] || co in timers[n..]
    ensures forall co :: co in timers[..n] ==> co !in timers[n..]
  {
    assert timers == timers[..n] + timers[n..];
    assert forall k :: 0 <= k < n ==> timers[..n][k] == timers[k];
    assert forall k :: 0 <= k < |timers| - n ==> timers[n..][k] == timers[k + n];
  }

  /** What `check_timeout` does to the waits and the lists. */
  lemma TimeoutFacts(s: State, n: nat)
    requires Inv(s) && Enabled(s, CheckTimeout(n))
    ensures var t, expired := Step(s, CheckTimeout(n)), s.timers[..n];
      && t.phase.TimeoutPhase? && t.waits.Keys == s.waits.Keys && Distinct(t.batch)
      && (forall co :: co in t.batch <==> co in expired && Fires(s.waits, co))
      && (forall co :: co in t.waits ==>
            t.waits[co] == if co in t.batch then s.waits[co].(end := ByTimeout) else s.waits[co])
      && t == s.(phase := t.phase, timers := s.timers[n..], stored := s.stored - (set co | co in expired),
        batch := t.batch, waits := t.waits)
  {
    SplitTimers(s.timers, n);
    FiredIs(s.timers[..n], s.waits);
    hide Fired, Lists, Batch;
  }

  lemma CheckTimeoutKeeps(s: State, n: nat)
    requires Inv(s) && Enabled(s, CheckTimeout(n))
    ensures Inv(Step(s, CheckTimeout(n)))
  {
    TimeoutFacts(s, n);
    hide Step, Fired, TimedOut, Fires;
    var t, expired := Step(s, CheckTimeout(n)), s.timers[..n];
    SplitTimers(s.timers, n);
    assert |t.waits| == |s.waits|;
    ExpiredNotReady(s, expired);
    TimeoutLists(s, t);
    TimeoutTimers(s, t, expired);
    TimeoutRegistered(s, t);
    hide Lists, Timers, Distinct, Registered;
  }

  lemma TimeoutRegistered(s: State, t: State)
    requires Registered(s) && t.running == s.running && t.reg == s.reg && t.waits.Keys == s.waits.Keys
    requires forall co :: co in t.waits ==> t.waits[co].kind == s.waits[co].kind
    ensures Registered(t)
  {
  }

  lemma ExpiredNotReady(s: State, expired: seq<nat>)
    requires Lists(s)
    ensures forall co :: co in expired && Fires(s.waits, co) ==> co in s.waits && co !in s.ready
  {
    hide Distinct;
  }

  lemma TimeoutLists(s: State, t: State)
    requires Lists(s) && s.batch == [] && t.ready == s.ready && t.waits.Keys == s.waits.Keys && Distinct(t.batch)
    requires forall co :: co in t.batch ==> co in s.waits && co !in s.ready
    requires forall co :: co in t.waits ==>
      t.waits[co] == if co in t.batch then s.waits[co].(end := ByTimeout) else s.waits[co]
    ensures Lists(t)
  {
  }

  lemma TimeoutTimers(s: State, t: State, expired: seq<nat>)
    requires Timers(s) && s.running.None? && s.batch == [] && t.waits.Keys == s.waits.Keys
    requires t.running == s.running && t.stored == s.stored - (set co | co in expired) && Distinct(t.timers)
    requires forall co :: co in s.timers <==> co in expired || co in t.timers
    requires forall co :: co in expired ==> co !in t.timers
    requires forall co :: co in t.batch <==> co in expired && Fires(s.waits, co)
    requires forall co :: co in t.waits ==>
      t.waits[co] == if co in t.batch then s.waits[co].(end := ByTimeout) else s.waits[co]
    ensures Timers(t)
  {
    hide Distinct;
  }

  lemma BeginWaitKeeps(s: State, kind: Kind)
    requires Inv(s) && Enabled(s, BeginWait(kind))
    ensures Inv(Step(s, BeginWait(kind)))
  {
    var t := Step(s, BeginWait(kind));
    assert t.waits.Keys == s.waits.Keys + {s.running.value};
    assert |t.waits| == |s.waits| + 1;
  }

  /** Every step that can happen keeps the invariant. */
  lemma StepKeepsInv(s: State, ev: Event)
    requires Inv(s) && Enabled(s, ev)
    ensures Inv(Step(s, ev))
  {
    match ev
    case BeginWait(kind) => BeginWaitKeeps(s, kind);
    case SetTimer(pos) => SetTimerKeeps(s, pos);
    case Claim(co) => ClaimKeeps(s, co);
    case IoEvent(co) => IoEventKeeps(s, co);
    case ResumeNext => ResumeNextKeeps(s);
    case CheckTimeout(n) => CheckTimeoutKeeps(s, n);
    case AddIo =>
    case DelIo =>
    case Start(_) =>
    case Yield =>
    case Finish =>
    case TakeReady =>
    case NextRound =>
  }

  lemma {:induction false} RunKeepsInv(evs: seq<Event>)
    requires Possible(evs)
    ensures Inv(Run(evs))
    decreases |evs|
  {
    if evs != [] {
      var init := evs[..|evs| - 1];
      assert forall k :: 0 <= k < |init| ==> init[..k] == evs[..k];
      assert Possible(init);
      RunKeepsInv(init);
      hide Inv, Step, Enabled;
      assert Enabled(Run(evs[..|evs| - 1]), evs[|evs| - 1]);
      StepKeepsInv(Run(init), evs[|evs| - 1]);
    }
  }

  /** In every run, whatever events, other parties and time limits race for the coroutines: only waiting
      coroutines are resumed, each wait ends in one resumption, and a coroutine that finds the timeout
      flag set is one whose time limit won. */
  lemma ResumedOncePerWait(evs: seq<Event>)
    requires Possible(evs)
    ensures var s := Run(evs); s.ok && s.honest && |s.waits| == s.begun - s.resumed
  {
    RunKeepsInv(evs);
  }

  /** A wait that has ended is never lost: its coroutine stands exactly once in the lists to resume, and
      a coroutine whose wait is open, or that does not wait, in none. */
  lemma EndedIsListedOnce(evs: seq<Event>, co: nat)
    requires Possible(evs)
    ensures var s := Run(evs);
        multiset(s.ready + s.batch)[co] == if co in s.waits && !s.waits[co].end.Open? then 1 else 0
  {
    RunKeepsInv(evs);
    var s := Run(evs);
    OnceOrNever(s.ready, co);
    OnceOrNever(s.batch, co);
    assert multiset(s.ready + s.batch) == multiset(s.ready) + multiset(s.batch);
  }

  lemma {:induction false} OnceOrNever(s: seq<nat>, co: nat)
    requires Distinct(s)
    ensures multiset(s)[co] == if co in s then 1 else 0
  {
    if s != [] {
      var init, last := s[..|s| - 1], s[|s| - 1];
      assert s == init + [last];
      assert Distinct(init) && last !in init;
      OnceOrNever(init, co);
    }
  }

  // ----- what ends a wait

  lemma LastStep(evs: seq<Event>, ev: Event)
    requires Possible(evs + [ev])
    ensures Possible(evs) && Inv(Run(evs)) && Enabled(Run(evs), ev) && Run(evs + [ev]) == Step(Run(evs), ev)
  {
    var all := evs + [ev];
    assert all[..|all| - 1] == evs && all[|all| - 1] == ev;
    assert forall k :: 0 <= k < |evs| ==> all[..k] == evs[..k] && all[k] == evs[k];
    hide Inv, Step, Enabled;
    RunKeepsInv(evs);
  }

  /** In every run, a time limit that expires ends an open wait, whatever its kind: the coroutine is to be
      resumed, and told of the timeout. No other wait is touched, and the later timers stay. */
  lemma ExpiredEndsWait(evs: seq<Event>, n: nat, co: nat)
    requires Possible(evs + [CheckTimeout(n)])
    ensures var s, t := Run(evs), Run(evs + [CheckTimeout(n)]);
      && n <= |s.timers| && t.timers == s.timers[n..] && t.waits.Keys == s.waits.Keys
      && if co in s.timers[..n] && co in s.waits && s.waits[co].end.Open? then
           t.waits[co] == Wait(s.waits[co].kind, ByTimeout) && co in t.batch
         else
           co !in t.batch && (co in s.waits ==> t.waits[co] == s.waits[co])
  {
    hide *;
    LastStep(evs, CheckTimeout(n));
    TimeoutEndsWait(Run(evs), n, co);
  }

  lemma TimeoutEndsWait(s: State, n: nat, co: nat)
    requires Inv(s) && Enabled(s, CheckTimeout(n))
    ensures var t := Step(s, CheckTimeout(n));
      && n <= |s.timers| && t.timers == s.timers[n..] && t.waits.Keys == s.waits.Keys
      && if co in s.timers[..n] && co in s.waits && s.waits[co].end.Open? then
           t.waits[co] == Wait(s.waits[co].kind, ByTimeout) && co in t.batch
         else
           co !in t.batch && (co in s.waits ==> t.waits[co] == s.waits[co])
  {
    assert n <= |s.timers|;
    TimeoutFacts(s, n);
    if co in s.timers[..n] { ExpiredOpen(s, n, co); }
    hide Step, Fired, TimedOut, Inv, Fires, Enabled;
  }

  lemma ExpiredOpen(s: State, n: nat, co: nat)
    requires Inv(s) && n <= |s.timers| && co in s.timers[..n]
    ensures co in s.waits && (Fires(s.waits, co) <==> s.waits[co].end.Open?)
  {
  }

  /** Coroutine `co` has called `add_timer` since its last wait began. */
  predicate HasSet(evs: seq<Event>, co: nat) {
    if evs == [] then false else
      var init, ev := evs[..|evs| - 1], evs[|evs| - 1];
      if Run(init).running == Some(co) && (ev.SetTimer? || ev.BeginWait?) then ev.SetTimer? else HasSet(init, co)
  }

  /** In every run, a coroutine whose wait is open, and that has set a time limit for it, has its timer. */
  lemma {:induction false} OpenWaitKeepsTimer(evs: seq<Event>, co: nat)
    requires Possible(evs)
    ensures var s := Run(evs); co in s.waits && s.waits[co].end.Open? && HasSet(evs, co) ==> co in s.timers
    decreases |evs|
  {
    if evs != [] {
      var init, ev := evs[..|evs| - 1], evs[|evs| - 1];
      assert init + [ev] == evs;
      LastStep(init, ev);
      OpenWaitKeepsTimer(init, co);
      TimerStays(Run(init), ev, co);
      hide Step, Enabled, Inv;
    }
  }

  lemma TimerStays(s: State, ev: Event, co: nat)
    requires Inv(s) && Enabled(s, ev)
    ensures var t := Step(s, ev);
      co in t.waits && t.waits[co].end.Open? && co !in t.timers ==>
        || (s.running == Some(co) && ev.BeginWait?)
        || (co in s.waits && s.waits[co].end.Open? && co !in s.timers && !(s.running == Some(co) && ev.SetTimer?))
  {
    var t := Step(s, ev);
    match ev
    case CheckTimeout(n) =>
      TimeoutFacts(s, n);
      SplitTimers(s.timers, n);
      if co in s.timers[..n] { ExpiredOpen(s, n, co); }
      hide Step, Inv;
    case SetTimer(pos) =>
      Inserted(s.timers, pos, s.running.value);
      hide Inv;
    case IoEvent(x) =>
      WithoutIs(s.timers, x);
      hide Inv, Without;
    case ResumeNext =>
      WithoutIs(s.timers, s.batch[0]);
      hide Inv, Without;
    case _ => hide Inv;
  }

  /** In every run: a party that claims a waiting coroutine ends its wait and lists it last; an I/O event
      resumes the coroutine that waits for it at once; and what is listed is taken whole and in order. */
  lemma EventsEndWaits(evs: seq<Event>, ev: Event, co: nat)
    requires Possible(evs + [ev])
    ensures var s, t := Run(evs), Run(evs + [ev]);
      && (ev == Claim(co) ==> co in t.waits && t.waits[co].end.ByEvent? && t.ready == s.ready + [co])
      && (ev == IoEvent(co) ==> t.running == Some(co) && co !in t.waits && co !in t.timers)
      && (ev == TakeReady ==> t.batch == s.ready && t.ready == [])
  {
    LastStep(evs, ev);
    WithoutIs(Run(evs).timers, co);
    hide Without;
  }

  /** In every run: a coroutine that begins to wait has an open wait; one that yields or ends gives the control
      back, and its wait and its timer stay as they are; and one that starts has it. */
  lemma EventsPassControl(evs: seq<Event>, ev: Event, co: nat)
    requires Possible(evs + [ev])
    ensures var s, t := Run(evs), Run(evs + [ev]);
      && (ev.BeginWait? ==> s.running.Some? && t.waits == s.waits[s.running.value := Wait(ev.kind, Open)])
      && (ev.Yield? || ev.Finish? ==> t == s.(running := None))
      && (ev == Start(co) ==> t == s.(running := Some(co)))
      && (ev.SetTimer? ==>
            s.running.Some? && forall x :: x in t.timers <==> x in s.timers || x == s.running.value)
  {
    LastStep(evs, ev);
    var s := Run(evs);
    if ev.SetTimer? { Inserted(s.timers, ev.pos, s.running.value); }
    hide Inv;
  }

  function Resumptions(evs: seq<Event>): nat {
    if evs == [] then 0 else Resumptions(evs[..|evs| - 1]) + if evs[|evs| - 1].ResumeNext? then 1 else 0
  }

  /** In every run, the coroutines to resume are resumed in their order: the one at place `k` is the next
      after `k` resumptions, whatever happens in between, and then it runs and waits no more. */
  lemma ResumedInTurn(evs: seq<Event>, more: seq<Event>, k: nat)
    requires Possible(evs + more) && k < |Run(evs).batch| && Resumptions(more) <= k
    ensures var s, t := Run(evs), Run(evs + more); var j := k - Resumptions(more);
      && j < |t.batch| && t.batch[j] == s.batch[k]
      && (j == 0 && Enabled(t, ResumeNext) ==>
            var u := Step(t, ResumeNext); u.running == Some(s.batch[k]) && s.batch[k] !in u.waits)
  {
    hide *;
    KeepsPlace(evs, more, k);
    RunKeepsInv(evs + more);
    ResumesHead(Run(evs + more));
  }

  lemma {:induction false} KeepsPlace(evs: seq<Event>, more: seq<Event>, k: nat)
    requires Possible(evs + more) && k < |Run(evs).batch| && Resumptions(more) <= k
    ensures var t, j := Run(evs + more), k - Resumptions(more); j < |t.batch| && t.batch[j] == Run(evs).batch[k]
    decreases |more|
  {
    hide *;
    ResumptionsLast(more);
    if more == [] {
      assert evs + more == evs;
    } else {
      var init, ev := more[..|more| - 1], more[|more| - 1];
      assert evs + init + [ev] == evs + more;
      LastStep(evs + init, ev);
      KeepsPlace(evs, init, k);
      BatchStays(Run(evs + init), ev);
    }
  }

  lemma ResumptionsLast(more: seq<Event>)
    ensures Resumptions(more) == if more == [] then 0
      else Resumptions(more[..|more| - 1]) + if more[|more| - 1].ResumeNext? then 1 else 0
  {
  }

  lemma ResumesHead(s: State)
    requires Inv(s)
    ensures Enabled(s, ResumeNext) ==>
      s.batch != [] && Step(s, ResumeNext).running == Some(s.batch[0]) && s.batch[0] !in Step(s, ResumeNext).waits
  {
    hide Inv, Without;
  }

  lemma BatchStays(s: State, ev: Event)
    requires Inv(s) && Enabled(s, ev) && s.batch != []
    ensures Step(s, ev).batch == if ev.ResumeNext? then s.batch[1..] else s.batch
  {
  }

  /** The order of the phases matters, in every run: an I/O event handled while the timed-out coroutines are
      being resumed would mislead its coroutine about a timeout at once or, if the coroutine is one of
      those timed out, leave it in the list although it has been resumed. If it is the next one, it is
      resumed out of nothing, should it have ended, or out of its next wait and told of a timeout. */
  lemma PhaseOrderMatters(evs: seq<Event>, co: nat, kind: Kind)
    requires Possible(evs) && Run(evs).phase.TimeoutPhase? && Run(evs).running.None?
    requires co in Run(evs).waits && Run(evs).waits[co].kind.Io?
    ensures var s, t := Run(evs), Step(Run(evs), IoEvent(co));
      && (co !in s.batch ==> !t.honest)
      && (co in s.batch ==> t.honest && co in t.batch && co !in t.waits)
      && (s.batch != [] && co == s.batch[0] ==>
            && !Step(Step(t, Finish), ResumeNext).ok
            && !Step(Step(Step(t, BeginWait(kind)), Yield), ResumeNext).honest)
  {
    RunKeepsInv(evs);
    IoEventLate(Run(evs), co, kind);
  }

  lemma IoEventLate(s: State, co: nat, kind: Kind)
    requires Inv(s) && s.phase.TimeoutPhase? && s.running.None? && co in s.waits && s.waits[co].kind.Io?
    ensures var t := Step(s, IoEvent(co));
      && (co !in s.batch ==> !t.honest)
      && (co in s.batch ==> t.honest && co in t.batch && co !in t.waits)
      && (s.batch != [] && co == s.batch[0] ==>
            && !Step(Step(t, Finish), ResumeNext).ok
            && !Step(Step(Step(t, BeginWait(kind)), Yield), ResumeNext).honest)
  {
  }
}
