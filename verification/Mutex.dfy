/** `mutex_impl` of `src/co/co.cc`: a mutex for coroutines and threads that hands ownership to the
    first waiter. */
module Mutex {
  import opened BlockQueue

  datatype Party = Coroutine(id: nat) | OsThread(id: nat)

  /** `owners` are the parties whose `lock` or successful `try_lock` has returned and that have not
      called `unlock` since; `blocked` are the threads inside `_cv.wait`. */
  datatype State = State(lock: nat, wq: seq<Token>, blocked: set<nat>, owners: set<Party>)

  datatype Event =
    | Lock(p: Party)
    | TryLock(p: Party)
    | Unlock(p: Party)
    | Wake(t: nat)        // a notification or a spurious wake-up of a blocked thread

  function Step(s: State, ev: Event): State {
    match ev
    case Lock(p) =>
      if s.lock == 0 then s.(lock := 1, owners := s.owners + {p})
      else if p.Coroutine? then s.(wq := s.wq + [Co(p.id)])
      else s.(wq := s.wq + [Thread], blocked := s.blocked + {p.id})
    case TryLock(p) =>
      if s.lock == 0 then s.(lock := 1, owners := s.owners + {p}) else s
    case Unlock(p) =>
      var t := s.(owners := s.owners - {p});
      if s.wq == [] then t.(lock := 0)
      else if s.wq[0].Co? then t.(wq := s.wq[1..], owners := t.owners + {Coroutine(s.wq[0].id)})
      else t.(wq := s.wq[1..], lock := 2)
    case Wake(i) =>
      if s.lock == 2 then s.(lock := 1, blocked := s.blocked - {i}, owners := s.owners + {OsThread(i)}) else s
  }

  predicate Waits(s: State, p: Party) {
    match p
    case Coroutine(i) => Co(i) in s.wq
    case OsThread(i) => i in s.blocked
  }

  /** A party calls only while it neither owns nor waits, and only owners unlock. */
  predicate Enabled(s: State, ev: Event) {
    match ev
    case Lock(p) => p !in s.owners && !Waits(s, p)
    case TryLock(p) => p !in s.owners && !Waits(s, p)
    case Unlock(p) => p in s.owners
    case Wake(i) => i in s.blocked
  }

  predicate Runs(s: State, evs: seq<Event>)
    decreases |evs|
  {
    evs == [] || (Enabled(s, evs[0]) && Runs(Step(s, evs[0]), evs[1..]))
  }

  function Run(s: State, evs: seq<Event>): State
    decreases |evs|
  {
    if evs == [] then s else Run(Step(s, evs[0]), evs[1..])
  }

  const Unlocked := State(0, [], {}, {})

  function Nulls(wq: seq<Token>): nat {
    if wq == [] then 0 else (if wq[0].Thread? then 1 else 0) + Nulls(wq[1..])
  }

  lemma {:induction false} NullsAppend(wq: seq<Token>, t: Token)
    ensures Nulls(wq + [t]) == Nulls(wq) + (if t.Thread? then 1 else 0)
  {
    if wq == [] {
      assert wq + [t] == [t] && [t][1..] == [];
    } else {
      assert (wq + [t])[1..] == wq[1..] + [t];
      NullsAppend(wq[1..], t);
    }
  }

  ghost predicate Inv(s: State) {
    && s.lock <= 2
    && |s.owners| == (if s.lock == 1 then 1 else 0)
    && (s.lock == 0 ==> s.wq == [] && s.blocked == {})
    && |s.blocked| == Nulls(s.wq) + (if s.lock == 2 then 1 else 0)
    && (forall i, j :: 0 <= i < j < |s.wq| && s.wq[i].Co? ==> s.wq[i] != s.wq[j])
    && (forall p :: p in s.owners ==> !Waits(s, p))
  }

  lemma Singleton<T>(a: set<T>, x: T)
    requires |a| == 1 && x in a
    ensures a == {x}
  {
    assert |a - {x}| == 0;
  }

  lemma StepKeepsInv(s: State, ev: Event)
    requires Inv(s) && Enabled(s, ev)
    ensures Inv(Step(s, ev))
  {
    match ev
    case Lock(p) => LockKeeps(s, p);
    case TryLock(p) =>
      assert s.lock == 0 ==> s.owners == {};
    case Unlock(p) =>
      assert s.lock == 1;
      Singleton(s.owners, p);
      UnlockKeeps(s, p);
    case Wake(i) =>
      assert s.lock == 2 ==> s.owners == {};
  }

  lemma LockKeeps(s: State, p: Party)
    requires Inv(s) && Enabled(s, Lock(p))
    ensures Inv(Step(s, Lock(p)))
  {
    if s.lock == 0 {
      assert s.owners == {};
    } else {
      NullsAppend(s.wq, if p.Coroutine? then Co(p.id) else Thread);
      assert p.OsThread? ==> |s.blocked + {p.id}| == |s.blocked| + 1;
    }
  }

  lemma UnlockKeeps(s: State, p: Party)
    requires Inv(s) && s.owners == {p}
    ensures Inv(Step(s, Unlock(p)))
  {
    assert s.owners - {p} == {};
    if s.wq != [] {
      var w := s.wq[0];
      assert forall i :: 0 <= i < |s.wq| - 1 ==> s.wq[1..][i] == s.wq[i + 1];
    }
  }

  lemma {:induction false} RunKeepsInv(s: State, evs: seq<Event>)
    requires Inv(s) && Runs(s, evs)
    ensures Inv(Run(s, evs))
    decreases |evs|
  {
    if evs != [] {
      StepKeepsInv(s, evs[0]);
      RunKeepsInv(Step(s, evs[0]), evs[1..]);
    }
  }

  /** Mutual exclusion in every run, whatever threads wake up; a free mutex has no waiter, so nobody
      can pass a waiter; and while ownership is on its way to a thread, some thread can take it. */
  lemma MutualExclusion(evs: seq<Event>)
    requires Runs(Unlocked, evs)
    ensures var s := Run(Unlocked, evs);
      && |s.owners| <= 1 && (s.owners != {} <==> s.lock == 1)
      && (s.lock == 0 ==> s.wq == [] && s.blocked == {})
      && |s.blocked| == Nulls(s.wq) + (if s.lock == 2 then 1 else 0)
      && (s.lock == 2 ==> exists t :: t in s.blocked)
  {
    RunKeepsInv(Unlocked, evs);
    var s := Run(Unlocked, evs);
    if s.lock == 2 {
      assert |s.blocked| > 0;
      assert s.blocked != {};
    }
  }

  // ----- what the callers are told

  /** Whether a call of `lock` or `try_lock` returns true, or a blocked thread leaves its loop. */
  predicate Answer(s: State, ev: Event) {
    match ev
    case Lock(_) => s.lock == 0
    case TryLock(_) => s.lock == 0
    case Wake(_) => s.lock == 2
    case Unlock(_) => false
  }

  /** The coroutine that `unlock` hands back to its scheduler. */
  function Resumed(s: State): seq<nat> {
    if s.wq != [] && s.wq[0].Co? then [s.wq[0].id] else []
  }

  /** Who learns by the event that it owns the mutex: by an answer, or because it is resumed. */
  function Told(s: State, ev: Event): set<Party> {
    match ev
    case Lock(p) => if Answer(s, ev) then {p} else {}
    case TryLock(p) => if Answer(s, ev) then {p} else {}
    case Wake(i) => if Answer(s, ev) then {OsThread(i)} else {}
    case Unlock(_) => set i | i in Resumed(s) :: Coroutine(i)
  }

  /** The parties that were told that they own the mutex and have not called `unlock` since. */
  function Holders(s: State, evs: seq<Event>, held: set<Party>): set<Party>
    decreases |evs|
  {
    if evs == [] then held
    else Holders(Step(s, evs[0]), evs[1..], held - (if evs[0].Unlock? then {evs[0].p} else {}) + Told(s, evs[0]))
  }

  /** The parties whose call of `lock` has not returned. */
  function Callers(s: State, evs: seq<Event>, calling: set<Party>): set<Party>
    decreases |evs|
  {
    if evs == [] then calling
    else Callers(Step(s, evs[0]), evs[1..], calling + (if evs[0].Lock? then {evs[0].p} else {}) - Told(s, evs[0]))
  }

  lemma ToldIsDone(s: State, ev: Event)
    requires Inv(s) && Enabled(s, ev)
    ensures Step(s, ev).owners == s.owners - (if ev.Unlock? then {ev.p} else {}) + Told(s, ev)
    ensures forall p :: Waits(Step(s, ev), p) <==> (Waits(s, p) || ev == Lock(p)) && p !in Told(s, ev)
  {
    hide Inv;
    if ev.Unlock? {
      HandsOver(s, ev.p);
      forall p ensures Waits(Step(s, ev), p) <==> Waits(s, p) && p !in Told(s, ev) {
        StillWaits(s, ev.p, p);
      }
    } else {
      FreeHasNoWaiter(s);
    }
  }

  lemma FreeHasNoWaiter(s: State)
    requires Inv(s)
    ensures s.lock == 0 ==> s.wq == [] && s.blocked == {}
  {
  }

  lemma HandsOver(s: State, p: Party)
    requires Inv(s) && p in s.owners
    ensures Step(s, Unlock(p)).owners == (set i | i in Resumed(s) :: Coroutine(i))
    ensures Step(s, Unlock(p)).owners == s.owners - {p} + Told(s, Unlock(p)) && p !in Step(s, Unlock(p)).owners
  {
    Singleton(s.owners, p);
    assert !Waits(s, p);
    hide Inv;
    assert s.wq != [] ==> s.wq[0] in s.wq;
  }

  lemma StillWaits(s: State, p: Party, q: Party)
    requires Inv(s)
    ensures Waits(Step(s, Unlock(p)), q) <==> Waits(s, q) && q !in Told(s, Unlock(p))
  {
    if s.wq != [] {
      assert s.wq == [s.wq[0]] + s.wq[1..];
      assert s.wq[0].Co? ==> s.wq[0] !in s.wq[1..];
    }
    hide Inv;
  }

  lemma {:induction false} ToldAreOwners(s: State, evs: seq<Event>, held: set<Party>, calling: set<Party>)
    requires Inv(s) && Runs(s, evs) && held == s.owners && forall p :: p in calling <==> Waits(s, p)
    ensures var r := Run(s, evs);
      Holders(s, evs, held) == r.owners && forall p :: p in Callers(s, evs, calling) <==> Waits(r, p)
    decreases |evs|
  {
    hide Inv, Told, Enabled, Step, Waits;
    if evs != [] {
      StepKeepsInv(s, evs[0]);
      ToldIsDone(s, evs[0]);
      ToldAreOwners(Step(s, evs[0]), evs[1..], held - (if evs[0].Unlock? then {evs[0].p} else {}) + Told(s, evs[0]),
                    calling + (if evs[0].Lock? then {evs[0].p} else {}) - Told(s, evs[0]));
    }
  }

  /** Mutual exclusion as the callers see it, in every run: at most one party that was told that it owns the
      mutex has not unlocked since; a call that has not returned is queued or blocked, and nobody else is; and
      a call gets the mutex at once exactly if nobody holds it and nobody waits. */
  lemma OneHolder(evs: seq<Event>, p: Party)
    requires Runs(Unlocked, evs)
    ensures var s := Run(Unlocked, evs); var held, calling := Holders(Unlocked, evs, {}), Callers(Unlocked, evs, {});
      && |held| <= 1 && held == s.owners
      && (p in calling <==> Waits(s, p))
      && (Answer(s, Lock(p)) <==> held == {} && calling == {})
      && (Answer(s, TryLock(p)) <==> held == {} && calling == {})
  {
    RunKeepsInv(Unlocked, evs);
    ToldAreOwners(Unlocked, evs, {}, {});
    MutualExclusion(evs);
    var s := Run(Unlocked, evs);
    var held, calling := Holders(Unlocked, evs, {}), Callers(Unlocked, evs, {});
    if s.lock == 0 {
      forall q ensures q !in calling { assert !Waits(s, q); }
    } else if s.lock == 2 {
      var t :| t in s.blocked;
      assert Waits(s, OsThread(t));
    }
  }

  function Unlocks(evs: seq<Event>): nat {
    if evs == [] then 0 else (if evs[0].Unlock? then 1 else 0) + Unlocks(evs[1..])
  }

  /** First come, first served: a coroutine at place `k` keeps waiting through `k` unlocks, one place
      further each time, and the unlock after those makes it the owner. */
  lemma {:induction false} ServedInTurn(s: State, evs: seq<Event>, k: nat, id: nat)
    requires Inv(s) && Runs(s, evs)
    requires k < |s.wq| && s.wq[k] == Co(id) && Unlocks(evs) <= k
    ensures var r := Run(s, evs);
      && k - Unlocks(evs) < |r.wq| && r.wq[k - Unlocks(evs)] == Co(id)
      && (Unlocks(evs) == k ==> forall p :: Enabled(r, Unlock(p)) ==> Coroutine(id) in Step(r, Unlock(p)).owners)
    decreases |evs|
  {
    if evs != [] {
      StepKeepsInv(s, evs[0]);
      PlaceAfterStep(s, evs[0], k);
      ServedInTurn(Step(s, evs[0]), evs[1..], if evs[0].Unlock? then k - 1 else k, id);
    }
  }

  lemma PlaceAfterStep(s: State, ev: Event, k: nat)
    requires Inv(s) && Enabled(s, ev) && k < |s.wq| && (ev.Unlock? ==> k > 0)
    ensures var j := if ev.Unlock? then k - 1 else k;
      j < |Step(s, ev).wq| && Step(s, ev).wq[j] == s.wq[k]
  {
  }

  // ----- the implementation

  class MutexImpl {
    var lock: nat
    const wq: Queue
    ghost var blocked: set<nat>
    ghost var owners: set<Party>

    ghost predicate Valid()
      reads wq, wq.list, wq.list.nodes, wq.blocks, wq.Arrays()
    {
      wq.Valid()
    }

    ghost function Abs(): State
      reads this, wq
    {
      State(lock, wq.contents, blocked, owners)
    }

    constructor ()
      ensures Valid() && Abs() == Unlocked
    {
      lock := 0;
      wq := new Queue();
      blocked, owners := {}, {};
    }

    /** Up to the point where the caller owns the mutex or waits. */
    method Lock(p: Party) returns (owned: bool)
      requires Valid()
      modifies this`lock, this`blocked, this`owners, wq, wq.list, wq.list.nodes, wq.blocks, wq.Arrays()
      ensures Valid() && Abs() == Step(old(Abs()), Event.Lock(p))
      ensures owned == Answer(old(Abs()), Event.Lock(p)) && (p !in old(owners) ==> (owned <==> p in owners))
    {
      if lock == 0 {
        lock, owners, owned := 1, owners + {p}, true;
      } else {
        owned := false;
        if p.Coroutine? {
          wq.PushBack(Co(p.id));
        } else {
          wq.PushBack(Thread);
          blocked := blocked + {p.id};
        }
      }
    }

    method TryLock(p: Party) returns (owned: bool)
      requires Valid()
      modifies this`lock, this`owners
      ensures Valid() && Abs() == Step(old(Abs()), Event.TryLock(p))
      ensures owned == Answer(old(Abs()), Event.TryLock(p)) && (p !in old(owners) ==> (owned <==> p in owners))
    {
      owned := lock == 0;
      if owned { lock, owners := 1, owners + {p}; }
    }

    /** Returns the coroutine to resume, if ownership goes to one, or that a thread is to be notified. */
    method Unlock(p: Party) returns (resume: seq<nat>, notify: bool)
      requires Valid() && lock == 1
      modifies this`lock, this`owners, wq, wq.list, wq.list.nodes, wq.blocks
      ensures Valid() && Abs() == Step(old(Abs()), Event.Unlock(p))
      ensures resume == Resumed(old(Abs()))
      ensures old(Inv(Abs())) && p in old(owners) ==> owners == (set i | i in resume :: Coroutine(i)) && p !in owners
      ensures notify == (lock == 2 && old(wq.contents) != [])
    {
      hide Inv;
      ghost var before := Abs();
      resume, notify := [], false;
      if wq.Empty() {
        lock, owners := 0, owners - {p};
      } else {
        var t := wq.PopFront();
        if t.Co? {
          resume := [t.id];
          owners := owners - {p} + {Coroutine(t.id)};
        } else {
          lock, owners, notify := 2, owners - {p}, true;
        }
      }
      if Inv(before) && p in before.owners {
        HandsOver(before, p);
      }
    }

    /** One round of the loop around `_cv.wait`. */
    method Wake(t: nat) returns (owned: bool)
      requires Valid()
      modifies this`lock, this`blocked, this`owners
      ensures Valid() && Abs() == Step(old(Abs()), Event.Wake(t))
      ensures owned == Answer(old(Abs()), Event.Wake(t))
      ensures OsThread(t) !in old(owners) ==> (owned <==> OsThread(t) in owners)
    {
      owned := lock == 2;
      if owned { lock, blocked, owners := 1, blocked - {t}, owners + {OsThread(t)}; }
    }
  }
}
