/** `TimerManager` of `src/co/sched.h` and `src/co/sched.cc`: the timed waits of a scheduler in an
    ordered map, with a cached iterator that makes insertion faster. */
module Timer {
  import opened Options

  /** A deadline in milliseconds for a coroutine. The id stands for the address of the map node: an
      iterator is the id of an entry, or `None` for the end. */
  datatype Entry = Entry(id: nat, ms: int, co: nat)

  /** The state of a waiting context, which one of an event and a timeout changes first. */
  datatype State = Waiting | Ready | TimedOut

  const MAX_WAIT := 0xffff_ffff

  ghost predicate Sorted(t: seq<Entry>) {
    forall j, k :: 0 <= j < k < |t| ==> t[j].ms <= t[k].ms
  }

  ghost predicate Distinct(t: seq<Entry>) {
    forall j, k :: 0 <= j < k < |t| ==> t[j].id != t[k].id
  }

  ghost predicate Present(t: seq<Entry>, it: Option<nat>) {
    it.Some? ==> exists k :: 0 <= k < |t| && t[k].id == it.value
  }

  /** An iterator stored in a coroutine names an entry for that coroutine. */
  ghost predicate Owns(t: seq<Entry>, id: nat, co: nat) {
    exists k :: 0 <= k < |t| && t[k].id == id && t[k].co == co
  }

  /** How many entries have expired. */
  function Expired(t: seq<Entry>, now: int): (n: nat)
    ensures n <= |t|
    ensures forall k :: 0 <= k < n ==> t[k].ms <= now
    ensures n < |t| ==> t[n].ms > now
  {
    if t == [] || t[0].ms > now then 0 else
      assert forall k :: 0 <= k < |t| - 1 ==> t[1..][k] == t[k + 1];
      1 + Expired(t[1..], now)
  }

  /** In a sorted map the expired entries are those at the front. */
  lemma ExpiredAreFirst(t: seq<Entry>, now: int, k: nat)
    requires Sorted(t) && k < |t|
    ensures t[k].ms <= now <==> k < Expired(t, now)
  {
    var n := Expired(t, now);
    if n <= k { assert t[n].ms <= t[k].ms; }
  }

  /** The coroutines to resume for some expired entries, and the wait states afterwards: a coroutine that
      waits for nothing else, or whose wait no event has claimed. */
  function Fire(t: seq<Entry>, wait: map<nat, State>): (seq<nat>, map<nat, State>) {
    if t == [] then ([], wait) else
      var (res, w) := Fire(t[..|t| - 1], wait);
      var co := t[|t| - 1].co;
      if co !in w then (res + [co], w)
      else if w[co] == Waiting then (res + [co], w[co := TimedOut])
      else (res, w)
  }

  predicate HasEntry(t: seq<Entry>, co: nat) {
    exists k :: 0 <= k < |t| && t[k].co == co
  }

  /** Entry `k` is reported: its coroutine waits for nothing else, or nobody has claimed its wait and it
      has no earlier entry. */
  predicate Reported(t: seq<Entry>, wait: map<nat, State>, k: nat)
    requires k < |t|
  {
    t[k].co in wait ==> wait[t[k].co] == Waiting && !HasEntry(t[..k], t[k].co)
  }

  /** The coroutines of the first `n` entries that are reported, in order. */
  function Unclaimed(t: seq<Entry>, wait: map<nat, State>, n: nat): seq<nat>
    requires n <= |t|
  {
    if n == 0 then [] else Unclaimed(t, wait, n - 1) + if Reported(t, wait, n - 1) then [t[n - 1].co] else []
  }

  /** Exactly the entries not claimed by an event are reported, in the order of their deadlines, and their
      waits cannot be claimed any more. */
  lemma {:induction false} FireIsUnclaimed(t: seq<Entry>, wait: map<nat, State>, n: nat)
    requires n <= |t|
    ensures Fire(t[..n], wait).0 == Unclaimed(t, wait, n)
    ensures Fire(t[..n], wait).1.Keys == wait.Keys
    ensures forall co :: co in wait ==>
      Fire(t[..n], wait).1[co] == (if wait[co] == Waiting && HasEntry(t[..n], co) then TimedOut else wait[co])
  {
    if n > 0 {
      FireIsUnclaimed(t, wait, n - 1);
      var init := t[..n - 1];
      assert t[..n][..n - 1] == init;
      assert forall co :: HasEntry(t[..n], co) <==> HasEntry(init, co) || co == t[n - 1].co by {
        assert forall k :: 0 <= k < |init| ==> init[k] == t[..n][k];
        assert t[..n][n - 1] == t[n - 1];
      }
    }
  }

  function Entries(t: seq<Entry>, co: nat): nat {
    if t == [] then 0 else Entries(t[..|t| - 1], co) + if t[|t| - 1].co == co then 1 else 0
  }

  /** However many entries of a coroutine have expired: if it waits for an event, it is reported once if
      nobody has claimed its wait, and never if somebody has; if not, it is reported for each entry. */
  lemma {:induction false} FiredOnce(t: seq<Entry>, wait: map<nat, State>, co: nat)
    ensures multiset(Fire(t, wait).0)[co] ==
      if co !in wait then Entries(t, co) else if wait[co] == Waiting && HasEntry(t, co) then 1 else 0
  {
    if t != [] {
      var init, last := t[..|t| - 1], t[|t| - 1].co;
      FiredOnce(init, wait, co);
      FireIsUnclaimed(init, wait, |init|);
      assert init[..|init|] == init;
      EntryOf(t, co);
      EntryOf(t, last);
      hide HasEntry, Unclaimed;
      var r := Fire(init, wait).0;
      assert multiset(r + [last]) == multiset(r) + multiset{last};
    }
  }

  lemma EntryOf(t: seq<Entry>, co: nat)
    requires t != []
    ensures HasEntry(t, co) <==> HasEntry(t[..|t| - 1], co) || co == t[|t| - 1].co
  {
    assert forall k :: 0 <= k < |t| - 1 ==> t[..|t| - 1][k] == t[k];
  }

  // ----- changes to the map

  function Inserted(t: seq<Entry>, pos: nat, e: Entry): seq<Entry>
    requires pos <= |t|
  {
    t[..pos] + [e] + t[pos..]
  }

  function Erased(t: seq<Entry>, k: nat): seq<Entry>
    requires k < |t|
  {
    t[..k] + t[k + 1..]
  }

  /** Where an ordered map with equal keys may put a new entry. */
  predicate Fits(t: seq<Entry>, pos: nat, ms: int) {
    && pos <= |t|
    && (forall k :: 0 <= k < pos ==> t[k].ms <= ms)
    && (forall k :: pos <= k < |t| ==> ms <= t[k].ms)
  }

  /** Sorted by deadline, with ids below `next` and deadlines at most 32 bits of milliseconds away. */
  ghost predicate Ordered(t: seq<Entry>, next: nat, clock: int) {
    && Sorted(t) && Distinct(t)
    && (forall k :: 0 <= k < |t| ==> t[k].id < next && t[k].ms <= clock + MAX_WAIT)
  }

  lemma InsertOrdered(t: seq<Entry>, pos: nat, e: Entry, clock: int, now: int)
    requires Ordered(t, e.id, clock) && Fits(t, pos, e.ms) && clock <= now && e.ms <= now + MAX_WAIT
    ensures Ordered(Inserted(t, pos, e), e.id + 1, now)
  {
    var u := Inserted(t, pos, e);
    assert forall k :: 0 <= k < |u| ==> u[k] == if k < pos then t[k] else if k == pos then e else t[k - 1];
  }

  lemma EraseOrdered(t: seq<Entry>, k: nat, next: nat, clock: int)
    requires Ordered(t, next, clock) && k < |t|
    ensures Ordered(Erased(t, k), next, clock)
  {
    var u := Erased(t, k);
    assert forall x :: 0 <= x < |u| ==> u[x] == if x < k then t[x] else t[x + 1];
  }

  lemma InsertKeeps(t: seq<Entry>, pos: nat, e: Entry, id: nat, co: nat)
    requires pos <= |t|
    ensures Present(t, Some(id)) ==> Present(Inserted(t, pos, e), Some(id))
    ensures Owns(t, id, co) ==> Owns(Inserted(t, pos, e), id, co)
    ensures Owns(Inserted(t, pos, e), e.id, e.co)
  {
    var u := Inserted(t, pos, e);
    assert u[pos] == e;
    if Present(t, Some(id)) {
      var k :| 0 <= k < |t| && t[k].id == id;
      assert u[if k < pos then k else k + 1] == t[k];
    }
    if Owns(t, id, co) {
      var k :| 0 <= k < |t| && t[k].id == id && t[k].co == co;
      assert u[if k < pos then k else k + 1] == t[k];
    }
  }

  lemma OwnsPresent(t: seq<Entry>, id: nat, co: nat)
    requires Owns(t, id, co)
    ensures Present(t, Some(id))
  {
  }

  lemma EraseKeeps(t: seq<Entry>, k: nat, id: nat, co: nat)
    requires k < |t| && id != t[k].id
    ensures Present(t, Some(id)) ==> Present(Erased(t, k), Some(id))
    ensures Owns(t, id, co) ==> Owns(Erased(t, k), id, co)
  {
    var u := Erased(t, k);
    if Present(t, Some(id)) {
      var x :| 0 <= x < |t| && t[x].id == id;
      assert u[if x < k then x else x - 1] == t[x];
    }
    if Owns(t, id, co) {
      var x :| 0 <= x < |t| && t[x].id == id && t[x].co == co;
      assert u[if x < k then x else x - 1] == t[x];
    }
  }

  /** Erasing the first entries keeps the iterators of coroutines that have none of them. */
  lemma DropKeeps(t: seq<Entry>, n: nat, id: nat, co: nat)
    requires n <= |t| && Owns(t, id, co) && !HasEntry(t[..n], co)
    ensures Owns(t[n..], id, co)
  {
    assert forall y :: 0 <= y < n ==> t[..n][y].co == t[y].co;
    var x :| 0 <= x < |t| && t[x].id == id && t[x].co == co;
    assert t[n..][x - n] == t[x];
  }

  lemma DropOrdered(t: seq<Entry>, n: nat, next: nat, clock: int, now: int)
    requires Ordered(t, next, clock) && n <= |t| && clock <= now
    ensures Ordered(t[n..], next, now)
  {
    var u := t[n..];
    assert forall k :: 0 <= k < |u| ==> u[k] == t[k + n];
  }

  lemma DropKeepsLater(t: seq<Entry>, n: nat, h: nat)
    requires n <= h < |t|
    ensures Present(t[n..], Some(t[h].id))
  {
    assert t[n..][h - n] == t[h];
  }

  lemma FireSnoc(t: seq<Entry>, n: nat, wait: map<nat, State>)
    requires n < |t|
    ensures Fire(t[..n + 1], wait) ==
      var (res, w) := Fire(t[..n], wait);
      var co := t[n].co;
      if co !in w then (res + [co], w) else if w[co] == Waiting then (res + [co], w[co := TimedOut]) else (res, w)
  {
    assert t[..n + 1][..n] == t[..n];
  }

  class TimerManager {
    var timer: seq<Entry>
    var it: Option<nat>
    var next: nat
    /** `it` of each coroutine that has one, and the state of `waitx` of each that has one. */
    var its: map<nat, nat>
    var wait: map<nat, State>
    ghost var clock: int

    ghost predicate Valid()
      reads this
    {
      && Ordered(timer, next, clock)
      && Present(timer, it)
      && (forall co :: co in its ==> Owns(timer, its[co], co))
    }

    constructor (wait: map<nat, State>, now: int)
      ensures Valid() && timer == [] && it == None && its == map[] && this.wait == wait && clock == now
    {
      timer, it, next, its := [], None, 0, map[];
      this.wait, clock := wait, now;
    }

    /** `add_timer` of `TimerManager`; `pos` is where the map puts the entry. */
    method Add(now: int, ms: nat, co: nat, pos: nat) returns (id: nat)
      requires Valid() && clock <= now && ms <= MAX_WAIT && Fits(timer, pos, now + ms)
      modifies this`timer, this`it, this`next, this`clock
      ensures Valid() && clock == now && id == old(next)
      ensures timer == Inserted(old(timer), pos, Entry(id, now + ms, co)) && it == Some(id)
    {
      ghost var e := Entry(next, now + ms, co);
      InsertOrdered(timer, pos, e, clock, now);
      hide Ordered, Inserted, Owns;
      forall c | c in its ensures Owns(Inserted(timer, pos, e), its[c], c) {
        InsertKeeps(timer, pos, e, its[c], c);
      }
      InsertKeeps(timer, pos, e, e.id, co);
      OwnsPresent(Inserted(timer, pos, e), e.id, co);
      id := next;
      next := next + 1;
      timer := Inserted(timer, pos, Entry(id, now + ms, co));
      it := Some(id);
      clock := now;
    }

    /** `add_timer` of `Sched`: the running coroutine remembers its entry. */
    method AddFor(now: int, ms: nat, co: nat, pos: nat)
      requires Valid() && clock <= now && ms <= MAX_WAIT && Fits(timer, pos, now + ms)
      modifies this`timer, this`it, this`next, this`clock, this`its
      ensures Valid() && co in its && its == old(its)[co := old(next)]
      ensures timer == Inserted(old(timer), pos, Entry(old(next), now + ms, co))
    {
      InsertKeeps(timer, pos, Entry(next, now + ms, co), next, co);
      var id := Add(now, ms, co, pos);
      its := its[co := id];
    }

    /** The part of `resume` that removes the timer of a coroutine. The cached iterator moves on if it
        names the removed entry. */
    method Remove(co: nat)
      requires Valid()
      modifies this`timer, this`it, this`its
      ensures Valid() && co !in its && forall c :: c in its <==> c in old(its) && c != co
      ensures forall c :: c in its ==> its[c] == old(its)[c]
      ensures if co in old(its) then
                exists k :: 0 <= k < |old(timer)| && old(timer)[k].id == old(its)[co] && timer == Erased(old(timer), k)
              else timer == old(timer)
    {
      if co !in its { return; }
      var id := its[co];
      OwnersDiffer(co);
      OwnsPresent(timer, id, co);
      ghost var k := Delete(id);
      forall c | c in its && c != co ensures Owns(timer, its[c], c) {
        EraseKeeps(old(timer), k, its[c], c);
      }
      its := its - {co};
    }

    /** `del_timer`: the cached iterator moves on if it names the erased entry. */
    method Delete(id: nat) returns (k: nat)
      requires Ordered(timer, next, clock) && Present(timer, it) && Present(timer, Some(id))
      modifies this`timer, this`it
      ensures Ordered(timer, next, clock) && Present(timer, it)
      ensures k < |old(timer)| && old(timer)[k].id == id && timer == Erased(old(timer), k)
    {
      k := Find(id);
      EraseOrdered(timer, k, next, clock);
      hide Ordered;
      if it == Some(id) {
        it := if k + 1 < |timer| then Some(timer[k + 1].id) else None;
        assert k + 1 < |timer| ==> Erased(timer, k)[k] == timer[k + 1];
      } else if it.Some? {
        EraseKeeps(timer, k, it.value, 0);
      }
      timer := Erased(timer, k);
    }

    lemma OwnersDiffer(co: nat)
      requires Valid() && co in its
      ensures forall c :: c in its && c != co ==> its[c] != its[co]
    {
      assert Owns(timer, its[co], co);
      forall c | c in its && c != co ensures its[c] != its[co] {
        assert Owns(timer, its[c], c);
      }
    }

    /** Dereferencing an iterator. */
    method Find(id: nat) returns (k: nat)
      requires Present(timer, Some(id))
      ensures k < |timer| && timer[k].id == id
    {
      k := 0;
      while timer[k].id != id
        invariant k < |timer| && forall j :: 0 <= j < k ==> timer[j].id != id
        decreases |timer| - k
      {
        k := k + 1;
      }
    }

    /** The loop of `check_timeout`. */
    method Collect(now: int) returns (res: seq<nat>, n: nat)
      modifies this`its, this`wait
      ensures n == Expired(timer, now) && (res, wait) == Fire(timer[..n], old(wait))
      ensures forall co :: co in its <==> co in old(its) && !HasEntry(timer[..n], co)
      ensures forall co :: co in its ==> its[co] == old(its)[co]
    {
      res := [];
      n := 0;
      while n < |timer| && timer[n].ms <= now
        invariant n <= Expired(timer, now)
        invariant (res, wait) == Fire(timer[..n], old(wait))
        invariant forall co :: co in its <==> co in old(its) && !HasEntry(timer[..n], co)
        invariant forall co :: co in its ==> its[co] == old(its)[co]
      {
        FireSnoc(timer, n, old(wait));
        var co := timer[n].co;
        EntrySnoc(timer, n);
        if co in its { its := its - {co}; }
        if co !in wait {
          res := res + [co];
        } else if wait[co] == Waiting {
          wait := wait[co := TimedOut];
          res := res + [co];
        }
        n := n + 1;
      }
    }

    /** `check_timeout`: the expired entries leave the map, the waits among them that no event has
        claimed are reported in the order of their deadlines, and the time to wait for the next
        deadline fits 32 bits. */
    method CheckTimeout(now: int) returns (res: seq<nat>, ms: nat)
      requires Valid() && clock <= now
      modifies this`timer, this`it, this`its, this`wait, this`clock
      ensures Valid() && clock == now
      ensures var n := Expired(old(timer), now);
        && timer == old(timer)[n..] && (res, wait) == Fire(old(timer)[..n], old(wait))
        && forall co :: co in its <==> co in old(its) && !HasEntry(old(timer)[..n], co)
      ensures forall co :: co in its ==> its[co] == old(its)[co]
      ensures ms == (if timer == [] then MAX_WAIT else timer[0].ms - now) <= MAX_WAIT
    {
      if timer == [] {
        res, ms, clock := [], MAX_WAIT, now;
        return;
      }
      var n: nat;
      res, n := Collect(now);
      EraseExpired(n, now);
      clock := now;
      ms := if timer == [] then MAX_WAIT else timer[0].ms - now;
    }

    /** The end of `check_timeout`: the cached iterator moves to the first entry that stays if it names
        an expired one. */
    method EraseExpired(n: nat, now: int)
      requires Ordered(timer, next, clock) && clock <= now && Present(timer, it) && n == Expired(timer, now)
      requires forall co :: co in its ==> Owns(timer, its[co], co) && !HasEntry(timer[..n], co)
      modifies this`timer, this`it
      ensures timer == old(timer)[n..] && Ordered(timer, next, now) && Present(timer, it)
      ensures forall co :: co in its ==> Owns(timer, its[co], co)
    {
      DropOrdered(timer, n, next, clock, now);
      forall co | co in its ensures Owns(timer[n..], its[co], co) { DropKeeps(timer, n, its[co], co); }
      assert timer[0..] == timer;
      if n != 0 {
        if it.Some? {
          var h := Find(it.value);
          ExpiredAreFirst(timer, now, h);
          if timer[h].ms <= now {
            it := if n < |timer| then Some(timer[n].id) else None;
            if n < |timer| { DropKeepsLater(timer, n, n); }
          } else {
            DropKeepsLater(timer, n, h);
          }
        }
        timer := timer[n..];
      }
    }
  }

  lemma EntrySnoc(t: seq<Entry>, n: nat)
    requires n < |t|
    ensures forall c :: HasEntry(t[..n + 1], c) <==> HasEntry(t[..n], c) || c == t[n].co
  {
    var u := t[..n + 1];
    assert u[n] == t[n] && forall k :: 0 <= k < n ==> u[k] == t[..n][k];
    forall c ensures HasEntry(u, c) <==> HasEntry(t[..n], c) || c == t[n].co {
      if HasEntry(t[..n], c) {
        var k :| 0 <= k < n && t[..n][k].co == c;
        assert u[k].co == c;
      }
    }
  }
}
