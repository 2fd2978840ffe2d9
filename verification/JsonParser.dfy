/** `Parser::parse` of `src/json.cc`: a machine with labels, gotos and two explicit stacks that
    accepts exactly the grammar and builds exactly its trees. */
module JsonParser {
  import opened Options
  import opened Division
  import opened JsonText
  import opened JsonGrammar
  import opened JsonLexer
  import opened JsonNodes
  import JsonRfc
  import JsonRfcTheorems

  datatype Label =
    | ObjBeg | ObjValBeg | ObjValEnd | ArrBeg | ArrValBeg | ArrValEnd
    | ContainerEnd | ValBeg | End | Err

  // ----- what is left to do, seen from inside the open containers

  /** The result of the whole value when the innermost one yields `r`. */
  function Finish(s: string, fs: seq<Frame>, r: Option<(Json, nat)>, fits: string -> bool): Option<(Json, nat)>
    requires r.Some? ==> r.value.1 <= |s|
    decreases |fs|
  {
    if fs == [] || r.None? then r
    else
      var (v, n) := r.value;
      Finish(s, fs[..|fs| - 1], AfterValue(s, n, fs[|fs| - 1], v, fits), fits)
  }

  /** The rest of a container that had everything in `f` before the value `v`. */
  function AfterValue(s: string, n: nat, f: Frame, v: Json, fits: string -> bool): (r: Option<(Json, nat)>)
    requires n <= |s|
    ensures r.Some? ==> r.value.1 <= |s|
  {
    match f
    case ArrFrame(_, acc) => AfterElement(s, n, EraseSeq(acc) + [v], fits)
    case ObjFrame(_, ms, key) =>
      AfterMember(s, n, EraseMembers(ms) + [Member(if key.Some? then key.value.k else "", v)], fits)
  }

  /** The rest of a container after one of its values. */
  function After(s: string, n: nat, f: Frame, fits: string -> bool): (r: Option<(Json, nat)>)
    requires n <= |s|
    ensures r.Some? ==> r.value.1 <= |s|
  {
    match f
    case ArrFrame(_, acc) => AfterElement(s, n, EraseSeq(acc), fits)
    case ObjFrame(_, ms, _) => AfterMember(s, n, EraseMembers(ms), fits)
  }

  /** The rest of a container after its opening bracket or a comma. */
  function More(s: string, n: nat, f: Frame, fits: string -> bool): (r: Option<(Json, nat)>)
    requires n <= |s|
    ensures r.Some? ==> r.value.1 <= |s|
  {
    match f
    case ArrFrame(_, acc) => Elements(s, n, EraseSeq(acc), fits)
    case ObjFrame(_, ms, _) => Members(s, n, EraseMembers(ms), fits)
  }

  lemma AfterExtend(s: string, n: nat, f: Frame, v: Node, fits: string -> bool)
    requires n <= |s|
    ensures After(s, n, Extend(f, v), fits) == AfterValue(s, n, f, Erase(v), fits)
  {
    hide AfterElement, AfterMember;
    match f
    case ArrFrame(_, acc) => assert EraseSeq(acc + [v]) == EraseSeq(acc) + [Erase(v)];
    case ObjFrame(_, ms, key) =>
      var k := if key.Some? then key.value else KeyNode(0, "");
      assert EraseMembers(ms + [Pair(k.id, k.k, v)]) == EraseMembers(ms) + [Member(k.k, Erase(v))];
  }

  lemma FinishLast(s: string, fs: seq<Frame>, f: Frame, r: Option<(Json, nat)>, fits: string -> bool)
    requires r.Some? ==> r.value.1 <= |s|
    ensures Finish(s, fs + [f], r, fits) ==
      match r case None => None case Some((v, n)) => Finish(s, fs, AfterValue(s, n, f, v, fits), fits)
  {
    assert (fs + [f])[..|fs|] == fs;
  }

  // ----- the machine

  class Parser {
    const text: string
    const fits: string -> bool
    var s: seq<Item>
    var u: seq<nat>
    var size: nat
    var state: nat
    var val: Node
    /** The next address that the allocator hands out. */
    var next: nat
    ghost var fs: seq<Frame>
    ghost const goal: Option<(Json, nat)>

    /** The stacks and the two registers spell out the open containers `fs`. */
    ghost predicate Spell()
      reads this
    {
      && s == Encode(fs) && u == Marks(fs) && size == SizeOf(fs) && state == StateOf(fs)
      && (forall i :: 0 <= i < |fs| - 1 ==> Awaits(fs[i]))
    }

    /** Besides, they hold everything that was allocated, each node and key once. */
    ghost predicate Stacks()
      reads this
    {
      Spell() && AllHeld(fs) == Upto(next)
    }

    ghost predicate Open()
      reads this
    {
      Stacks() && fs != []
    }

    ghost function Outer(): seq<Frame>
      reads this
    {
      if fs == [] then [] else fs[..|fs| - 1]
    }

    ghost function Last(): Frame
      requires fs != []
      reads this
    {
      fs[|fs| - 1]
    }

    ghost predicate InArray()
      reads this
    {
      Open() && Last().ArrFrame?
    }

    ghost predicate InObject()
      reads this
    {
      Open() && Last().ObjFrame? && Last().key.None?
    }

    /** What holds when control is at `pc` with the current position `b`. */
    ghost predicate At(pc: Label, b: nat)
      reads this
    {
      && (goal.Some? ==> goal.value.1 <= |text|)
      && (!pc.Err? ==> b < |text|)
      && match pc
         case ObjBeg => Stacks() && (fs == [] || Awaits(Last())) && text[b] == '{'
                        && goal == Finish(text, fs, Value(text, b, fits), fits)
         case ArrBeg => Stacks() && (fs == [] || Awaits(Last())) && text[b] == '['
                        && goal == Finish(text, fs, Value(text, b, fits), fits)
         case ObjValBeg => InObject() && goal == Finish(text, Outer(), More(text, b + 1, Last(), fits), fits)
         case ArrValBeg => InArray() && goal == Finish(text, Outer(), More(text, b + 1, Last(), fits), fits)
         case ObjValEnd => InObject() && goal == Finish(text, Outer(), After(text, b + 1, Last(), fits), fits)
         case ArrValEnd => InArray() && goal == Finish(text, Outer(), After(text, b + 1, Last(), fits), fits)
         case ContainerEnd => (InArray() || InObject())
                              && goal == Finish(text, Outer(), Some((Erase(Tree(Last())), b + 1)), fits)
         case ValBeg => Stacks() && fs == [] && val == Nil
           && text[b] != '{' && text[b] != '[' && goal == Value(text, b, fits)
         case End => s == [] && u == [] && Ids(val) == Upto(next) && goal == Some((Erase(val), b + 1))
         case Err => Stacks() && goal == None && (fs == [] ==> val == Nil)
    }

    constructor (text: string, fits: string -> bool, ghost goal: Option<(Json, nat)>)
      ensures this.text == text && this.fits == fits && this.goal == goal
      ensures s == [] && u == [] && fs == [] && val == Nil && next == 0 && Stacks()
    {
      this.text, this.fits, this.goal := text, fits, goal;
      s, u, size, state, val, next := [], [], 0, TOP, Nil, 0;
      fs := [];
    }

    /** `obj_beg` and `arr_beg`: an empty node, and where to return to. */
    method Begin(isObj: bool)
      requires Stacks() && (fs == [] || Awaits(Last()))
      modifies this`s, this`u, this`size, this`state, this`next, this`fs
      ensures Open() && next == old(next) + 1
      ensures fs == old(fs) + [if isObj then ObjFrame(old(next), [], None) else ArrFrame(old(next), [])]
    {
      hide Encode, Items, AllHeld, Held, Marks, SizeOf, StateOf, EmptyNode;
      var f := if isObj then ObjFrame(next, [], None) else ArrFrame(next, []);
      EmptyFrame(f);
      EncodeLast(fs, f);
      AllHeldLast(fs, f);
      ghost var u0, s0 := u, s;
      u := u + [size];
      u := u + [state];
      s := s + [ValItem(EmptyNode(f))];
      next := next + 1;
      size := |s|;
      state := if isObj then IN_OBJECT else IN_ARRAY;
      assert u == u0 + [SizeOf(fs), StateOf(fs)];
      assert s == s0 + [ValItem(EmptyNode(f))] + [];
      assert forall i :: 0 <= i < |fs| ==> Awaits(fs[i]);
      fs := fs + [f];
    }

    /** `s.push_back(val)` for a value that belongs to the innermost container. */
    method PushValue(v: Node)
      requires Spell() && fs != [] && Awaits(Last()) && AllHeld(fs) + Ids(v) == Upto(next)
      modifies this`s, this`fs
      ensures Open() && fs == old(Outer()) + [Extend(old(Last()), v)] && Complete(Last())
      ensures Last().ArrFrame? == old(Last()).ArrFrame?
    {
      hide Encode, Items, AllHeld, Held, Marks, SizeOf, StateOf, Ids, Upto;
      ghost var outer, f := Outer(), Last();
      assert fs == outer + [f];
      EncodeLast(outer, f);
      EncodeLast(outer, Extend(f, v));
      ItemsExtend(f, v);
      AllHeldLast(outer, f);
      AllHeldLast(outer, Extend(f, v));
      HeldExtend(f, v);
      Regroup(AllHeld(outer), Held(f), Ids(v));
      s := s + [ValItem(v)];
      fs := outer + [Extend(f, v)];
      assert s == Encode(outer) + [ValItem(EmptyNode(f))] + (Items(f) + [ValItem(v)]);
    }

    /** A key is allocated and pushed. */
    method PushKey(key: string)
      requires InObject()
      modifies this`s, this`next, this`fs
      ensures Open() && next == old(next) + 1
      ensures fs == old(Outer()) + [ObjFrame(old(Last()).id, old(Last()).ms, Some(KeyNode(old(next), key)))]
    {
      hide Encode, Items, AllHeld, Held, Marks, SizeOf, StateOf;
      ghost var outer, f := Outer(), Last();
      var k := KeyNode(next, key);
      ghost var g := ObjFrame(f.id, f.ms, Some(k));
      assert fs == outer + [f];
      EncodeLast(outer, f);
      EncodeLast(outer, g);
      AllHeldLast(outer, f);
      AllHeldLast(outer, g);
      PendKey(f, k);
      Regroup(AllHeld(outer), Held(f), multiset{k.id});
      s := s + [KeyItem(k)];
      next := next + 1;
      fs := outer + [g];
      assert s == Encode(outer) + [ValItem(EmptyNode(f))] + (Items(f) + [KeyItem(k)]);
    }

    /** A node for a value that is neither null nor a container. */
    method Make(v: Json) returns (n: Node)
      modifies this`next
      ensures n == Leaf(old(next), v) && next == old(next) + 1
    {
      n := Leaf(next, v);
      next := next + 1;
    }

    /** The `switch` over the first character of a value that is not a container. What it allocates is
        the node it returns. */
    method ParseScalar(b: nat) returns (r: Option<nat>, n: Node)
      requires b < |text|
      modifies this`next
      ensures Scalar(text, b, fits) == match r case None => None case Some(p) => Some((Erase(n), p + 1))
      ensures r.Some? ==> b <= r.value < |text|
      ensures Upto(next) == Upto(old(next)) + Ids(n) && (r.None? ==> n == Nil)
    {
      hide StringBody, Number, IsAt;
      n := Nil;
      if text[b] == '"' {
        var v;
        r, v := ParseString(text, b);
        if r.Some? { n := Make(v); }
      } else if text[b] == 'f' {
        if !IsAt(text, b, "false") { return None, n; }
        r := Some(b + 4);
        n := Make(Bool(false));
      } else if text[b] == 't' {
        if !IsAt(text, b, "true") { return None, n; }
        r := Some(b + 3);
        n := Make(Bool(true));
      } else if text[b] == 'n' {
        r := if IsAt(text, b, "null") then Some(b + 3) else None;
      } else {
        var v;
        r, v := ParseNumber(text, b, fits);
        if r.Some? { n := Make(v); }
      }
    }

    /** `obj_beg` and `arr_beg`. */
    method StepBegin(b: nat, isObj: bool) returns (pc: Label)
      requires At(if isObj then ObjBeg else ArrBeg, b)
      modifies this`s, this`u, this`size, this`state, this`next, this`fs
      ensures At(pc, b) && pc == (if isObj then ObjValBeg else ArrValBeg)
    {
      hide Encode, Items, AllHeld, Held, Marks, SizeOf, StateOf, Finish, Members, Elements, Upto;
      ghost var before := fs;
      Begin(isObj);
      assert Outer() == before;
      assert Last() == if isObj then ObjFrame(old(next), [], None) else ArrFrame(old(next), []);
      pc := if isObj then ObjValBeg else ArrValBeg;
    }

    /** Dispatch on the first character of a value inside a container: a nested container begins, or
        a scalar is read and pushed. */
    method StepValue(at: nat, isObj: bool) returns (pc: Label, b: nat)
      requires Open() && Awaits(Last()) && Last().ObjFrame? == isObj && at < |text|
          && (goal.Some? ==> goal.value.1 <= |text|)
      requires goal == Finish(text, fs, Value(text, at, fits), fits)
      modifies this`s, this`next, this`fs, this`val
      ensures At(pc, b) && (pc.ObjBeg? || pc.ArrBeg? || pc.ObjValEnd? || pc.ArrValEnd? || pc.Err?)
      ensures at <= b <= |text|
    {
      hide Encode, Items, AllHeld, Held, Marks, SizeOf, StateOf;
      hide Value, After, AfterValue, Scalar, Finish, Erase, Ids, Upto, Extend, Tree;
      b := at;
      if text[at] == '{' { return ObjBeg, b; }
      if text[at] == '[' { return ArrBeg, b; }
      ScalarIsValue(text, at, fits);
      ghost var outer, f := Outer(), Last();
      assert fs == outer + [f];
      FinishLast(text, outer, f, Value(text, at, fits), fits);
      var r, v := ParseScalar(at);
      if r.None? {
        NilHoldsNothing(AllHeld(fs));
        return Err, b;
      }
      val := v;
      AfterExtend(text, r.value + 1, f, v, fits);
      PushValue(v);
      assert Outer() == outer && Last() == Extend(f, v);
      return if isObj then ObjValEnd else ArrValEnd, r.value;
    }

    /** The key, the colon and the start of the value of one member; the key is pushed as soon as it
        is read. */
    method ReadKey(b: nat) returns (r: Option<nat>)
      requires InObject() && b < |text|
      modifies this`s, this`next, this`fs
      ensures Open() && r.Some? == Key(text, b).Some?
      ensures r.Some? ==> r.value == Key(text, b).value.1
      ensures r.Some? ==>
        fs == old(Outer()) + [ObjFrame(old(Last()).id, old(Last()).ms, Some(KeyNode(old(next), Key(text, b).value.0)))]
    {
      hide Encode, Items, AllHeld, Held, Marks, SizeOf, StateOf;
      var q, key := ParseKey(text, b);
      if q.None? { return None; }
      PushKey(key);
      var c := SkipLoop(text, q.value);
      if c == |text| || text[c] != ':' { return None; }
      var v := SkipLoop(text, c);
      if v == |text| { return None; }
      return Some(v);
    }

    /** `obj_val_beg`. */
    method StepObjValBeg(at: nat) returns (pc: Label, b: nat)
      requires At(ObjValBeg, at)
      modifies this`s, this`next, this`fs, this`val
      ensures At(pc, b) && !pc.ValBeg? && !pc.End? && !pc.ObjValBeg? && !pc.ArrValBeg?
      ensures at < b <= |text|
    {
      hide Encode, Items, AllHeld, Held, Marks, SizeOf, StateOf, Value, Key, After, AfterMember, Finish;
      ghost var outer, f := Outer(), Last();
      assert fs == outer + [f];
      FinishNone(text, outer, fits);
      b := SkipWhiteSpace(text, at);
      if b == |text| { return Err, b; }
      if text[b] == '}' { return ContainerEnd, b; }
      ghost var k := Key(text, b);
      var v := ReadKey(b);
      if v.None? { return Err, b; }
      FinishLast(text, outer, Last(), Value(text, v.value, fits), fits);
      pc, b := StepValue(v.value, true);
    }

    /** `arr_val_beg`. */
    method StepArrValBeg(at: nat) returns (pc: Label, b: nat)
      requires At(ArrValBeg, at)
      modifies this`s, this`next, this`fs, this`val
      ensures At(pc, b) && !pc.ValBeg? && !pc.End? && !pc.ObjValBeg? && !pc.ArrValBeg?
      ensures at < b <= |text|
    {
      hide Encode, Items, AllHeld, Held, Marks, SizeOf, StateOf, Value, AfterElement, Finish;
      ghost var outer, f := Outer(), Last();
      assert fs == outer + [f];
      FinishNone(text, outer, fits);
      b := SkipWhiteSpace(text, at);
      if b == |text| { return Err, b; }
      if text[b] == ']' { return ContainerEnd, b; }
      FinishLast(text, outer, f, Value(text, b, fits), fits);
      pc, b := StepValue(b, false);
    }

    /** `obj_val_end` and `arr_val_end`. */
    method StepValEnd(at: nat, isObj: bool) returns (pc: Label, b: nat)
      requires At(if isObj then ObjValEnd else ArrValEnd, at)
      ensures At(pc, b) && (pc.Err? || pc.ContainerEnd? || pc == (if isObj then ObjValBeg else ArrValBeg))
      ensures at < b <= |text|
    {
      hide Encode, Items, AllHeld, Held, Marks, SizeOf, StateOf, Members, Elements, Finish;
      FinishNone(text, Outer(), fits);
      b := SkipWhiteSpace(text, at);
      if b == |text| { return Err, b; }
      if text[b] == ',' { return if isObj then ObjValBeg else ArrValBeg, b; }
      if text[b] == (if isObj then '}' else ']') { return ContainerEnd, b; }
      return Err, b;
    }

    /** Attaches the items above the innermost node to it and pops what to return to. The node is now
        a value of the enclosing container, or the result. */
    method CloseContainer()
      requires Open() && Complete(Last())
      modifies this`s, this`u, this`size, this`state, this`fs
      ensures old(Outer()) == [] ==> s == [ValItem(Tree(old(Last())))] && u == [] && state == TOP && fs == []
      ensures old(Outer()) == [] ==> Ids(Tree(old(Last()))) == Upto(next)
      ensures old(Outer()) != [] ==> Open() && Complete(Last()) && state != TOP
      ensures old(Outer()) != [] ==>
        var outer := old(Outer()); var g := outer[|outer| - 1];
        fs == outer[..|outer| - 1] + [Extend(g, Tree(old(Last())))] && Last().ArrFrame? == g.ArrFrame?
    {
      hide Encode, Items, AllHeld, Held, Marks, SizeOf, StateOf, EmptyNode, Attach, Tree, Values, MembersOf, Ids, Upto;
      ghost var outer, f := Outer(), Last();
      assert fs == outer + [f];
      EncodeLast(outer, f);
      AttachInnermost();
      PopMarks(Marks(outer), SizeOf(outer), StateOf(outer));
      AllHeldLast(outer, f);
      HeldTree(f);
      ReturnTo(outer, Tree(f));
      hide Extend, Complete, Awaits;
      fs := if outer == [] then [] else outer[..|outer| - 1] + [Extend(outer[|outer| - 1], Tree(f))];
    }

    /** Pops the state and the size to return to. */
    method PopMarks(ghost below: seq<nat>, ghost x: nat, ghost y: nat)
      requires u == below + [x, y]
      modifies this`u, this`size, this`state
      ensures u == below && size == x && state == y
    {
      MarksAt(below, x, y);
      state, u := u[|u| - 1], u[..|u| - 1];
      size, u := u[|u| - 1], u[..|u| - 1];
    }

    /** The items above the innermost node become its contents. */
    method AttachInnermost()
      requires Open() && Complete(Last())
      modifies this`s
      ensures s == Encode(Outer()) + [ValItem(Tree(Last()))]
    {
      hide Encode, Items, AllHeld, Held, Marks, StateOf, EmptyNode, Attach, Tree, Values, MembersOf;
      ghost var outer, f := Outer(), Last();
      assert fs == outer + [f];
      EncodeLast(outer, f);
      AttachItems(f);
      NodeAt(Encode(outer), EmptyNode(f), Items(f));
      if |s| > size {
        var items := s[size..];
        s := s[..size];
        s := s[..|s| - 1] + [ValItem(Attach(s[|s| - 1].v, items))];
      } else {
        EmptyItems(f);
      }
    }

    /** `arr_end` and `obj_end`. */
    method StepContainerEnd(at: nat) returns (pc: Label)
      requires At(ContainerEnd, at)
      modifies this`s, this`u, this`size, this`state, this`fs, this`val
      ensures At(pc, at) && (pc.ObjValEnd? || pc.ArrValEnd? || pc.End?)
    {
      hide Encode, Items, AllHeld, Held, Marks, SizeOf, EmptyNode, Attach, Tree, Ids, Upto, After, Finish;
      ghost var outer, f := Outer(), Last();
      FinishReturns(text, outer, Erase(Tree(f)), at + 1, fits);
      if outer != [] { AfterExtend(text, at + 1, outer[|outer| - 1], Tree(f), fits); }
      CloseContainer();
      if state == IN_OBJECT { return ObjValEnd; }
      if state == IN_ARRAY { return ArrValEnd; }
      val := s[|s| - 1].v;
      s := s[..|s| - 1];
      return End;
    }

    /** One round of the loop at `err`; it is the last one if the outermost container was closed. */
    method RecoverOne() returns (done: bool)
      requires Open()
      modifies this`s, this`u, this`size, this`state, this`fs, this`val
      ensures done ==> s == [] && u == [] && val == Collapse(old(fs))
      ensures !done ==> Open() && Collapse(fs) == Collapse(old(fs)) && |fs| == |old(fs)| - 1
    {
      hide Encode, AllHeld, Held, Marks, SizeOf, EmptyNode, Attach, Tree, Items, StateOf, Collapse, Upto, Extend;
      ghost var outer, f := Outer(), Last();
      assert fs == outer + [f];
      EncodeLast(outer, f);
      PendingIsOdd(f);
      CollapseStep(outer, f);
      if |s| > size && state == IN_OBJECT && (|s| - size) % 2 == 1 {
        NilHoldsNothing(AllHeld(fs));
        PushValue(Nil);
      }
      assert Outer() == outer && Tree(Last()) == Cut(f);
      CloseContainer();
      done := state == TOP;
      if done {
        val := s[|s| - 1].v;
        s := s[..|s| - 1];
      }
    }

    /** `err`: whatever has been read so far becomes one tree, so that its owner can free it. */
    method Recover()
      requires Stacks() && (fs == [] ==> val == Nil)
      modifies this`s, this`u, this`size, this`state, this`fs, this`val
      ensures s == [] && u == [] && val == Collapse(old(fs)) && Ids(val) == Upto(next)
    {
      hide Encode, AllHeld, Held, Marks, SizeOf, StateOf, Upto, Ids, Awaits;
      CollapseHolds(fs);
      while |s| > 0
        invariant Stacks() && (fs == [] ==> val == Nil) && Collapse(fs) == Collapse(old(fs))
        decreases |fs|
      {
        OpenIsNotEmpty(fs);
        var done := RecoverOne();
        if done { return; }
      }
      OpenIsNotEmpty(fs);
      assert u == [] by { MarksEmpty(); }
    }

    /** From the first character of the value to the position of its last one, or an error. */
    method Run(start: nat) returns (ok: bool, b: nat)
      requires start < |text| && goal == Value(text, start, fits)
      requires s == [] && u == [] && fs == [] && val == Nil && next == 0 && Stacks()
      modifies this
      ensures s == [] && u == [] && Ids(val) == Upto(next)
      ensures ok == goal.Some? && (ok ==> goal == Some((Erase(val), b + 1)))
    {
      hide Encode, AllHeld, Held, Marks, SizeOf, StateOf, Value, More, After, AfterValue, Scalar, Members, Elements,
          Ids, Upto, Erase, Tree;
      b := start;
      var pc := if text[b] == '{' then ObjBeg else if text[b] == '[' then ArrBeg else ValBeg;
      while !pc.End? && !pc.Err?
        invariant At(pc, b)
        decreases |text| - b, Rank(pc)
      {
        match pc
        case ObjBeg => pc := StepBegin(b, true);
        case ArrBeg => pc := StepBegin(b, false);
        case ObjValBeg => pc, b := StepObjValBeg(b);
        case ArrValBeg => pc, b := StepArrValBeg(b);
        case ObjValEnd => pc, b := StepValEnd(b, true);
        case ArrValEnd => pc, b := StepValEnd(b, false);
        case ContainerEnd => pc := StepContainerEnd(b);
        case ValBeg =>
          var last := StepValBeg(b);
          pc, b := if last.Some? then End else Err, if last.Some? then last.value else b;
      }
      ok := pc.End?;
      if !ok { Recover(); }
    }

    /** `val_beg`: a scalar at the top. */
    method StepValBeg(at: nat) returns (last: Option<nat>)
      requires At(ValBeg, at)
      modifies this`val, this`next
      ensures last.None? ==> At(Err, at)
      ensures last.Some? ==> At(End, last.value) && at <= last.value
    {
      hide Scalar, Value, Finish, More, After, SizeOf, StateOf, InObject, InArray, Outer, Last, Tree, Erase;
      EmptyStacks(fs);
      hide Encode, Marks, AllHeld, Upto;
      ScalarIsValue(text, at, fits);
      var v;
      last, v := ParseScalar(at);
      if last.None? { return; }
      val := v;
      assert multiset{} + Ids(v) == Ids(v);
    }
  }

  lemma EmptyStacks(fs: seq<Frame>)
    ensures fs == [] ==> Encode(fs) == [] && Marks(fs) == [] && AllHeld(fs) == multiset{}
  {
  }

  lemma ScalarIsValue(s: string, b: nat, fits: string -> bool)
    requires b < |s| && s[b] != '{' && s[b] != '['
    ensures Value(s, b, fits) == Scalar(s, b, fits)
  {
  }

  /** Gotos that stay at the same character lead to a smaller rank. */
  function Rank(pc: Label): nat {
    match pc
    case ContainerEnd => 3
    case ObjBeg => 2
    case ArrBeg => 2
    case ValBeg => 2
    case ObjValBeg => 1
    case ArrValBeg => 1
    case ObjValEnd => 1
    case ArrValEnd => 1
    case End => 0
    case Err => 0
  }

  lemma NodeAt(below: seq<Item>, node: Node, items: seq<Item>)
    ensures var s := below + [ValItem(node)] + items;
      s[|below| + 1..] == items && s[..|below| + 1] == below + [ValItem(node)]
  {
  }

  lemma MarksAt(below: seq<nat>, x: nat, y: nat)
    ensures var u := below + [x, y];
      u[|u| - 1] == y && u[..|u| - 1] == below + [x] && (below + [x])[..|below|] == below
  {
  }

  lemma EmptyItems(f: Frame)
    requires Complete(f) && Items(f) == []
    ensures Tree(f) == EmptyNode(f)
  {
    AttachItems(f);
  }

  /** A finished value in place of its container is one more value of the enclosing one. */
  lemma {:induction false} ReturnTo(outer: seq<Frame>, v: Node)
    requires forall i :: 0 <= i < |outer| ==> Awaits(outer[i])
    ensures outer == [] ==>
      && Encode(outer) == [] && Marks(outer) == []
      && SizeOf(outer) == 0 && StateOf(outer) == TOP && AllHeld(outer) == multiset{}
    ensures outer != [] ==>
      var g := outer[|outer| - 1]; var fs := outer[..|outer| - 1] + [Extend(g, v)];
      && Encode(fs) == Encode(outer) + [ValItem(v)] && Marks(fs) == Marks(outer)
      && SizeOf(fs) == SizeOf(outer) && StateOf(fs) == StateOf(outer) && StateOf(outer) != TOP
      && AllHeld(fs) == AllHeld(outer) + Ids(v)
      && Complete(Extend(g, v)) && Extend(g, v).ArrFrame? == g.ArrFrame?
  {
    assert Encode([]) == [] && Marks([]) == [] && AllHeld([]) == multiset{};
    hide Encode, Marks, AllHeld, Held, Items, Ids;
    if outer != [] {
      var init, g := outer[..|outer| - 1], outer[|outer| - 1];
      assert outer == init + [g];
      EncodeLast(init, g);
      EncodeLast(init, Extend(g, v));
      ItemsExtend(g, v);
      AllHeldLast(init, g);
      AllHeldLast(init, Extend(g, v));
      HeldExtend(g, v);
      Regroup(AllHeld(init), Held(g), Ids(v));
      hide SizeOf, StateOf;
      Appended(Encode(init) + [ValItem(EmptyNode(g))], Items(g), ValItem(v));
    }
  }

  lemma Appended(a: seq<Item>, b: seq<Item>, x: Item)
    ensures a + (b + [x]) == a + b + [x]
  {
  }

  lemma FinishReturns(s: string, outer: seq<Frame>, v: Json, n: nat, fits: string -> bool)
    requires n <= |s|
    ensures Finish(s, outer, Some((v, n)), fits) ==
      if outer == [] then Some((v, n))
      else Finish(s, outer[..|outer| - 1], AfterValue(s, n, outer[|outer| - 1], v, fits), fits)
  {
  }

  lemma NilHoldsNothing(held: multiset<nat>)
    ensures held + Ids(Nil) == held
  {
  }

  lemma MarksEmpty()
    ensures Marks([]) == []
  {
  }

  /** Cutting off the innermost container does not change what the open ones collapse to. */
  lemma CollapseStep(outer: seq<Frame>, f: Frame)
    ensures Collapse(outer + [f]) ==
      (if outer == [] then Cut(f) else Collapse(outer[..|outer| - 1] + [Extend(outer[|outer| - 1], Cut(f))]))
  {
    var fs := outer + [f];
    if outer != [] { assert fs[..|fs| - 2] == outer[..|outer| - 1]; }
  }

  lemma PendingIsOdd(f: Frame)
    ensures f.ObjFrame? ==> (|Items(f)| % 2 == 1 <==> f.key.Some?)
  {
    if f.ObjFrame? {
      MembersOfPairs(f.ms);
      var odd := if f.key.Some? then 1 else 0;
      assert |Items(f)| == 2 * |f.ms| + odd;
      hide Items;
      DivIs(|Items(f)|, 2, |f.ms|, odd);
    }
  }

  lemma OpenIsNotEmpty(fs: seq<Frame>)
    ensures fs != [] <==> Encode(fs) != []
  {
  }

  lemma FinishNone(s: string, fs: seq<Frame>, fits: string -> bool)
    ensures Finish(s, fs, None, fits) == None
  {
  }

  /** The text is derived by the relaxed grammar of RFC 8259 and can be read, and `v` is what it means. */
  ghost predicate Says(text: string, fits: string -> bool, v: Json) {
    exists t ::
      JsonRfc.DerivesText(text, t, true) && JsonRfc.Readable(text, t, fits) && JsonRfc.Meaning(text, t, true) == v
  }

  lemma SaysIff(text: string, fits: string -> bool)
    ensures forall v :: Says(text, fits, v) <==> Document(text, fits) == Some(v)
  {
    forall v ensures Says(text, fits, v) <==> Document(text, fits) == Some(v) {
      JsonRfcTheorems.AcceptedIff(text, fits, v);
    }
  }

  /** `Parser::parse` followed by what `Json::parse_from` does with its result. The verdict and the
      value are those of the grammar, and what the derivation of the text means; both stacks end empty; and
      on every outcome exactly the nodes and keys that were allocated can be reached from the tree returned,
      each of them once. */
  method Parse(text: string, fits: string -> bool) returns (ok: bool, val: Node, allocs: nat, ghost left: nat)
    ensures ok <==> Document(text, fits).Some?
    ensures ok ==> Document(text, fits) == Some(Erase(val))
    ensures if ok then Says(text, fits, Erase(val)) else forall v :: !Says(text, fits, v)
    ensures Ids(val) == Upto(allocs) && left == 0
  {
    hide Says;
    SaysIff(text, fits);
    ok, val, allocs, left := false, Nil, 0, 0;
    var b := 0;
    while b < |text| && IsSpace(text[b])
      invariant b <= |text| && SkipSpace(text, 0) == SkipSpace(text, b)
    {
      b := b + 1;
    }
    if b == |text| { return; }
    ghost var goal := Value(text, b, fits);
    var p := new Parser(text, fits, goal);
    var found, last := p.Run(b);
    val, allocs, left := p.val, p.next, |p.s| + |p.u|;
    if !found { return; }
    b := SkipLoop(text, last);
    ok := b == |text|;
  }
}
