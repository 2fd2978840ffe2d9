/** The memory that `Parser::parse` of `src/json.cc` builds: nodes and keys with the addresses they were
    allocated at, and the containers that are still open. */
module JsonNodes {
  import opened Options
  import opened JsonText

  /** A tree in memory. The null value is a null pointer; every other value is a node, and every key is
      an allocation of its own. */
  datatype Node =
    | Nil
    | Leaf(id: nat, v: Json)
    | ArrNode(id: nat, vs: seq<Node>)
    | ObjNode(id: nat, ms: seq<Pair>)

  datatype Pair = Pair(kid: nat, key: string, val: Node)

  /** The value that a tree stands for. */
  function Erase(n: Node): Json
    decreases n, 0
  {
    match n
    case Nil => Null
    case Leaf(_, v) => v
    case ArrNode(_, vs) => Arr(EraseSeq(vs))
    case ObjNode(_, ms) => Obj(EraseMembers(ms))
  }

  function EraseSeq(vs: seq<Node>): (r: seq<Json>)
    ensures |r| == |vs| && forall i :: 0 <= i < |vs| ==> r[i] == Erase(vs[i])
    decreases vs, 1
  {
    seq(|vs|, i requires 0 <= i < |vs| => Erase(vs[i]))
  }

  function EraseMembers(ms: seq<Pair>): (r: seq<Member>)
    ensures |r| == |ms| && forall i :: 0 <= i < |ms| ==> r[i] == Member(ms[i].key, Erase(ms[i].val))
    decreases ms, 1
  {
    seq(|ms|, i requires 0 <= i < |ms| => Member(ms[i].key, Erase(ms[i].val)))
  }

  /** The addresses of the nodes and keys that can be reached from a node, each as often as it can be
      reached. */
  function Ids(n: Node): multiset<nat>
    decreases n, 0
  {
    match n
    case Nil => multiset{}
    case Leaf(id, _) => multiset{id}
    case ArrNode(id, vs) => multiset{id} + SeqIds(vs)
    case ObjNode(id, ms) => multiset{id} + PairIds(ms)
  }

  function SeqIds(vs: seq<Node>): multiset<nat>
    decreases vs, 1
  {
    if vs == [] then multiset{} else Ids(vs[0]) + SeqIds(vs[1..])
  }

  function PairIds(ms: seq<Pair>): multiset<nat>
    decreases ms, 1
  {
    if ms == [] then multiset{} else multiset{ms[0].kid} + Ids(ms[0].val) + PairIds(ms[1..])
  }

  /** The first `n` addresses handed out, each once. */
  function Upto(n: nat): (m: multiset<nat>)
    ensures forall i: nat :: m[i] == if i < n then 1 else 0
  {
    if n == 0 then multiset{} else Upto(n - 1) + multiset{n - 1}
  }

  lemma {:induction false} SeqIdsAppend(vs: seq<Node>, v: Node)
    ensures SeqIds(vs + [v]) == SeqIds(vs) + Ids(v)
    decreases |vs|
  {
    if vs == [] {
      assert vs + [v] == [v] && [v][1..] == [];
    } else {
      assert (vs + [v])[1..] == vs[1..] + [v];
      SeqIdsAppend(vs[1..], v);
    }
  }

  lemma {:induction false} PairIdsAppend(ms: seq<Pair>, m: Pair)
    ensures PairIds(ms + [m]) == PairIds(ms) + multiset{m.kid} + Ids(m.val)
    decreases |ms|
  {
    if ms == [] {
      assert ms + [m] == [m] && [m][1..] == [];
    } else {
      assert (ms + [m])[1..] == ms[1..] + [m];
      PairIdsAppend(ms[1..], m);
    }
  }

  // ----- open containers

  /** A key in memory. */
  datatype KeyNode = KeyNode(id: nat, k: string)

  /** An open container: its node, what has been read of it, and the key that waits for its value. */
  datatype Frame = ArrFrame(id: nat, acc: seq<Node>) | ObjFrame(id: nat, ms: seq<Pair>, key: Option<KeyNode>)

  /** An entry of the value stack: a key, or a node. */
  datatype Item = KeyItem(k: KeyNode) | ValItem(v: Node)

  function ValItems(vs: seq<Node>): seq<Item> {
    if vs == [] then [] else ValItems(vs[..|vs| - 1]) + [ValItem(vs[|vs| - 1])]
  }

  function KeyOf(m: Pair): KeyNode {
    KeyNode(m.kid, m.key)
  }

  function Pairs(ms: seq<Pair>): seq<Item> {
    if ms == [] then []
    else Pairs(ms[..|ms| - 1]) + [KeyItem(KeyOf(ms[|ms| - 1])), ValItem(ms[|ms| - 1].val)]
  }

  function Items(f: Frame): seq<Item> {
    match f
    case ArrFrame(_, acc) => ValItems(acc)
    case ObjFrame(_, ms, key) => Pairs(ms) + (if key.Some? then [KeyItem(key.value)] else [])
  }

  function EmptyNode(f: Frame): Node {
    if f.ArrFrame? then ArrNode(f.id, []) else ObjNode(f.id, [])
  }

  /** The value stack: for each open container its still empty node and the items read so far. */
  function Encode(fs: seq<Frame>): seq<Item> {
    if fs == [] then [] else
      var f := fs[|fs| - 1];
      Encode(fs[..|fs| - 1]) + [ValItem(EmptyNode(f))] + Items(f)
  }

  function SizeOf(fs: seq<Frame>): nat {
    if fs == [] then 0 else |Encode(fs[..|fs| - 1])| + 1
  }

  const TOP := 0
  const IN_OBJECT := '{' as nat
  const IN_ARRAY := '[' as nat

  function StateOf(fs: seq<Frame>): nat {
    if fs == [] then TOP else if fs[|fs| - 1].ArrFrame? then IN_ARRAY else IN_OBJECT
  }

  /** The other stack: the size and the state to return to. */
  function Marks(fs: seq<Frame>): seq<nat> {
    if fs == [] then [] else
      var outer := fs[..|fs| - 1];
      Marks(outer) + [SizeOf(outer), StateOf(outer)]
  }

  // ----- the tree built from a frame's items

  function Values(items: seq<Item>): seq<Node> {
    if items == [] then [] else
      var last := items[|items| - 1];
      Values(items[..|items| - 1]) + [if last.ValItem? then last.v else Nil]
  }

  function MembersOf(items: seq<Item>): seq<Pair> {
    if |items| < 2 then [] else
      var k, v := items[|items| - 2], items[|items| - 1];
      var key := if k.KeyItem? then k.k else KeyNode(0, "");
      MembersOf(items[..|items| - 2]) + [Pair(key.id, key.k, if v.ValItem? then v.v else Nil)]
  }

  /** What the node becomes when its array of items is attached. */
  function Attach(node: Node, items: seq<Item>): Node {
    match node
    case ArrNode(id, _) => ArrNode(id, Values(items))
    case ObjNode(id, _) => ObjNode(id, MembersOf(items))
    case _ => node
  }

  lemma {:induction false} ValuesOfItems(vs: seq<Node>)
    ensures Values(ValItems(vs)) == vs
    decreases |vs|
  {
    if vs != [] {
      var init := ValItems(vs[..|vs| - 1]);
      assert (init + [ValItem(vs[|vs| - 1])])[..|init|] == init;
      ValuesOfItems(vs[..|vs| - 1]);
    }
  }

  lemma NoMembers()
    ensures MembersOf([]) == []
  {
  }

  lemma PairLast(init: seq<Item>, k: KeyNode, v: Node)
    ensures MembersOf(init + [KeyItem(k), ValItem(v)]) == MembersOf(init) + [Pair(k.id, k.k, v)]
  {
    var items := init + [KeyItem(k), ValItem(v)];
    assert items[..|items| - 2] == init;
  }

  lemma {:induction false} MembersOfPairs(ms: seq<Pair>)
    ensures MembersOf(Pairs(ms)) == ms && |Pairs(ms)| == 2 * |ms|
    decreases |ms|
  {
    hide MembersOf;
    if ms == [] {
      NoMembers();
    } else {
      var init, m := Pairs(ms[..|ms| - 1]), ms[|ms| - 1];
      MembersOfPairs(ms[..|ms| - 1]);
      PairLast(init, KeyOf(m), m.val);
      assert ms == ms[..|ms| - 1] + [m];
    }
  }

  function Tree(f: Frame): Node {
    match f
    case ArrFrame(id, acc) => ArrNode(id, acc)
    case ObjFrame(id, ms, _) => ObjNode(id, ms)
  }

  predicate Awaits(f: Frame) {
    f.ArrFrame? || f.key.Some?
  }

  predicate Complete(f: Frame) {
    f.ArrFrame? || f.key.None?
  }

  /** The frame after a value for it is complete. */
  function Extend(f: Frame, v: Node): Frame {
    match f
    case ArrFrame(id, acc) => ArrFrame(id, acc + [v])
    case ObjFrame(id, ms, key) =>
      var k := if key.Some? then key.value else KeyNode(0, "");
      ObjFrame(id, ms + [Pair(k.id, k.k, v)], None)
  }

  lemma ItemsExtend(f: Frame, v: Node)
    requires Awaits(f)
    ensures Items(Extend(f, v)) == Items(f) + [ValItem(v)]
  {
    match f
    case ArrFrame(_, acc) => assert (acc + [v])[..|acc|] == acc;
    case ObjFrame(_, ms, key) =>
      var m := Pair(key.value.id, key.value.k, v);
      assert (ms + [m])[..|ms|] == ms;
  }

  lemma AttachItems(f: Frame)
    requires Complete(f)
    ensures Attach(EmptyNode(f), Items(f)) == Tree(f)
  {
    match f
    case ArrFrame(_, acc) => ValuesOfItems(acc);
    case ObjFrame(_, ms, key) =>
      MembersOfPairs(ms);
      assert Pairs(ms) + [] == Pairs(ms);
  }

  lemma EncodeLast(fs: seq<Frame>, f: Frame)
    ensures Encode(fs + [f]) == Encode(fs) + [ValItem(EmptyNode(f))] + Items(f)
    ensures SizeOf(fs + [f]) == |Encode(fs)| + 1
    ensures Marks(fs + [f]) == Marks(fs) + [SizeOf(fs), StateOf(fs)]
    ensures StateOf(fs + [f]) == if f.ArrFrame? then IN_ARRAY else IN_OBJECT
  {
    assert (fs + [f])[..|fs|] == fs;
  }

  // ----- ownership

  /** The addresses that one open container holds. */
  function Held(f: Frame): multiset<nat> {
    match f
    case ArrFrame(id, acc) => multiset{id} + SeqIds(acc)
    case ObjFrame(id, ms, key) =>
      multiset{id} + PairIds(ms) + (if key.Some? then multiset{key.value.id} else multiset{})
  }

  function AllHeld(fs: seq<Frame>): multiset<nat> {
    if fs == [] then multiset{} else AllHeld(fs[..|fs| - 1]) + Held(fs[|fs| - 1])
  }

  lemma {:induction false} HeldExtend(f: Frame, v: Node)
    requires Awaits(f)
    ensures Held(Extend(f, v)) == Held(f) + Ids(v)
    ensures Complete(Extend(f, v))
  {
    hide Ids, SeqIds, PairIds;
    match f
    case ArrFrame(id, acc) =>
      SeqIdsAppend(acc, v);
      Regroup(multiset{id}, SeqIds(acc), Ids(v));
    case ObjFrame(id, ms, key) =>
      PairIdsAppend(ms, Pair(key.value.id, key.value.k, v));
      Regroup(multiset{id}, PairIds(ms) + multiset{key.value.id}, Ids(v));
      Regroup(multiset{id}, PairIds(ms), multiset{key.value.id});
  }

  lemma Regroup(a: multiset<nat>, b: multiset<nat>, c: multiset<nat>)
    ensures a + (b + c) == a + b + c
  {
  }

  lemma AllHeldLast(fs: seq<Frame>, f: Frame)
    ensures AllHeld(fs + [f]) == AllHeld(fs) + Held(f)
  {
    assert (fs + [f])[..|fs|] == fs;
  }

  lemma HeldTree(f: Frame)
    requires Complete(f)
    ensures Held(f) == Ids(Tree(f))
  {
  }

  lemma EmptyFrame(f: Frame)
    requires f == ArrFrame(f.id, []) || f == ObjFrame(f.id, [], None)
    ensures Items(f) == [] && Held(f) == multiset{f.id} && Tree(f) == EmptyNode(f)
  {
  }

  lemma PendKey(f: Frame, key: KeyNode)
    requires f.ObjFrame? && f.key.None?
    ensures Items(ObjFrame(f.id, f.ms, Some(key))) == Items(f) + [KeyItem(key)]
    ensures Held(ObjFrame(f.id, f.ms, Some(key))) == Held(f) + multiset{key.id}
  {
    assert Pairs(f.ms) + [] == Pairs(f.ms);
  }

  /** A container when nothing more is read: a key without a value gets a null value. */
  function Cut(f: Frame): Node {
    Tree(if Complete(f) then f else Extend(f, Nil))
  }

  /** The one tree that all open containers make then: each becomes the last value of the enclosing one. */
  function Collapse(fs: seq<Frame>): Node
    decreases |fs|
  {
    if fs == [] then Nil
    else if |fs| == 1 then Cut(fs[0])
    else Collapse(fs[..|fs| - 2] + [Extend(fs[|fs| - 2], Cut(fs[|fs| - 1]))])
  }

  lemma {:induction false} CutHolds(f: Frame)
    ensures Ids(Cut(f)) == Held(f)
  {
    var g := if Complete(f) then f else Extend(f, Nil);
    HeldTree(g);
    if !Complete(f) {
      HeldExtend(f, Nil);
      assert Held(f) + multiset{} == Held(f);
    }
    hide Held, Extend, Tree;
    assert Ids(Nil) == multiset{};
  }

  /** It holds what they hold: nothing is lost and nothing is reached twice. */
  lemma {:induction false} CollapseHolds(fs: seq<Frame>)
    requires forall i :: 0 <= i < |fs| - 1 ==> Awaits(fs[i])
    ensures Ids(Collapse(fs)) == AllHeld(fs)
    decreases |fs|
  {
    if fs == [] {
      assert Ids(Nil) == AllHeld([]);
    } else if |fs| == 1 {
      CutHolds(fs[0]);
      assert fs == [] + [fs[0]] && AllHeld([]) == multiset{};
      AllHeldLast([], fs[0]);
    } else {
      var init, h, f := fs[..|fs| - 2], fs[|fs| - 2], fs[|fs| - 1];
      assert fs == init + [h] + [f];
      hide AllHeld, Held, Ids, Cut, Extend, Awaits;
      CutHolds(f);
      HeldExtend(h, Cut(f));
      AllHeldLast(init, Extend(h, Cut(f)));
      AllHeldLast(init, h);
      AllHeldLast(init + [h], f);
      Regroup(AllHeld(init), Held(h), Held(f));
      CollapseHolds(init + [Extend(h, Cut(f))]);
    }
  }
}
