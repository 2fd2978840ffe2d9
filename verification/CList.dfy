/** `clist` of `include/co/clist.h`: a doubly linked list whose head's `prev` is the tail and whose
    tail's `next` is null. Every operation refines the matching operation on a sequence. */
module CList {

  /** The links of a node, and what the node holds beside them. */
  class Clink<T> {
    var prev: Clink?<T>
    var next: Clink?<T>
    const data: T

    constructor (data: T)
      ensures prev == null && next == null && this.data == data
    {
      prev, next := null, null;
      this.data := data;
    }
  }

  ghost function Without<T>(s: seq<T>, i: nat): seq<T>
    requires i < |s|
  {
    s[..i] + s[i + 1..]
  }

  class List<T> {
    var head: Clink?<T>
    ghost var nodes: seq<Clink<T>>

    /** The links spell out `nodes`. */
    ghost predicate Valid()
      reads this, nodes
    {
      && (forall i, j :: 0 <= i < j < |nodes| ==> nodes[i] != nodes[j])
      && (nodes == [] ==> head == null)
      && (nodes != [] ==> head == nodes[0] && nodes[0].prev == nodes[|nodes| - 1] && nodes[|nodes| - 1].next == null)
      && (forall i {:trigger nodes[i].prev} :: 1 <= i < |nodes| ==> nodes[i].prev == nodes[i - 1])
      && (forall i {:trigger nodes[i].next} :: 0 <= i < |nodes| - 1 ==> nodes[i].next == nodes[i + 1])
    }

    constructor ()
      ensures Valid() && nodes == []
    {
      head, nodes := null, [];
    }

    method Front() returns (x: Clink?<T>)
      requires Valid()
      ensures x == if nodes == [] then null else nodes[0]
    {
      x := head;
    }

    method Back() returns (x: Clink?<T>)
      requires Valid()
      ensures x == if nodes == [] then null else nodes[|nodes| - 1]
    {
      x := if head != null then head.prev else null;
    }

    method Clear()
      modifies this
      ensures Valid() && nodes == []
    {
      head, nodes := null, [];
    }

    method PushFront(node: Clink<T>)
      requires Valid() && node !in nodes
      modifies this, node, nodes
      ensures Valid() && nodes == [node] + old(nodes)
    {
      if head != null {
        node.next := head;
        node.prev := head.prev;
        head.prev := node;
        head := node;
      } else {
        node.next := null;
        node.prev := node;
        head := node;
      }
      nodes := [node] + nodes;
    }

    method PushBack(node: Clink<T>)
      requires Valid() && node !in nodes
      modifies this, node, nodes
      ensures Valid() && nodes == old(nodes) + [node]
    {
      if head != null {
        node.next := null;
        node.prev := head.prev;
        head.prev.next := node;
        head.prev := node;
      } else {
        node.next := null;
        node.prev := node;
        head := node;
      }
      nodes := nodes + [node];
    }

    method PopFront() returns (x: Clink?<T>)
      requires Valid()
      modifies this, nodes
      ensures Valid()
      ensures if old(nodes) == [] then x == null && nodes == [] else x == old(nodes)[0] && nodes == old(nodes)[1..]
    {
      x := head;
      if head != null {
        assert |nodes| > 1 ==> nodes[0].next == nodes[1];
        head := head.next;
        if head != null { head.prev := x.prev; }
        nodes := nodes[1..];
      }
    }

    method PopBack() returns (x: Clink?<T>)
      requires Valid()
      modifies this, nodes
      ensures Valid()
      ensures if old(nodes) == [] then x == null && nodes == []
              else x == old(nodes)[|old(nodes)| - 1] && nodes == old(nodes)[..|old(nodes)| - 1]
    {
      x := Back();
      if x != null {
        ghost var n := |nodes| - 1;
        assert Without(nodes, n) == nodes[..n];
        Erase(x, n);
      }
    }

    /** `i` is where the node stands. */
    method Erase(node: Clink<T>, ghost i: nat)
      requires Valid() && i < |nodes| && nodes[i] == node
      modifies this, nodes
      ensures Valid() && nodes == Without(old(nodes), i)
    {
      if node != head {
        assert node.prev == nodes[i - 1];
        assert i < |nodes| - 1 ==> node.next == nodes[i + 1];
        node.prev.next := node.next;
        var x := if node.next != null then node.next else head;
        x.prev := node.prev;
      } else {
        assert |nodes| > 1 ==> nodes[0].next == nodes[1];
        head := head.next;
        if head != null { head.prev := node.prev; }
      }
      nodes := Without(nodes, i);
    }

    method MoveFront(node: Clink<T>, ghost i: nat)
      requires Valid() && i < |nodes| && nodes[i] == node
      modifies this, nodes
      ensures Valid() && nodes == [node] + Without(old(nodes), i)
    {
      if node != head {
        assert node.next != null <==> i < |nodes| - 1;
        if node.next != null { MiddleToFront(node, i); } else { TailToFront(node); }
      } else {
        assert i == 0;
      }
    }

    /** A node between head and tail leaves the chain. */
    method Unlink(node: Clink<T>, ghost i: nat)
      requires Valid() && 0 < i < |nodes| - 1 && nodes[i] == node
      modifies this, nodes
      ensures Valid() && nodes == Without(old(nodes), i) && nodes != [] && node !in nodes && head == old(head)
    {
      assert node.prev == nodes[i - 1];
      assert node.next == nodes[i + 1];
      node.prev.next := node.next;
      node.next.prev := node.prev;
      nodes := Without(nodes, i);
    }

    /** A node between head and tail moves to the front. */
    method MiddleToFront(node: Clink<T>, ghost i: nat)
      requires Valid() && 0 < i < |nodes| - 1 && nodes[i] == node
      modifies this, nodes
      ensures Valid() && nodes == [node] + Without(old(nodes), i)
    {
      Unlink(node, i);
      node.prev := head.prev;
      head.prev := node;
      node.next := head;
      head := node;
      nodes := [node] + nodes;
    }

    /** The tail moves to the front: the list turns by one node. */
    method TailToFront(node: Clink<T>)
      requires Valid() && |nodes| > 1 && nodes[|nodes| - 1] == node
      modifies this, nodes
      ensures Valid() && nodes == [node] + Without(old(nodes), |old(nodes)| - 1)
    {
      assert node.prev == nodes[|nodes| - 2];
      node.prev.next := node.next;
      node.next := head;
      head := node;
      nodes := [node] + Without(nodes, |nodes| - 1);
    }

    method MoveBack(node: Clink<T>, ghost i: nat)
      requires Valid() && i < |nodes| && nodes[i] == node
      modifies this, nodes
      ensures Valid() && nodes == Without(old(nodes), i) + [node]
    {
      if node != head.prev {
        if node == head {
          HeadToBack();
        } else {
          MiddleToBack(node, i);
        }
      } else {
        assert i == |nodes| - 1;
      }
    }

    /** A node between head and tail moves to the back. */
    method MiddleToBack(node: Clink<T>, ghost i: nat)
      requires Valid() && 0 < i < |nodes| - 1 && nodes[i] == node
      modifies this, nodes
      ensures Valid() && nodes == Without(old(nodes), i) + [node]
    {
      Unlink(node, i);
      node.prev := head.prev;
      node.next := null;
      head.prev.next := node;
      head.prev := node;
      nodes := nodes + [node];
    }

    /** The head moves to the back: the list turns by one node. */
    method HeadToBack()
      requires Valid() && |nodes| > 1
      modifies this, nodes
      ensures Valid() && nodes == Without(old(nodes), 0) + [old(nodes)[0]]
    {
      assert nodes[0].next == nodes[1];
      var node := head;
      head := head.next;
      node.prev.next := node;
      node.next := null;
      nodes := Without(nodes, 0) + [node];
    }

    /** `swap`: two lists exchange all their nodes. */
    method Swap(l: List<T>)
      requires Valid() && l.Valid()
      modifies this, l
      ensures Valid() && l.Valid() && nodes == old(l.nodes) && l.nodes == old(nodes)
    {
      var x := head;
      head := l.head;
      l.head := x;
      nodes, l.nodes := l.nodes, nodes;
    }
  }

  /** A sequence is determined by what the links say: two valid readings of the same heap agree, so
      `nodes` can be recovered from `head` and the `next` fields alone. */
  lemma LinksDetermineNodes<T>(l: List<T>, other: seq<Clink<T>>)
    requires l.Valid()
    requires other != [] ==> l.head == other[0] && other[|other| - 1].next == null
    requires other == [] ==> l.head == null
    requires forall i {:trigger other[i].next} :: 0 <= i < |other| - 1 ==> other[i].next == other[i + 1]
    ensures other == l.nodes
  {
    forall k: nat ensures (k < |other| <==> k < |l.nodes|) && (k < |other| ==> other[k] == l.nodes[k]) {
      LinksAgreeAt(l, other, k);
    }
    assert |other| == |l.nodes|;
  }

  lemma {:induction false} LinksAgreeAt<T>(l: List<T>, other: seq<Clink<T>>, k: nat)
    requires l.Valid()
    requires other != [] ==> l.head == other[0] && other[|other| - 1].next == null
    requires other == [] ==> l.head == null
    requires forall i {:trigger other[i].next} :: 0 <= i < |other| - 1 ==> other[i].next == other[i + 1]
    ensures (k < |other| <==> k < |l.nodes|) && (k < |other| ==> other[k] == l.nodes[k])
  {
    if k > 0 {
      LinksAgreeAt(l, other, k - 1);
      assert k < |other| ==> other[k - 1].next == other[k];
      assert k < |l.nodes| ==> l.nodes[k - 1].next == l.nodes[k];
    }
  }
}
