/** `mutex_impl::queue` of `src/co/co.cc`: a first-in, first-out queue kept in blocks of 13. */
module BlockQueue {
  import opened CList

  /** A queued waiter: a coroutine, or a null pointer for some blocked thread. */
  datatype Token = Co(id: nat) | Thread

  const N := 13

  class Memb {
    var rx: nat
    var wx: nat
    const q: array<Token>

    constructor ()
      ensures rx == 0 && wx == 0 && q.Length == N && fresh(q)
    {
      rx, wx := 0, 0;
      q := new Token[N](_ => Thread);
    }
  }

  function Flatten(ss: seq<seq<Token>>): seq<Token> {
    if ss == [] then [] else ss[0] + Flatten(ss[1..])
  }

  lemma {:induction false} FlattenAppend(ss: seq<seq<Token>>, s: seq<Token>)
    ensures Flatten(ss + [s]) == Flatten(ss) + s
  {
    if ss == [] {
      assert Flatten([s]) == s + Flatten([]);
    } else {
      assert (ss + [s])[1..] == ss[1..] + [s];
      FlattenAppend(ss[1..], s);
    }
  }

  lemma FlattenHead(s: seq<Token>, rest: seq<seq<Token>>)
    ensures Flatten([s] + rest) == s + Flatten(rest)
  {
    assert ([s] + rest)[1..] == rest;
  }

  /** `mutex_impl::queue`: a linked list of blocks of 13 places, each read from the front and written at the
      back; a block that has been read to its end is reset, and dropped unless it is the last one. */
  class Queue {
    const list: List<Memb>
    var size: nat
    ghost var blocks: seq<Memb>
    ghost var slices: seq<seq<Token>>
    ghost var contents: seq<Token>

    ghost function Arrays(): set<array<Token>>
      reads this
    {
      set b | b in blocks :: b.q
    }

    /** The nodes of the list are the blocks. */
    ghost predicate Linked()
      reads this`blocks, list, list.nodes
    {
      && list.Valid() && |list.nodes| == |blocks|
      && forall b :: 0 <= b < |blocks| ==> list.nodes[b].data == blocks[b]
    }

    ghost predicate Separate()
      reads this
    {
      forall i, j :: 0 <= i < j < |blocks| ==> blocks[i] != blocks[j] && blocks[i].q != blocks[j].q
    }

    ghost predicate BlockOk(b: nat)
      requires b < |blocks| == |slices|
      reads this, blocks[b], blocks[b].q
    {
      var m := blocks[b];
      && m.q.Length == N && m.rx <= m.wx <= N && m.q[m.rx..m.wx] == slices[b]
      && (m.rx == m.wx ==> m.rx == 0 && |blocks| == 1)
    }

    ghost predicate Valid()
      reads this, list, list.nodes, blocks, Arrays()
    {
      && Linked() && Separate() && |blocks| == |slices|
      && (forall b :: 0 <= b < |blocks| ==> BlockOk(b))
      && contents == Flatten(slices) && size == |contents|
    }

    constructor ()
      ensures Valid() && contents == [] && blocks == [] && list.nodes == [] && fresh(list)
    {
      list := new List();
      size, blocks, slices, contents := 0, [], [], [];
    }

    predicate Empty()
      requires Valid()
      reads this, list, list.nodes, blocks, Arrays()
      ensures Empty() <==> contents == []
    {
      size == 0
    }

    /** `_q.back()`, as the block. */
    method LastBlock() returns (m: Memb?)
      requires Linked()
      ensures m == if blocks == [] then null else blocks[|blocks| - 1]
    {
      var node := list.Back();
      m := if node == null then null else node.data;
    }

    method AddBlock(m: Memb)
      requires Linked()
      modifies this`blocks, list, list.nodes
      ensures Linked() && blocks == old(blocks) + [m]
      ensures forall n :: n in list.nodes && n !in old(list.nodes) ==> fresh(n)
    {
      var node := new Clink(m);
      list.PushBack(node);
      blocks := blocks + [m];
    }

    method DropBlock()
      requires Linked() && blocks != []
      modifies this`blocks, list, list.nodes
      ensures Linked() && blocks == old(blocks)[1..]
      ensures forall n :: n in list.nodes ==> n in old(list.nodes)
    {
      var node := list.PopFront();
      blocks := blocks[1..];
    }

    method PushBack(x: Token)
      requires Valid()
      modifies this, list, list.nodes, blocks, Arrays()
      ensures Valid() && contents == old(contents) + [x]
      ensures forall b :: b in blocks && b !in old(blocks) ==> fresh(b) && fresh(b.q)
      ensures forall n :: n in list.nodes && n !in old(list.nodes) ==> fresh(n)
    {
      var last := LastBlock();
      if last == null || last.wx == N {
        FillNew(x);
      } else {
        FillLast(last, x);
      }
    }

    /** The element goes into a new block. */
    method FillNew(x: Token)
      requires Valid() && (blocks != [] ==> blocks[|blocks| - 1].wx == N)
      modifies this, list, list.nodes
      ensures Valid() && contents == old(contents) + [x]
      ensures forall b :: b in blocks && b !in old(blocks) ==> fresh(b) && fresh(b.q)
      ensures forall n :: n in list.nodes && n !in old(list.nodes) ==> fresh(n)
    {
      hide Linked, Flatten;
      var m := new Memb();
      AddBlock(m);
      m.q[0] := x;
      m.wx := 1;
      FlattenAppend(slices, [x]);
      slices := slices + [[x]];
      size := size + 1;
      contents := contents + [x];
      ghost var last := |blocks| - 1;
      forall b | 0 <= b < |blocks| ensures BlockOk(b) {
        if b < last { assert old(BlockOk(b)) && blocks[b] == old(blocks[b]) && slices[b] == old(slices[b]); }
      }
      assert Separate();
    }

    method FillLast(m: Memb, x: Token)
      requires Valid() && blocks != [] && m == blocks[|blocks| - 1] && m.wx != N
      modifies this, blocks, Arrays()
      ensures Valid() && contents == old(contents) + [x] && blocks == old(blocks)
    {
      ghost var last := |blocks| - 1;
      assert BlockOk(last);
      hide Linked, Flatten;
      ghost var init, s := slices[..last], slices[last];
      assert slices == init + [s];
      FlattenAppend(init, s);
      FlattenAppend(init, s + [x]);
      m.q[m.wx] := x;
      m.wx := m.wx + 1;
      slices := init + [s + [x]];
      size := size + 1;
      contents := contents + [x];
      forall b | 0 <= b < |blocks| ensures BlockOk(b) {
        if b < last { assert old(BlockOk(b)) && blocks[b] != m; }
      }
    }

    /** Returns `Thread`, that is, a null pointer, if the queue is empty. */
    method PopFront() returns (x: Token)
      requires Valid()
      modifies this, list, list.nodes, blocks
      ensures Valid()
      ensures if old(contents) == [] then contents == [] && x == Thread
              else x == old(contents)[0] && contents == old(contents)[1..]
      ensures (forall b :: b in blocks ==> b in old(blocks)) && (forall n :: n in list.nodes ==> n in old(list.nodes))
    {
      x := Thread;
      var first := list.Front();
      if first != null {
        assert BlockOk(0);
        if first.data.rx < first.data.wx {
          x := TakeFirst(first.data);
        } else {
          assert slices[0] == [] && slices[1..] == [];
          assert Flatten(slices) == slices[0] + Flatten(slices[1..]) == [];
        }
      } else {
        assert slices == [];
      }
    }

    /** The part of `pop_front` for a first block with unread places. */
    method TakeFirst(m: Memb) returns (x: Token)
      requires Valid() && blocks != [] && m == blocks[0] && m.rx < m.wx
      modifies this, list, list.nodes, blocks
      ensures Valid() && old(contents) != []
      ensures x == old(contents)[0] && contents == old(contents)[1..]
      ensures (forall b :: b in blocks ==> b in old(blocks)) && (forall n :: n in list.nodes ==> n in old(list.nodes))
    {
      assert BlockOk(0);
      hide Linked, Flatten;
      ghost var rest := slices[1..];
      FlattenHead(slices[0], rest);
      FlattenHead(slices[0][1..], rest);
      assert slices == [slices[0]] + rest;
      assert contents == slices[0] + Flatten(rest) && slices[0] != [];
      x := m.q[m.rx];
      assert x == slices[0][0];
      m.rx := m.rx + 1;
      size := size - 1;
      contents := contents[1..];
      ghost var s := slices[0][1..];
      slices := [s] + rest;
      assert contents == s + Flatten(rest);
      forall b | 1 <= b < |blocks| ensures BlockOk(b) {
        assert old(BlockOk(b)) && blocks[b] != m && slices[b] == old(slices[b]);
      }
      if m.rx == m.wx {
        assert s == [];
        EndBlock(m);
      }
    }

    /** The first block has been read to its end: it is reset, and dropped unless it is the last one. */
    method EndBlock(m: Memb)
      requires Linked() && Separate() && |blocks| == |slices| && blocks != [] && m == blocks[0] && m.q.Length == N
      requires slices[0] == [] && contents == Flatten(slices[1..]) && size == |contents|
      requires forall b :: 1 <= b < |blocks| ==> BlockOk(b)
      modifies this, list, list.nodes, m
      ensures Valid() && contents == old(contents)
      ensures (forall b :: b in blocks ==> b in old(blocks)) && (forall n :: n in list.nodes ==> n in old(list.nodes))
    {
      hide Linked, Flatten;
      m.rx, m.wx := 0, 0;
      var last := LastBlock();
      if last != m {
        DropBlock();
        slices := slices[1..];
        forall b | 0 <= b < |blocks| ensures BlockOk(b) {
          assert old(BlockOk(b + 1)) && blocks[b] == old(blocks[b + 1]) && slices[b] == old(slices[b + 1]);
        }
        assert Separate();
      } else {
        assert slices == [[]] + slices[1..];
        FlattenHead([], slices[1..]);
      }
    }
  }
}
