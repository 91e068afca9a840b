/** The critical sections of bget and brelse (kernel/fs/bio.c) over the linked list of buffers,
    proved to compute `BufferCache.Bget` and `BufferCache.Bdrop`. */
module Bio {
  import opened Base
  import opened List
  import B = BufferCache

  /** The nodes in list order. */
  ghost function Pick(nodes: seq<Node>, order: seq<nat>): (c: seq<Node>)
    requires forall k :: 0 <= k < |order| ==> order[k] < |nodes|
    ensures |c| == |order| && forall k :: 0 <= k < |order| ==> c[k] == nodes[order[k]]
  {
    seq(|order|, k requires 0 <= k < |order| => nodes[order[k]])
  }

  ghost predicate Numbered(nodes: seq<Node>, head: Node) {
    forall i :: 0 <= i < |nodes| ==> nodes[i].id == i && nodes[i] != head
  }

  /** init_bcache's loop: n nodes pushed in order. */
  method LinkAll(n: nat) returns (head: Node, nodes: seq<Node>)
    ensures fresh(head) && |nodes| == n && Numbered(nodes, head) && Ring(head, nodes)
    ensures forall i :: 0 <= i < n ==> fresh(nodes[i])
  {
    head := new Node(n);
    nodes := [];
    ListInit(head);
    while |nodes| < n
      invariant |nodes| <= n && fresh(head) && Numbered(nodes, head) && Ring(head, nodes)
      invariant forall i :: 0 <= i < |nodes| ==> fresh(nodes[i])
    {
      var node := new Node(|nodes|);
      PushBack(head, node, nodes);
      nodes := nodes + [node];
    }
  }

  lemma FindFreeStep(bufs: seq<B.Buf>, order: seq<nat>, p: nat)
    requires (forall k :: 0 <= k < |order| ==> order[k] < |bufs|) && p <= |order|
    ensures p == 0 ==> B.FindFree(bufs, order, p) == 0
    ensures p > 0 ==>
              B.FindFree(bufs, order, p) == if bufs[order[p - 1]].refc == 0 then p else B.FindFree(bufs, order, p - 1)
  {
  }

  lemma LinkedAt(head: Node, chain: seq<Node>, k: int)
    requires Ring(head, chain) && -1 <= k < |chain|
    ensures Linked(head, chain, k)
  {
  }

  /** Position p - 1 of the list is the node of buffer order[p - 1]. */
  lemma NodeAt(c: Bcache, p: nat)
    requires c.Valid() && p <= |c.order|
    ensures forall k :: 0 <= k < |c.order| ==> c.order[k] < |c.nodes|
    ensures c.bufs.Length == |c.nodes| && (forall k :: 0 <= k < |c.order| ==> c.order[k] < c.bufs.Length)
    ensures p > 0 ==>
      var n := At(c.head, Pick(c.nodes, c.order), p - 1);
      n == Pick(c.nodes, c.order)[p - 1] && n.id == c.order[p - 1] && n != c.head
  {
  }

  class Bcache {
    const bufs: array<B.Buf>
    const nodes: seq<Node>
    const head: Node
    ghost var order: seq<nat>

    ghost predicate Valid()
      reads this, bufs, head, nodes
    {
      bufs.Length == |nodes| && Numbered(nodes, head) && B.ListOk(bufs[..], order) && Ring(head, Pick(nodes, order))
    }

    constructor (n: nat)
      ensures Valid() && fresh(bufs) && fresh(head) && bufs.Length == n
      ensures forall i :: 0 <= i < n ==> bufs[i] == B.Buf(0, 0, 0, false, [], None)
      ensures |order| == n && forall i :: 0 <= i < n ==> order[i] == i
    {
      var bs := new B.Buf[n](_ => B.Buf(0, 0, 0, false, [], None));
      var h, ns := LinkAll(n);
      bufs, nodes, head := bs, ns, h;
      order := seq(n, i => i);
      new;
      assert Pick(nodes, order) == nodes;
    }

    /** The loop over `next`, looking for the block: |bufs| when it is not cached. */
    method ScanForward(dev: nat, blockno: nat) returns (i: nat)
      requires Valid()
      ensures var h := B.FindHit(bufs[..], order, 0, dev, blockno);
        i == if h < |order| then order[h] else bufs.Length
    {
      ghost var chain := Pick(nodes, order);
      assert Linked(head, chain, -1);
      var node := head.next;
      ghost var p: nat := 0;
      while node != head
        invariant p <= |order| && node == At(head, chain, p)
        invariant B.FindHit(bufs[..], order, p, dev, blockno) == B.FindHit(bufs[..], order, 0, dev, blockno)
        decreases |order| - p
      {
        if B.Matches(bufs[node.id], dev, blockno) { return node.id; }
        assert Linked(head, chain, p);
        node := node.next;
        p := p + 1;
      }
      return bufs.Length;
    }

    /** The loop over `prev`, looking for an unreferenced buffer: |bufs| when there is none. */
    method ScanBackward() returns (i: nat)
      requires Valid()
      ensures var f := B.FindFree(bufs[..], order, |order|);
        i == if f > 0 then order[f - 1] else bufs.Length
    {
      ghost var chain := Pick(nodes, order);
      ghost var was := bufs[..];
      hide B.FindFree;
      hide Ring;
      hide B.ListOk;
      LinkedAt(head, chain, |chain| - 1);
      var node := head.prev;
      ghost var p: nat := |order|;
      NodeAt(this, p);
      while node != head
        invariant p <= |order| && node == At(head, chain, p - 1)
        invariant B.FindFree(was, order, p) == B.FindFree(was, order, |order|)
        decreases p
      {
        NodeAt(this, p);
        FindFreeStep(was, order, p);
        if bufs[node.id].refc == 0 { return node.id; }
        LinkedAt(head, chain, p - 2);
        node := node.prev;
        p := p - 1;
      }
      FindFreeStep(was, order, p);
      return bufs.Length;
    }

    /** bget up to spin_put: false where the kernel panics, else the buffer chosen. */
    method Bget(dev: nat, blockno: nat) returns (ok: bool, i: nat)
      requires Valid()
      modifies bufs
      ensures Valid() && order == old(order) && ok == B.Bget(old(bufs[..]), order, dev, blockno).Ok?
      ensures ok ==> B.Bget(old(bufs[..]), order, dev, blockno) == Ok((bufs[..], i))
    {
      hide Ring;
      hide Numbered;
      hide B.FindHit;
      hide B.FindFree;
      i := ScanForward(dev, blockno);
      if i < bufs.Length {
        bufs[i] := bufs[i].(refc := bufs[i].refc + 1);
        return true, i;
      }
      i := ScanBackward();
      if i < bufs.Length {
        bufs[i] := bufs[i].(refc := 1, dev := dev, blockno := blockno, valid := false);
        return true, i;
      }
      return false, 0;
    }

    /** list_remove followed by list_pushfront. */
    method ToFront(i: nat)
      requires Valid() && i < bufs.Length
      modifies this, head, nodes
      ensures Valid() && order == [i] + B.Without(old(order), i)
    {
      ghost var chain := Pick(nodes, order);
      ghost var h := B.MoveFront(bufs[..], order, i);
      B.WithoutAt(order, i, h);
      MoveToFront(head, nodes[i], chain, h);
      order := [i] + B.Without(order, i);
      assert Pick(nodes, order) == [nodes[i]] + Dropped(chain, h);
    }

    /** brelse from spin_get on. */
    method Drop(i: nat) returns (ok: bool)
      requires Valid() && i < bufs.Length
      modifies this, bufs, head, nodes
      ensures Valid() && ok == B.Bdrop(old(bufs[..]), old(order), i).Ok?
      ensures ok ==> B.Bdrop(old(bufs[..]), old(order), i) == Ok((bufs[..], order))
    {
      hide Ring;
      hide Numbered;
      hide B.Without;
      if bufs[i].refc == 0 { return false; }
      bufs[i] := bufs[i].(refc := bufs[i].refc - 1);
      if bufs[i].refc == 0 { ToFront(i); }
      return true;
    }
  }
}
