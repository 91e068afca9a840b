/** The intrusive circular doubly linked list (kernel/util/list.c).  `Ring(head, s)` says that the
    nodes s, in this order, hang between head.next and head.prev. */
module List {

  /** A list node inside a numbered record; `id` is what container_of recovers. */
  class Node {
    const id: nat
    var next: Node?
    var prev: Node?

    constructor (id: nat)
      ensures this.id == id && next == null && prev == null
    {
      this.id := id;
      next, prev := null, null;
    }
  }

  /** The node at position k of the circle; positions -1 and |s| are the head. */
  ghost function At(head: Node, s: seq<Node>, k: int): Node {
    if 0 <= k < |s| then s[k] else head
  }

  ghost predicate Distinct(head: Node, s: seq<Node>) {
    head !in s && forall j, k :: 0 <= j < k < |s| ==> s[j] != s[k]
  }

  ghost predicate Linked(head: Node, s: seq<Node>, k: int)
    reads At(head, s, k), At(head, s, k + 1)
  {
    At(head, s, k).next == At(head, s, k + 1) && At(head, s, k + 1).prev == At(head, s, k)
  }

  ghost predicate Ring(head: Node, s: seq<Node>)
    reads head, s
  {
    Distinct(head, s) && forall k :: -1 <= k < |s| ==> Linked(head, s, k)
  }

  method ListInit(head: Node)
    modifies head
    ensures Ring(head, [])
  {
    head.next, head.prev := head, head;
  }

  method PushBack(head: Node, node: Node, ghost s: seq<Node>)
    requires Ring(head, s) && node != head && node !in s
    modifies head, node, s
    ensures Ring(head, s + [node])
    ensures forall n :: n in s && n != At(head, s, |s| - 1) ==> n.next == old(n.next) && n.prev == old(n.prev)
  {
    assert Linked(head, s, |s| - 1);
    node.next := head;
    node.prev := head.prev;
    head.prev.next := node;
    head.prev := node;
    forall k | -1 <= k < |s| + 1 ensures Linked(head, s + [node], k) {
      assert old(Linked(head, s, if k < |s| then k else |s| - 1));
      assert old(Linked(head, s, |s| - 1));
    }
  }

  method PushFront(head: Node, node: Node, ghost s: seq<Node>)
    requires Ring(head, s) && node != head && node !in s
    modifies head, node, s
    ensures Ring(head, [node] + s)
  {
    assert Linked(head, s, -1);
    node.prev := head;
    node.next := head.next;
    head.next.prev := node;
    head.next := node;
    forall k | -1 <= k < |s| + 1 ensures Linked(head, [node] + s, k) {
      assert old(Linked(head, s, if k >= 0 then k - 1 else -1));
    }
  }

  ghost function Dropped(s: seq<Node>, k: nat): seq<Node>
    requires k < |s|
  {
    s[..k] + s[k + 1..]
  }

  method Remove(node: Node, ghost head: Node, ghost s: seq<Node>, ghost k: nat)
    requires Ring(head, s) && k < |s| && s[k] == node
    modifies head, s
    ensures Ring(head, Dropped(s, k)) && node.next == null && node.prev == null
  {
    assert Linked(head, s, k - 1) && Linked(head, s, k);
    assert At(head, s, k) == node;
    node.prev.next := node.next;
    node.next.prev := node.prev;
    node.prev := null;
    node.next := null;
    ghost var s' := Dropped(s, k);
    forall j | -1 <= j < |s'| ensures Linked(head, s', j) {
      assert old(Linked(head, s, j)) && old(Linked(head, s, j + 1));
      assert old(Linked(head, s, k - 1)) && old(Linked(head, s, k));
    }
  }

  /** brelse moves a buffer to the front: the list becomes that buffer followed by all the others. */
  method MoveToFront(head: Node, node: Node, ghost s: seq<Node>, ghost k: nat)
    requires Ring(head, s) && k < |s| && s[k] == node
    modifies head, s
    ensures Ring(head, [node] + Dropped(s, k))
  {
    Remove(node, head, s, k);
    PushFront(head, node, Dropped(s, k));
  }
}
