// The intrusive queue of wepoll: a ring of nodes through a head, proved to be a sequence.
module EpollQueue {
  class QueueNode {
    var prev: QueueNode
    var next: QueueNode

    /** 'queue_node_init': a node in no queue is linked to itself. */
    constructor ()
      ensures Alone()
    {
      prev, next := this, this;
    }

    predicate Alone()
      reads this
    {
      prev == this && next == this
    }

    /** 'queue_is_enqueued' */
    predicate IsEnqueued()
      reads this
    {
      prev != this
    }
  }

  type Links = map<QueueNode, QueueNode>

  /** A ring of different nodes, written with its first node again at the end, in terms of the links. */
  ghost predicate RingOk(r: seq<QueueNode>, next: Links, prev: Links) {
    && |r| >= 2 && r[0] == r[|r| - 1]
    && (forall i, j | 0 <= i < j < |r| - 1 :: r[i] != r[j])
    && (forall x | x in r :: x in next && x in prev)
    && (forall i {:trigger next[r[i]]} | 0 <= i < |r| - 1 :: next[r[i]] == r[i + 1])
    && (forall i {:trigger prev[r[i]]} | 0 < i < |r| :: prev[r[i]] == r[i - 1])
  }

  // Leaving the ring.
  lemma WithoutOk(r: seq<QueueNode>, next: Links, prev: Links, k: nat)
    requires RingOk(r, next, prev) && 0 < k < |r| - 1
    ensures RingOk(r[..k] + r[k + 1..], next[r[k - 1] := r[k + 1]], prev[r[k + 1] := r[k - 1]])
    ensures r[k] !in r[..k] + r[k + 1..]
  {
    var r', n', p' := r[..k] + r[k + 1..], next[r[k - 1] := r[k + 1]], prev[r[k + 1] := r[k - 1]];
    forall i | 0 <= i < |r'| - 1 ensures n'[r'[i]] == r'[i + 1] {
      assert next[r[if i < k then i else i + 1]] == r[(if i < k then i else i + 1) + 1];
    }
    forall i | 0 < i < |r'| ensures p'[r'[i]] == r'[i - 1] {
      assert prev[r[if i < k then i else i + 1]] == r[(if i < k then i else i + 1) - 1];
    }
  }

  // Joining the ring.
  lemma WithOk(r: seq<QueueNode>, next: Links, prev: Links, k: nat, x: QueueNode)
    requires RingOk(r, next, prev) && 0 < k < |r| && x !in r
    ensures RingOk(r[..k] + [x] + r[k..], next[x := r[k]][r[k - 1] := x], prev[x := r[k - 1]][r[k] := x])
  {
    var r', n', p' := r[..k] + [x] + r[k..], next[x := r[k]][r[k - 1] := x], prev[x := r[k - 1]][r[k] := x];
    forall i | 0 <= i < |r'| - 1 ensures n'[r'[i]] == r'[i + 1] {
      if i < k { assert next[r[i]] == r[i + 1]; } else if i > k { assert next[r[i - 1]] == r[i]; }
    }
    forall i | 0 < i < |r'| ensures p'[r'[i]] == r'[i - 1] {
      if i < k { assert prev[r[i]] == r[i - 1]; } else if i > k + 1 { assert prev[r[i - 1]] == r[i - 2]; }
    }
  }

  lemma Linked(r: seq<QueueNode>, next: Links, prev: Links)
    requires RingOk(r, next, prev)
    ensures forall x | x in r :: x in next && x in prev
  {
  }

  lemma RingWithout(head: QueueNode, list: seq<QueueNode>, k: nat)
    requires k < |list|
    ensures var r := [head] + list + [head];
      [head] + (list[..k] + list[k + 1..]) + [head] == r[..k + 1] + r[k + 2..]
  {
  }

  lemma RingWith(head: QueueNode, list: seq<QueueNode>, x: QueueNode)
    ensures var r := [head] + list + [head]; [head] + ([x] + list) + [head] == r[..1] + [x] + r[1..]
  {
  }

  class Queue {
    const head: QueueNode
    ghost var list: seq<QueueNode>

    /** The nodes around the ring, from the head back to the head. */
    ghost function Ring(): (r: seq<QueueNode>)
      reads this
      ensures |r| == |list| + 2 && r[0] == r[|list| + 1] == head && forall k | 0 <= k < |list| :: r[k + 1] == list[k]
    {
      [head] + list + [head]
    }

    ghost function Nexts(): Links
      reads this, head, list
    {
      map x | x in Ring() :: x.next
    }

    ghost function Prevs(): Links
      reads this, head, list
    {
      map x | x in Ring() :: x.prev
    }

    ghost predicate Valid()
      reads this, head, list
    {
      RingOk(Ring(), Nexts(), Prevs())
    }

    lemma Links(i: nat)
      requires Valid() && i <= |list|
      ensures Ring()[i].next == Ring()[i + 1] && Ring()[i + 1].prev == Ring()[i]
      ensures head !in list && forall k, l | 0 <= k < l < |list| :: list[k] != list[l]
    {
      var r := Ring();
      assert Nexts()[r[i]] == r[i + 1] && Prevs()[r[i + 1]] == r[i];
      assert forall k | 0 <= k < |list| :: list[k] == r[k + 1];
    }

    /** 'queue_init' */
    constructor ()
      ensures Valid() && list == [] && fresh(head)
    {
      head := new QueueNode();
      list := [];
    }

    /** 'queue_is_empty' */
    method IsEmpty() returns (b: bool)
      requires Valid()
      ensures b == (list == [])
    {
      Links(|list|);
      b := !head.IsEnqueued();
    }

    /** A node is enqueued exactly when it is in the queue, or in another one. */
    lemma Enqueued(node: QueueNode)
      requires Valid() && (node in list || node.Alone())
      ensures node.IsEnqueued() <==> node in list
    {
      if node in list {
        var k :| 0 <= k < |list| && list[k] == node;
        Links(k);
      }
    }

    /** 'queue_first' */
    method First() returns (node: QueueNode?)
      requires Valid()
      ensures node == if list == [] then null else list[0]
    {
      Links(0);
      var empty := IsEmpty();
      node := if !empty then head.next else null;
    }

    /** 'queue_last' */
    method Last() returns (node: QueueNode?)
      requires Valid()
      ensures node == if list == [] then null else list[|list| - 1]
    {
      Links(|list|);
      var empty := IsEmpty();
      node := if !empty then head.prev else null;
    }

    /** 'queue_prepend' */
    method Prepend(node: QueueNode)
      requires Valid() && node !in list && node != head
      modifies this, node, head, list
      ensures Valid() && list == [node] + old(list)
    {
      hide RingOk;
      ghost var r, next, prev := Ring(), Nexts(), Prevs();
      Links(0);
      node.next := head.next;
      node.prev := head;
      node.next.prev := node;
      head.next := node;
      RingWith(head, list, node);
      list := [node] + list;
      Joined(r, next, prev, 1, node);
    }

    /** 'queue_append' */
    method Append(node: QueueNode)
      requires Valid() && node !in list && node != head
      modifies this, node, head, list
      ensures Valid() && list == old(list) + [node]
    {
      hide RingOk;
      ghost var r, next, prev, n := Ring(), Nexts(), Prevs(), |list|;
      Links(n);
      node.next := head;
      node.prev := head.prev;
      node.prev.next := node;
      head.prev := node;
      list := list + [node];
      Joined(r, next, prev, n + 1, node);
    }

    /** 'queue__detach_node' */
    method Detach(node: QueueNode, ghost k: nat)
      requires Valid() && k < |list| && list[k] == node
      modifies this, head, list
      ensures Valid() && list == old(list[..k] + list[k + 1..]) && node !in list && node != head
    {
      hide RingOk;
      ghost var r, next, prev := Ring(), Nexts(), Prevs();
      Links(k);
      Links(k + 1);
      node.prev.next := node.next;
      node.next.prev := node.prev;
      RingWithout(head, list, k);
      list := list[..k] + list[k + 1..];
      Left(r, next, prev, k + 1);
    }

    // The ring after a node x has joined at place k of the ring r.
    lemma Joined(r: seq<QueueNode>, next: Links, prev: Links, k: nat, x: QueueNode)
      requires RingOk(r, next, prev) && 0 < k < |r| && x !in r && Ring() == r[..k] + [x] + r[k..]
      requires x.next == r[k] && x.prev == r[k - 1]
      requires forall y | y in r :: y.next == (if y == r[k - 1] then x else next[y]) && y.prev == (if y == r[k] then x else prev[y])
      ensures Valid()
    {
      hide RingOk;
      WithOk(r, next, prev, k, x);
      Linked(r, next, prev);
      Same(r[..k] + [x] + r[k..], next[x := r[k]][r[k - 1] := x], prev[x := r[k - 1]][r[k] := x]);
    }

    // The ring after the node at place k of the ring r has left.
    lemma Left(r: seq<QueueNode>, next: Links, prev: Links, k: nat)
      requires RingOk(r, next, prev) && 0 < k < |r| - 1 && Ring() == r[..k] + r[k + 1..]
      requires forall y | y in r :: y.next == (if y == r[k - 1] then r[k + 1] else next[y])
                                    && y.prev == (if y == r[k + 1] then r[k - 1] else prev[y])
      ensures Valid() && r[k] !in Ring()
    {
      hide RingOk;
      WithoutOk(r, next, prev, k);
      Linked(r, next, prev);
      Same(r[..k] + r[k + 1..], next[r[k - 1] := r[k + 1]], prev[r[k + 1] := r[k - 1]]);
    }

    // The ring as it should be is the ring as it is.
    lemma Same(r: seq<QueueNode>, next: Links, prev: Links)
      requires RingOk(r, next, prev) && r == Ring()
      requires forall x | x in r :: x.next == next[x] && x.prev == prev[x]
      ensures Valid()
    {
      forall i | 0 <= i < |r| - 1 ensures Nexts()[r[i]] == r[i + 1] {
        assert next[r[i]] == r[i + 1];
      }
      forall i | 0 < i < |r| ensures Prevs()[r[i]] == r[i - 1] {
        assert prev[r[i]] == r[i - 1];
      }
    }

    /** 'queue_remove' */
    method Remove(node: QueueNode, ghost k: nat)
      requires Valid() && k < |list| && list[k] == node
      modifies this, head, list
      ensures Valid() && list == old(list[..k] + list[k + 1..]) && node.Alone() && node !in list
    {
      Detach(node, k);
      node.prev, node.next := node, node;
    }

    /** 'queue_move_to_start' */
    method MoveToStart(node: QueueNode, ghost k: nat)
      requires Valid() && k < |list| && list[k] == node
      modifies this, head, list
      ensures Valid() && list == [node] + old(list[..k] + list[k + 1..])
    {
      Detach(node, k);
      Prepend(node);
    }

    /** 'queue_move_to_end' */
    method MoveToEnd(node: QueueNode, ghost k: nat)
      requires Valid() && k < |list| && list[k] == node
      modifies this, head, list
      ensures Valid() && list == old(list[..k] + list[k + 1..]) + [node]
    {
      Detach(node, k);
      Append(node);
    }
  }
}
