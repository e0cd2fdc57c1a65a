/** The circular doubly linked list of spans, with a sentinel in the list object itself. */
module SpanLists {
  import opened Lists

  class Node {
    var prev: Node?
    var next: Node?

    constructor ()
      ensures prev == null && next == null
    {
      prev, next := null, null;
    }
  }

  /** Neighbours in the circle point at each other, and the last one closes it. */
  ghost predicate Circle(nodes: seq<Node>)
    reads nodes
    requires nodes != []
  {
    && (forall i :: 0 <= i < |nodes| - 1 ==> nodes[i].next == nodes[i + 1])
    && (forall i :: 0 < i < |nodes| ==> nodes[i].prev == nodes[i - 1])
    && nodes[|nodes| - 1].next == nodes[0] && nodes[0].prev == nodes[|nodes| - 1]
  }

  class SpanList {
    const head: Node
    ghost var nodes: seq<Node>

    ghost predicate Valid()
      reads this, nodes
    {
      nodes != [] && nodes[0] == head && Circle(nodes) && NoDuplicates(nodes)
    }

    /** The spans of the list, front first. */
    ghost function Spans(): seq<Node>
      reads this
    {
      if nodes == [] then [] else nodes[1..]
    }

    constructor ()
      ensures Valid() && Spans() == []
    {
      head := new Node();
      nodes := [head];
      new;
      head.next, head.prev := head, head;
    }

    method Empty() returns (r: bool)
      requires Valid()
      ensures r == (Spans() == [])
    {
      assert |nodes| > 1 ==> nodes[0].next == nodes[1] != nodes[0];
      r := head.next == head;
    }

    method Front() returns (n: Node)
      requires Valid() && Spans() != []
      ensures n == Spans()[0]
    {
      assert nodes[0].next == nodes[1];
      n := head.next;
    }

    method Back() returns (n: Node)
      requires Valid() && Spans() != []
      ensures n == Spans()[|Spans()| - 1]
    {
      n := head.prev;
    }

    method PushFront(n: Node)
      requires Valid() && n !in nodes
      modifies this, nodes, n
      ensures Valid() && Spans() == [n] + old(Spans())
    {
      ghost var was := nodes;
      assert head.next == if |was| == 1 then was[0] else was[1];
      assert forall i :: 0 <= i < |was| ==> was[i] != n;
      var next := head.next;
      n.next := next;
      n.prev := head;
      next.prev := n;
      head.next := n;
      nodes := [head, n] + was[1..];
      forall i, j | 0 <= i < j < |nodes| ensures nodes[i] != nodes[j] {
        assert i != 1 ==> nodes[i] == was[if i == 0 then 0 else i - 1];
        assert j != 1 ==> nodes[j] == was[j - 1];
      }
    }

    /** Unlinks a span that is in this list; the span itself keeps its pointers. */
    method Erase(n: Node)
      requires Valid() && n in Spans()
      modifies this, nodes
      ensures Valid() && Spans() == Without(old(Spans()), n)
    {
      ghost var k :| 1 <= k < |nodes| && nodes[k] == n;
      Unlink(n, k);
    }

    method Unlink(n: Node, ghost k: nat)
      requires Valid() && 1 <= k < |nodes| && nodes[k] == n
      modifies this, nodes
      ensures Valid() && Spans() == Without(old(Spans()), n)
      ensures k == 1 ==> Spans() == old(Spans())[1..]
    {
      ghost var was, after := nodes, if k + 1 == |nodes| then 0 else k + 1;
      assert n.prev == was[k - 1] && n.next == was[after];
      var prev, next := n.prev, n.next;
      RemovedNode(was, k);
      OnlyAt(was, k - 1);
      OnlyAt(was, after);
      hide NoDuplicates, Without, Removed;
      prev.next := next;
      next.prev := prev;
      nodes := Removed(was, k);
    }

    method PopFront()
      requires Valid() && Spans() != []
      modifies this, nodes
      ensures Valid() && Spans() == old(Spans())[1..]
    {
      assert nodes[0].next == nodes[1];
      Unlink(head.next, 1);
    }
  }

  lemma {:induction false} WithoutAt<T>(xs: seq<T>, k: nat)
    requires NoDuplicates(xs) && k < |xs|
    ensures Without(xs, xs[k]) == Removed(xs, k)
  {
    if k > 0 {
      WithoutAt(xs[1..], k - 1);
      assert Removed(xs, k) == [xs[0]] + Removed(xs[1..], k - 1);
    } else {
      assert Removed(xs, 0) == xs[1..];
    }
  }

  lemma OnlyAt<T>(xs: seq<T>, k: nat)
    requires NoDuplicates(xs) && k < |xs|
    ensures forall i :: 0 <= i < |xs| && i != k ==> xs[i] != xs[k]
  {}

  lemma RemovedDistinct<T>(xs: seq<T>, k: nat)
    requires NoDuplicates(xs) && k < |xs|
    ensures NoDuplicates(Removed(xs, k))
  {
    RemovedAt(xs, k);
    hide Removed;
  }

  lemma RemovedTail<T>(xs: seq<T>, k: nat)
    requires 1 <= k < |xs|
    ensures Removed(xs, k)[1..] == Removed(xs[1..], k - 1)
  {
    RemovedAt(xs, k);
    RemovedAt(xs[1..], k - 1);
    hide Removed;
  }

  /** Taking node k out of the circle takes exactly that span out of the list. */
  lemma RemovedNode<T>(nodes: seq<T>, k: nat)
    requires NoDuplicates(nodes) && 1 <= k < |nodes|
    ensures NoDuplicates(Removed(nodes, k)) && |Removed(nodes, k)| == |nodes| - 1
    ensures forall i :: 0 <= i < |nodes| - 1 ==> Removed(nodes, k)[i] == nodes[if i < k then i else i + 1]
    ensures Removed(nodes, k)[1..] == Without(nodes[1..], nodes[k])
    ensures k == 1 ==> Removed(nodes, k)[1..] == nodes[1..][1..]
  {
    RemovedAt(nodes, k);
    RemovedDistinct(nodes, k);
    RemovedTail(nodes, k);
    assert NoDuplicates(nodes[1..]);
    WithoutAt(nodes[1..], k - 1);
    hide Without;
  }
}
