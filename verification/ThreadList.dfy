/** Doubly linked lists of threads with a bookend node at each end. */
module ThreadList {
  /** A thread's link node, or a bookend. */
  class Node {
    var next: Node?
    var prev: Node?

    constructor ()
      ensures next == null && prev == null
    {
      next, prev := null, null;
    }
  }

  ghost predicate Distinct(nodes: seq<Node>) { forall i, j :: 0 <= i < j < |nodes| ==> nodes[i] != nodes[j] }

  /** Each node is linked both ways with the next, except perhaps node `gap`. */
  ghost predicate LinkedBut(nodes: seq<Node>, gap: int)
    reads nodes
  {
    && (forall i :: 0 <= i < |nodes| - 1 && i != gap ==> nodes[i].next == nodes[i + 1])
    && (forall i :: 1 <= i < |nodes| && i - 1 != gap ==> nodes[i].prev == nodes[i - 1])
  }

  /** A node linked into the gap closes it. */
  lemma Inserted(was: seq<Node>, i: nat, t: Node)
    requires Distinct(was) && t !in was && i + 1 < |was| && LinkedBut(was, i)
    requires was[i].next == t && t.next == was[i + 1] && t.prev == was[i] && was[i + 1].prev == t
    ensures var now := was[..i + 1] + [t] + was[i + 1..];
            Distinct(now) && LinkedBut(now, -1)
  {
    var now := was[..i + 1] + [t] + was[i + 1..];
    assert forall j :: 0 <= j < |now| ==> now[j] == if j <= i then was[j] else if j == i + 1 then t else was[j - 1];
  }

  /** A node left out, with its neighbours linked to each other. */
  lemma Removed(was: seq<Node>, i: nat)
    requires Distinct(was) && 1 <= i < |was| - 1
    requires forall j :: 0 <= j < |was| - 1 && j != i && j != i - 1 ==> was[j].next == was[j + 1]
    requires forall j :: 1 <= j < |was| && j != i && j != i + 1 ==> was[j].prev == was[j - 1]
    requires was[i - 1].next == was[i + 1] && was[i + 1].prev == was[i - 1]
    ensures var now := was[..i] + was[i + 1..];
            Distinct(now) && LinkedBut(now, -1)
  {
    var now := was[..i] + was[i + 1..];
    assert forall j :: 0 <= j < |now| ==> now[j] == if j < i then was[j] else was[j + 1];
  }

  class List {
    const head: Node
    const tail: Node
    var count: nat
    /** All the nodes from bookend to bookend. */
    ghost var nodes: seq<Node>

    ghost predicate Valid()
      reads this, nodes
    {
      && |nodes| == count + 2 && nodes[0] == head && nodes[count + 1] == tail && head.prev == null && tail.next == null
      && Distinct(nodes) && LinkedBut(nodes, -1)
    }

    /** The threads on the list, in order. */
    ghost function Contents(): seq<Node>
      requires |nodes| == count + 2
      reads this
    {
      nodes[1..count + 1]
    }

    constructor ()
      ensures Valid() && Contents() == [] && fresh(nodes)
    {
      var h := new Node();
      var t := new Node();
      head, tail, count, nodes := h, t, 0, [h, t];
      new;
      h.next, t.prev := t, h;
    }

    method IsEmpty() returns (b: bool)
      requires Valid()
      ensures b <==> Contents() == []
    {
      b := count == 0;
    }

    /** Link `t` in after `onlist`, which is nodes[i]. */
    method InsertAfterNode(onlist: Node, t: Node, ghost i: nat)
      requires Valid() && i <= count && onlist == nodes[i] && t !in nodes
      modifies this, nodes, t
      ensures Valid() && nodes == old(nodes)[..i + 1] + [t] + old(nodes)[i + 1..]
    {
      assert nodes[i].next == nodes[i + 1];
      t.prev := onlist;
      t.next := onlist.next;
      t.prev.next := t;
      t.next.prev := t;
      Inserted(nodes, i, t);
      nodes := nodes[..i + 1] + [t] + nodes[i + 1..];
      count := count + 1;
    }

    /** Link `t` in before `onlist`, which is nodes[i + 1]. */
    method InsertBeforeNode(t: Node, onlist: Node, ghost i: nat)
      requires Valid() && i <= count && onlist == nodes[i + 1] && t !in nodes
      modifies this, nodes, t
      ensures Valid() && nodes == old(nodes)[..i + 1] + [t] + old(nodes)[i + 1..]
    {
      assert nodes[i + 1].prev == nodes[i];
      t.prev := onlist.prev;
      t.next := onlist;
      t.prev.next := t;
      t.next.prev := t;
      Inserted(nodes, i, t);
      nodes := nodes[..i + 1] + [t] + nodes[i + 1..];
      count := count + 1;
    }

    /** Unlink nodes[i]. */
    method RemoveNode(t: Node, ghost i: nat)
      requires Valid() && 1 <= i <= count && t == nodes[i]
      modifies this, nodes
      ensures Valid() && nodes == old(nodes)[..i] + old(nodes)[i + 1..] && t.next == null && t.prev == null
    {
      assert nodes[i].prev == nodes[i - 1] && nodes[i].next == nodes[i + 1];
      t.prev.next := t.next;
      t.next.prev := t.prev;
      t.prev := null;
      t.next := null;
      Removed(nodes, i);
      nodes := nodes[..i] + nodes[i + 1..];
      count := count - 1;
    }

    method AddHead(t: Node)
      requires Valid() && t !in nodes
      modifies this, nodes, t
      ensures Valid() && Contents() == [t] + old(Contents())
    {
      InsertAfterNode(head, t, 0);
    }

    method AddTail(t: Node)
      requires Valid() && t !in nodes
      modifies this, nodes, t
      ensures Valid() && Contents() == old(Contents()) + [t]
    {
      InsertBeforeNode(t, tail, count);
    }

    /** Take the first thread off; null if there is none. */
    method RemHead() returns (t: Node?)
      requires Valid()
      modifies this, nodes
      ensures Valid() && (t == null <==> old(Contents()) == [])
      ensures if t == null then Contents() == [] else old(Contents()) == [t] + Contents() && t !in nodes
    {
      assert nodes[0].next == nodes[1] && (count > 0 ==> nodes[1].next == nodes[2]);
      var n := head.next;
      if n.next == null {
        return null;
      }
      RemoveNode(n, 1);
      t := n;
    }

    /** Take the last thread off; null if there is none. */
    method RemTail() returns (t: Node?)
      requires Valid()
      modifies this, nodes
      ensures Valid() && (t == null <==> old(Contents()) == [])
      ensures if t == null then Contents() == [] else old(Contents()) == Contents() + [t] && t !in nodes
    {
      assert nodes[count + 1].prev == nodes[count] && (count > 0 ==> nodes[count].prev == nodes[count - 1]);
      var n := tail.prev;
      if n.prev == null {
        return null;
      }
      RemoveNode(n, count);
      t := n;
    }

    method InsertAfter(onlist: Node, t: Node, ghost k: nat)
      requires Valid() && k < count && onlist == Contents()[k] && t !in nodes
      modifies this, nodes, t
      ensures Valid() && Contents() == old(Contents())[..k + 1] + [t] + old(Contents())[k + 1..]
    {
      InsertAfterNode(onlist, t, k + 1);
    }

    method InsertBefore(t: Node, onlist: Node, ghost k: nat)
      requires Valid() && k < count && onlist == Contents()[k] && t !in nodes
      modifies this, nodes, t
      ensures Valid() && Contents() == old(Contents())[..k] + [t] + old(Contents())[k..]
    {
      InsertBeforeNode(t, onlist, k);
    }

    method Remove(t: Node, ghost k: nat)
      requires Valid() && k < count && t == Contents()[k]
      modifies this, nodes
      ensures Valid() && Contents() == old(Contents())[..k] + old(Contents())[k + 1..] && t !in nodes
    {
      RemoveNode(t, k + 1);
    }
  }
}
