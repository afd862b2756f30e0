// The intrusive circular list, and the leak tracker that counts live objects with it.

module LinkedLists {

  class LinkNode<T> {
    const value: T
    var previous: LinkNode?<T>
    var next: LinkNode?<T>

    constructor (value: T)
      ensures this.value == value && previous == null && next == null
    {
      this.value := value;
      previous, next := null, null;
    }

    method Set(prev: LinkNode<T>, next: LinkNode<T>)
      modifies this
      ensures previous == prev && this.next == next
    {
      previous, this.next := prev, next;
    }

    /** Puts this node between e and the node before it, ring[k]. */
    method InsertBefore(e: LinkNode<T>, ghost ring: seq<LinkNode<T>>, ghost k: nat)
      requires IsRing(ring) && this !in ring && k < |ring| && e == Next(ring, k)
      modifies this, e, e.previous
      ensures IsRing(Inserted(ring, k, this))
    {
      LinkAt(ring, k);
      this.next := e;
      this.previous := e.previous;
      e.previous.next := this;
      e.previous := this;
      InsertedIsRing(ring, k, this);
    }

    /** Puts this node between e, ring[k], and the node after it. */
    method InsertAfter(e: LinkNode<T>, ghost ring: seq<LinkNode<T>>, ghost k: nat)
      requires IsRing(ring) && this !in ring && k < |ring| && e == ring[k]
      modifies this, e, e.next
      ensures IsRing(Inserted(ring, k, this))
    {
      LinkAt(ring, k);
      this.next := e.next;
      this.previous := e;
      e.next.previous := this;
      e.next := this;
      InsertedIsRing(ring, k, this);
    }

    /** Takes this node, ring[k], out of the ring, and leaves its own links as they are. */
    method RemoveFromList(ghost ring: seq<LinkNode<T>>, ghost k: nat)
      requires IsRing(ring) && k < |ring| && 2 <= |ring| && this == ring[k]
      modifies previous, next
      ensures IsRing(Removed(ring, k))
    {
      LinkAt(ring, k);
      LinkAt(ring, Before(ring, k));
      this.previous.next := this.next;
      this.next.previous := this.previous;
      RemovedIsRing(ring, k);
    }
  }

  function Before<T>(ring: seq<T>, k: nat): (j: nat)
    requires k < |ring|
    ensures j < |ring| && Next(ring, j) == ring[k]
  {
    if k == 0 then |ring| - 1 else k - 1
  }

  function Removed<T>(ring: seq<T>, k: nat): seq<T>
    requires k < |ring|
  {
    ring[..k] + ring[k + 1..]
  }

  /** The element after index k, around the ring. */
  function Next<T>(ring: seq<T>, k: nat): T
    requires k < |ring|
  {
    if k + 1 == |ring| then ring[0] else ring[k + 1]
  }

  ghost predicate Distinct<T>(s: seq<T>) {
    forall i, j :: 0 <= i < j < |s| ==> s[i] != s[j]
  }

  predicate Linked<T>(x: LinkNode<T>, y: LinkNode<T>)
    reads x, y
  {
    x.next == y && y.previous == x
  }

  /** The nodes are linked in this order, forwards and backwards, and the last to
      the first. */
  ghost predicate IsRing<T>(ring: seq<LinkNode<T>>)
    reads ring
  {
    && |ring| >= 1 && Distinct(ring) && Linked(ring[|ring| - 1], ring[0])
    && forall i {:trigger ring[i]} :: 0 <= i < |ring| - 1 ==> Linked(ring[i], ring[i + 1])
  }

  lemma LinkAt<T>(ring: seq<LinkNode<T>>, k: nat)
    requires IsRing(ring) && k < |ring|
    ensures Linked(ring[k], Next(ring, k))
  {
  }

  function Inserted<T>(ring: seq<T>, k: nat, node: T): seq<T>
    requires k < |ring|
  {
    ring[..k + 1] + [node] + ring[k + 1..]
  }

  lemma InsertedIsRing<T>(ring: seq<LinkNode<T>>, k: nat, node: LinkNode<T>)
    requires k < |ring| && Distinct(ring) && node !in ring
    requires Linked(ring[k], node) && Linked(node, Next(ring, k))
    requires k != |ring| - 1 ==> Linked(ring[|ring| - 1], ring[0])
    requires forall i {:trigger ring[i]} :: 0 <= i < |ring| - 1 && i != k ==> Linked(ring[i], ring[i + 1])
    ensures IsRing(Inserted(ring, k, node))
  {
  }

  lemma RemovedIsRing<T>(ring: seq<LinkNode<T>>, k: nat)
    requires k < |ring| && 2 <= |ring| && Distinct(ring)
    requires Linked(ring[Before(ring, k)], Next(ring, k))
    requires 0 < k < |ring| - 1 ==> Linked(ring[|ring| - 1], ring[0])
    requires forall i {:trigger ring[i]} :: 0 <= i < |ring| - 1 && i != k && i + 1 != k ==> Linked(ring[i], ring[i + 1])
    ensures IsRing(Removed(ring, k))
  {
  }

  /** The list around a root node; nodes are its elements in order. */
  class LinkedList<T(0)> {
    const root: LinkNode<T>
    ghost var nodes: seq<LinkNode<T>>

    ghost predicate Valid()
      reads this, root, nodes
    {
      IsRing([root] + nodes)
    }

    constructor (blank: T)
      ensures Valid() && nodes == [] && fresh(root)
    {
      root := new LinkNode(blank);
      nodes := [];
      new;
      root.Set(root, root);
    }

    /** A node that goes in front of another or of the root; k is its place. */
    method InsertBefore(node: LinkNode<T>, e: LinkNode<T>, ghost k: nat)
      requires Valid() && node != root && node !in nodes
      requires k <= |nodes| && e == if k == |nodes| then root else nodes[k]
      modifies this, node, e, e.previous
      ensures Valid() && nodes == old(nodes)[..k] + [node] + old(nodes)[k..]
    {
      node.InsertBefore(e, [root] + nodes, k);
      Remember(node, k);
    }

    /** A node that goes behind another or behind the root. */
    method InsertAfter(node: LinkNode<T>, e: LinkNode<T>, ghost k: nat)
      requires Valid() && node != root && node !in nodes
      requires k <= |nodes| && e == if k == 0 then root else nodes[k - 1]
      modifies this, node, e, e.next
      ensures Valid() && nodes == old(nodes)[..k] + [node] + old(nodes)[k..]
    {
      node.InsertAfter(e, [root] + nodes, k);
      Remember(node, k);
    }

    method Append(e: LinkNode<T>)
      requires Valid() && e != root && e !in nodes
      modifies this, e, root, root.previous
      ensures Valid() && nodes == old(nodes) + [e]
    {
      InsertBefore(e, root, |nodes|);
    }

    /** A node that has put itself in; k is its place. */
    ghost method Remember(node: LinkNode<T>, k: nat)
      requires k <= |nodes| && IsRing(Inserted([root] + nodes, k, node))
      modifies this`nodes
      ensures Valid() && nodes == old(nodes)[..k] + [node] + old(nodes)[k..]
    {
      assert Inserted([root] + nodes, k, node) == [root] + (nodes[..k] + [node] + nodes[k..]);
      nodes := nodes[..k] + [node] + nodes[k..];
    }

    /** A node that leaves the list; k is its place. */
    method Remove(node: LinkNode<T>, ghost k: nat)
      requires Valid() && k < |nodes| && nodes[k] == node
      modifies this, node.previous, node.next
      ensures Valid() && nodes == Removed(old(nodes), k)
    {
      node.RemoveFromList([root] + nodes, k + 1);
      Forget(k);
    }

    /** A node that takes itself out; k is its place. */
    ghost method Forget(k: nat)
      requires k < |nodes| && IsRing(Removed([root] + nodes, k + 1))
      modifies this`nodes
      ensures Valid() && nodes == Removed(old(nodes), k)
    {
      assert Removed([root] + nodes, k + 1) == [root] + Removed(nodes, k);
      nodes := Removed(nodes, k);
    }

    function Head(): LinkNode?<T>
      reads root
    {
      root.next
    }

    function Tail(): LinkNode?<T>
      reads root
    {
      root.previous
    }

    /** Forward traversal visits the nodes in the order of their appending, and
        backward traversal in the opposite order. */
    lemma Traverses(k: nat)
      requires Valid() && k < |nodes|
      ensures Head() == nodes[0] && Tail() == nodes[|nodes| - 1]
      ensures nodes[k].next == if k + 1 < |nodes| then nodes[k + 1] else root
      ensures nodes[k].previous == if k == 0 then root else nodes[k - 1]
    {
      var ring := [root] + nodes;
      LinkAt(ring, 0);
      LinkAt(ring, k);
      LinkAt(ring, k + 1);
      assert ring[k + 1] == nodes[k];
    }
  }
}
