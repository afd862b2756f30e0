// Live-instance tracking: each tracked object is a node of one static list.

module LeakTrackers {
  import opened LinkedLists

  /** An allocation stack. */
  type StackTrace = string

  const MAX_STACK_TRACES: nat := 3

  function Values(nodes: seq<LinkNode<StackTrace>>): (r: seq<StackTrace>)
    ensures |r| == |nodes| && forall i :: 0 <= i < |r| ==> r[i] == nodes[i].value
  {
    seq(|nodes|, i requires 0 <= i < |nodes| => nodes[i].value)
  }

  /** The static side of LeakTracker<T>: the list of instances. */
  class LeakTracker {
    const instances: LinkedList<StackTrace>
    ghost var constructions: nat
    ghost var destructions: nat

    /** The list holds the instances that were constructed and not yet destroyed. */
    ghost predicate Valid()
      reads this, instances, instances.root, instances.nodes
    {
      instances.Valid() && |instances.nodes| == constructions - destructions
    }

    constructor ()
      ensures Valid() && instances.nodes == [] && constructions == destructions == 0
      ensures fresh(instances) && fresh(instances.root)
    {
      instances := new LinkedList("");
      constructions, destructions := 0, 0;
    }

    /** The constructor of a tracked object. */
    method Construct(allocationStack: StackTrace) returns (tracker: LinkNode<StackTrace>)
      requires Valid()
      modifies this, instances, instances.root, instances.nodes
      ensures Valid() && fresh(tracker) && tracker.value == allocationStack
      ensures instances.nodes == old(instances.nodes) + [tracker]
      ensures constructions == old(constructions) + 1 && destructions == old(destructions)
    {
      tracker := new LinkNode(allocationStack);
      LinkAt([instances.root] + instances.nodes, |instances.nodes|);
      instances.Append(tracker);
      constructions := constructions + 1;
    }

    /** The destructor of the tracked object that is the k-th in the list. */
    method Destroy(tracker: LinkNode<StackTrace>, ghost k: nat)
      requires Valid() && k < |instances.nodes| && instances.nodes[k] == tracker
      modifies this, instances, instances.root, instances.nodes
      ensures Valid() && instances.nodes == Removed(old(instances.nodes), k)
      ensures destructions == old(destructions) + 1 && constructions == old(constructions)
    {
      ghost var ring := [instances.root] + instances.nodes;
      LinkAt(ring, k + 1);
      LinkAt(ring, Before(ring, k + 1));
      instances.Remove(tracker, k);
      destructions := destructions + 1;
    }

    method NumLiveInstances() returns (count: nat)
      requires Valid()
      ensures count == constructions - destructions == |instances.nodes|
    {
      count := 0;
      var node := instances.Head();
      StartOfWalk(instances);
      while node != instances.root
        invariant count <= |instances.nodes| && node == Visited(instances, count)
        decreases |instances.nodes| - count
      {
        NextOfWalk(instances, count);
        count := count + 1;
        node := node.next;
      }
      EndOfWalk(instances, count);
    }

    /** Collects the stacks of the first instances that leaked, in their order, and
        fails unless there are none. */
    method CheckForLeaks() returns (ok: bool, stackTraces: seq<StackTrace>)
      requires Valid()
      ensures ok <==> constructions == destructions
      ensures var n := |instances.nodes|;
        stackTraces == Values(instances.nodes)[..if n < MAX_STACK_TRACES then n else MAX_STACK_TRACES]
    {
      var count := 0;
      stackTraces := [];
      var node := instances.Head();
      StartOfWalk(instances);
      while node != instances.root
        invariant count <= |instances.nodes| && node == Visited(instances, count)
        invariant stackTraces == Values(instances.nodes)[..if count < MAX_STACK_TRACES then count else MAX_STACK_TRACES]
        decreases |instances.nodes| - count
      {
        NextOfWalk(instances, count);
        if count < MAX_STACK_TRACES {
          stackTraces := stackTraces + [node.value];
        }
        count := count + 1;
        node := node.next;
      }
      EndOfWalk(instances, count);
      ok := count == 0;
    }
  }

  /** The node that a walk from the head reaches after count steps. */
  ghost function Visited(list: LinkedList<StackTrace>, count: nat): LinkNode<StackTrace>
    requires count <= |list.nodes|
    reads list
  {
    if count == |list.nodes| then list.root else list.nodes[count]
  }

  lemma StartOfWalk(list: LinkedList<StackTrace>)
    requires list.Valid()
    ensures list.Head() == Visited(list, 0)
  {
  }

  lemma NextOfWalk(list: LinkedList<StackTrace>, count: nat)
    requires list.Valid() && count <= |list.nodes| && Visited(list, count) != list.root
    ensures count < |list.nodes| && Visited(list, count).next == Visited(list, count + 1)
  {
    var ring := [list.root] + list.nodes;
    LinkAt(ring, count + 1);
    assert ring[count + 1] == list.nodes[count];
  }

  /** The walk meets the root only at its end. */
  lemma EndOfWalk(list: LinkedList<StackTrace>, count: nat)
    requires list.Valid() && count <= |list.nodes| && Visited(list, count) == list.root
    ensures count == |list.nodes|
  {
    if count < |list.nodes| {
      NodeIsNotRoot(list, count);
    }
  }

  lemma NodeIsNotRoot(list: LinkedList<StackTrace>, k: nat)
    requires list.Valid() && k < |list.nodes|
    ensures list.nodes[k] != list.root
  {
    var ring := [list.root] + list.nodes;
    assert ring[k + 1] == list.nodes[k] && ring[0] == list.root;
  }
}
