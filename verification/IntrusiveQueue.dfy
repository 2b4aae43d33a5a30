/**
 The singly linked queue that work items are chained into (src/include/containers/IntrusiveQueue.hpp),
 on the heap: each node carries its own link. The queue is proved to be a first-in-first-out
 sequence without repetitions.
 */
module IntrusiveQueue {

  class Node {
    var next: Node?  // _next_intrusive_queue_node

    constructor ()
      ensures next == null
    {
      next := null;
    }
  }

  /** Node number i, or nothing past the end. */
  function At(nodes: seq<Node>, i: nat): Node? { if i < |nodes| then nodes[i] else null }

  /** Each node links to the one after it, and the last one to nothing. */
  ghost predicate Chained(nodes: seq<Node>)
    reads nodes
  {
    && (forall i | 0 <= i < |nodes| :: nodes[i].next == At(nodes, i + 1))
    && Distinct(nodes)
  }

  ghost predicate Distinct(nodes: seq<Node>) {
    forall i, j | 0 <= i < j < |nodes| :: nodes[i] != nodes[j]
  }

  /** The sequence without its element number k. */
  function RemoveAt<T>(s: seq<T>, k: nat): seq<T>
    requires k < |s|
  {
    s[..k] + s[k + 1..]
  }

  lemma RemoveAtElements(nodes: seq<Node>, k: nat)
    requires k < |nodes| && Distinct(nodes)
    ensures
      var r := RemoveAt(nodes, k);
      && |r| == |nodes| - 1
      && (forall j | 0 <= j < |r| :: r[j] == nodes[if j < k then j else j + 1])
      && Distinct(r) && nodes[k] !in r
  {
  }

  lemma ShiftedAt(nodes: seq<Node>, k: nat, j: nat)
    requires k < |nodes|
    ensures At(RemoveAt(nodes, k), j) == At(nodes, if j < k then j else j + 1)
  {
  }

  /** The same on a snapshot of the links. */
  ghost predicate ChainedBy(nodes: seq<Node>, links: map<Node, Node?>) {
    && (forall i | 0 <= i < |nodes| :: nodes[i] in links && links[nodes[i]] == At(nodes, i + 1))
    && Distinct(nodes)
  }

  lemma UnlinkChain(nodes: seq<Node>, i: nat, links: map<Node, Node?>)
    requires ChainedBy(nodes, links) && i + 1 < |nodes|
    ensures ChainedBy(RemoveAt(nodes, i + 1), links[nodes[i] := links[nodes[i + 1]]])
  {
    var r := RemoveAt(nodes, i + 1);
    RemoveAtElements(nodes, i + 1);
    hide RemoveAt, At;
    forall j | 0 <= j < |r|
      ensures r[j] in links && links[nodes[i] := links[nodes[i + 1]]][r[j]] == At(r, j + 1)
    {
      ShiftedAt(nodes, i + 1, j + 1);
    }
  }

  /** Linking node i past its successor chains the nodes without that successor. */
  method LinkPast(ghost nodes: seq<Node>, ghost i: nat, node: Node, removeNode: Node)
    requires Chained(nodes) && i + 1 < |nodes| && node == nodes[i] && removeNode == nodes[i + 1]
    modifies node, removeNode
    ensures Chained(RemoveAt(nodes, i + 1)) && removeNode !in RemoveAt(nodes, i + 1)
    ensures removeNode.next == null
  {
    ghost var links := map n | n in nodes :: n.next;
    UnlinkChain(nodes, i, links);
    RemoveAtElements(nodes, i + 1);
    hide RemoveAt, At, Distinct;
    node.next := removeNode.next;
    removeNode.next := null;
  }

  class IntrusiveQueue {
    var head: Node?
    var tail: Node?
    ghost var nodes: seq<Node>

    ghost predicate Valid()
      reads this, nodes
    {
      && Chained(nodes)
      && (if nodes == [] then head == null && tail == null
          else head == nodes[0] && tail == nodes[|nodes| - 1])
    }

    constructor ()
      ensures Valid() && nodes == []
    {
      head, tail, nodes := null, null, [];
    }

    predicate Empty()
      requires Valid()
      reads this, nodes
      ensures Empty() <==> nodes == []
    {
      head == null
    }

    /** size(): follows the links. */
    method Size() returns (sz: nat)
      requires Valid()
      ensures sz == |nodes|
    {
      sz := 0;
      var node := head;
      while node != null
        invariant sz <= |nodes|
        invariant node == At(nodes, sz)
        decreases |nodes| - sz
      {
        sz := sz + 1;
        node := node.next;
      }
    }

    /** push(): at the end, unless the node is queued already. A node is in one queue at a time. */
    method Push(newNode: Node)
      requires Valid() && (newNode in nodes || newNode.next == null)
      modifies this, tail
      ensures Valid()
      ensures nodes == if newNode in old(nodes) then old(nodes) else old(nodes) + [newNode]
    {
      if newNode.next != null || newNode == tail {
        return;
      }
      forall i | 0 <= i < |nodes|
        ensures nodes[i] != newNode
      {
        assert nodes[i].next == At(nodes, i + 1);
      }
      if head == null {
        head := newNode;
      }
      if tail != null {
        tail.next := newNode;
      }
      tail := newNode;
      nodes := nodes + [newNode];
    }

    /** pop(): the oldest node, unlinked so that it can be queued again; or nothing. */
    method Pop() returns (ret: Node?)
      requires Valid()
      modifies this, head
      ensures Valid()
      ensures if old(nodes) == [] then ret == null && nodes == []
              else ret == old(nodes)[0] && ret.next == null && ret !in nodes && nodes == old(nodes)[1..]
    {
      ret := head;
      if !Empty() {
        assert head == tail <==> |nodes| == 1;
        if head != tail {
          head := head.next;
        } else {
          head, tail := null, null;
        }
        ret.next := null;
        nodes := nodes[1..];
      }
    }

    /** remove(): exactly this node, wherever it is, and unlinked; or nothing if it is not queued. */
    method Remove(removeNode: Node) returns (found: bool, ghost at: nat)
      requires Valid()
      modifies this, nodes
      ensures Valid()
      ensures found <==> removeNode in old(nodes)
      ensures !found ==> unchanged(this) && unchanged(old(nodes))
      ensures found ==> at < |old(nodes)| && old(nodes)[at] == removeNode && nodes == RemoveAt(old(nodes), at)
      ensures found ==> removeNode !in nodes && removeNode.next == null
    {
      if removeNode == head {
        RemoveHead();
        return true, 0;
      }
      var node, i := head, 0;
      while node != null
        invariant i <= |nodes| && node == At(nodes, i)
        invariant removeNode !in nodes[..i] && (i < |nodes| ==> removeNode != nodes[i])
        decreases |nodes| - i
      {
        if node.next == removeNode {
          Unlink(node, i, removeNode);
          return true, i + 1;
        }
        node := node.next;
        i := i + 1;
      }
      found, at := false, 0;
    }

    /** The base case of remove(). */
    method RemoveHead()
      requires Valid() && nodes != []
      modifies this, head
      ensures Valid() && nodes == RemoveAt(old(nodes), 0)
      ensures old(head) !in nodes && old(head).next == null
    {
      var removeNode := head;
      if head.next != null {
        head := head.next;
        removeNode.next := null;
      } else {
        head, tail := null, null;
      }
      RemoveAtElements(nodes, 0);
      hide RemoveAt, Distinct;
      nodes := RemoveAt(nodes, 0);
    }

    /** remove() once it has found the node before the one to remove. */
    method Unlink(node: Node, ghost i: nat, removeNode: Node)
      requires Valid() && i + 1 < |nodes| && node == nodes[i] && removeNode == nodes[i + 1]
      modifies this`tail, this`nodes, node, removeNode
      ensures Valid() && nodes == RemoveAt(old(nodes), i + 1)
      ensures removeNode !in nodes && removeNode.next == null
    {
      if removeNode == tail {
        tail := node;
      }
      LinkPast(nodes, i, node, removeNode);
      nodes := RemoveAt(nodes, i + 1);
    }
  }
}
