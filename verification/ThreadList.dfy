/** The hand-written linked list of threads (Assignment5/List.c). */
module ThreadList {
  class Node {
    const thread: nat
    var next: Node?

    constructor (thread: nat)
      ensures this.thread == thread && next == null
    {
      this.thread, next := thread, null;
    }
  }

  /** A list by its head; nodes are its elements in order. */
  class List {
    var head: Node?
    ghost var nodes: seq<Node>

    ghost predicate Valid()
      reads this, nodes
    {
      && Linked(head, nodes)
      && (forall i, j :: 0 <= i < j < |nodes| ==> nodes[i] != nodes[j])
    }

    ghost function Threads(): seq<nat>
      reads this
    {
      ThreadsOf(nodes)
    }

    constructor ()
      ensures Valid() && nodes == []
    {
      head, nodes := null, [];
    }

    /** is_empty */
    method IsEmpty() returns (empty: bool)
      requires Valid()
      ensures empty == (nodes == [])
    {
      empty := head == null;
    }

    /** list_insert_beginning */
    method InsertBeginning(thread: nat)
      requires Valid()
      modifies this
      ensures Valid() && |nodes| > 0 && fresh(nodes[0]) && nodes[1..] == old(nodes)
      ensures Threads() == [thread] + old(Threads())
    {
      var node := new Node(thread);
      node.next := head;
      head := node;
      LinkedCons(node, nodes);
      ThreadsCons(node, nodes);
      nodes := [node] + nodes;
    }

    /** list_insert_end: a new node, which is on the list only if the list had any: a list that is empty stays empty. */
    method InsertEnd(thread: nat) returns (node: Node)
      requires Valid()
      modifies this, nodes
      ensures Valid() && fresh(node) && node.thread == thread && node.next == null
      ensures node in nodes <==> old(nodes) != []
      ensures nodes == if old(nodes) == [] then [] else old(nodes) + [node]
      ensures old(nodes) != [] ==> Threads() == old(Threads()) + [thread]
    {
      node := new Node(thread);
      var last := Front();
      if last != null {
        last.next := node;
        nodes := nodes + [node];
      }
    }

    /** list_front: the last node, which is the oldest. */
    method Front() returns (last: Node?)
      requires Valid()
      ensures if nodes == [] then last == null else last == nodes[|nodes| - 1]
    {
      last := head;
      ghost var i := 0;
      while last != null && last.next != null
        invariant nodes != [] ==> 0 <= i < |nodes| && last == nodes[i]
        invariant nodes == [] ==> last == null
        decreases |nodes| - i
      {
        last := last.next;
        i := i + 1;
      }
    }

    /** list_find_by_data: the first node of a thread. */
    method FindByData(thread: nat) returns (node: Node?)
      requires Valid()
      ensures node == null ==> thread !in Threads()
      ensures node != null ==> node.thread == thread
      ensures node != null ==> exists k :: 0 <= k < |nodes| && node == nodes[k] && thread !in Threads()[..k]
    {
      node := head;
      ghost var i := 0;
      while node != null
        invariant 0 <= i <= |nodes| && node == (if i < |nodes| then nodes[i] else null)
        invariant thread !in Threads()[..i]
        decreases |nodes| - i
      {
        if node.thread == thread { return; }
        assert Threads()[..i + 1] == Threads()[..i] + [nodes[i].thread];
        node := node.next;
        i := i + 1;
      }
      assert Threads()[..i] == Threads();
    }

    /** list_remove: the node is unlinked wherever it is; a node of another list is left alone. */
    method Remove(node: Node)
      requires Valid()
      modifies this, nodes
      ensures Valid() && nodes == Unlinked(old(nodes), node)
    {
      if head == null { return; }
      if head == node {
        RemoveHead();
      } else {
        RemoveInner(node);
      }
    }

    method RemoveHead()
      requires Valid() && nodes != []
      modifies this
      ensures Valid() && nodes == old(nodes)[1..]
    {
      assert forall k :: 0 <= k < |nodes[1..]| ==> nodes[1..][k] == nodes[k + 1];
      head := head.next;
      nodes := nodes[1..];
    }

    /** The node whose next is the one to go is found by walking the list. */
    method RemoveInner(node: Node)
      requires Valid() && nodes != [] && nodes[0] != node
      modifies this, nodes
      ensures Valid() && nodes == Unlinked(old(nodes), node)
    {
      var tmp := head;
      ghost var i := 0;
      while tmp.next != null && tmp.next != node
        invariant 0 <= i < |nodes| && tmp == nodes[i] && node !in nodes[..i + 1]
        decreases |nodes| - i
      {
        assert tmp.next == nodes[i + 1] && nodes[..i + 2] == nodes[..i + 1] + [nodes[i + 1]];
        tmp := tmp.next;
        i := i + 1;
      }
      if tmp.next != null {
        UnlinkedAt(nodes, node, i + 1);
        tmp.next := node.next;
        nodes := nodes[..i + 1] + nodes[i + 2..];
      } else {
        assert nodes[..i + 1] == nodes;
        UnlinkedNowhere(nodes, node);
      }
    }

    /** How the scheduler uses it: prepend to enter, and to leave take the last node, read its thread and unlink it. */
    method TakeFront() returns (thread: nat)
      requires Valid() && nodes != []
      modifies this, nodes
      ensures Valid() && nodes == old(nodes)[..|old(nodes)| - 1]
      ensures old(Threads()) == Threads() + [thread]
    {
      var front := Front();
      thread := front.thread;
      UnlinkedAt(nodes, front, |nodes| - 1);
      Remove(front);
    }
  }

  ghost function ThreadsOf(nodes: seq<Node>): (s: seq<nat>)
    ensures |s| == |nodes| && forall i :: 0 <= i < |nodes| ==> s[i] == nodes[i].thread
  {
    seq(|nodes|, i requires 0 <= i < |nodes| => nodes[i].thread)
  }

  /** head and next pointers run through the nodes in order. */
  ghost predicate Linked(head: Node?, nodes: seq<Node>)
    reads nodes
  {
    && head == (if nodes == [] then null else nodes[0])
    && (forall i {:trigger nodes[i].next} :: 0 <= i < |nodes| ==>
      nodes[i].next == if i + 1 < |nodes| then nodes[i + 1] else null)
  }

  lemma LinkedCons(node: Node, nodes: seq<Node>)
    requires Linked(node.next, nodes) && node !in nodes
    ensures Linked(node, [node] + nodes)
  {
    var more := [node] + nodes;
    forall i | 0 <= i < |more| ensures more[i].next == if i + 1 < |more| then more[i + 1] else null {
      assert i > 0 ==> more[i] == nodes[i - 1] && nodes[i - 1].next == more[i].next;
    }
  }

  lemma ThreadsCons(node: Node, nodes: seq<Node>)
    ensures ThreadsOf([node] + nodes) == [node.thread] + ThreadsOf(nodes)
  {
  }

  /** The sequence without the first occurrence of a node. */
  ghost function Unlinked(nodes: seq<Node>, node: Node): seq<Node>
  {
    if nodes == [] then []
    else if nodes[0] == node then nodes[1..]
    else [nodes[0]] + Unlinked(nodes[1..], node)
  }

  lemma {:induction false} UnlinkedAt(nodes: seq<Node>, node: Node, k: nat)
    requires k < |nodes| && nodes[k] == node && forall i :: 0 <= i < k ==> nodes[i] != node
    ensures Unlinked(nodes, node) == nodes[..k] + nodes[k + 1..]
  {
    if k > 0 { UnlinkedAt(nodes[1..], node, k - 1); }
  }

  lemma {:induction false} UnlinkedNowhere(nodes: seq<Node>, node: Node)
    requires node !in nodes
    ensures Unlinked(nodes, node) == nodes
  {
    if nodes != [] { UnlinkedNowhere(nodes[1..], node); }
  }
}
