/** The kernel's intrusive doubly linked lists: two header elements each, and one link element inside
    every thread and every waiter (lib/kernel/list.c). */
module KernelList {
  import opened Common
  import opened KernelModel

  datatype ListId = ReadyList | SemaWaiters(s: SemaId) | CondWaiters(c: nat)

  /** An element is a list's header or trailer, or sits in a thread or in a condition variable's waiter. */
  datatype Node = Head(list: ListId) | Tail(list: ListId) | ThreadElem(t: Tid) | WaiterElem(w: nat)

  type Pointers = map<Node, Node>

  predicate Interior(n: Node) { n.ThreadElem? || n.WaiterElem? }

  /** The elements of a list between its header and its trailer. */
  ghost function Row(l: ListId, xs: seq<Node>): seq<Node> { [Head(l)] + xs + [Tail(l)] }

  ghost predicate JoinedAt(next: Pointers, prev: Pointers, row: seq<Node>, i: int)
    requires 0 <= i < |row| - 1
  {
    row[i] in next && next[row[i]] == row[i + 1] && row[i + 1] in prev && prev[row[i + 1]] == row[i]
  }

  /** Neighbours in the row point at each other. */
  ghost predicate Threaded(next: Pointers, prev: Pointers, row: seq<Node>)
  {
    forall i :: 0 <= i < |row| - 1 ==> JoinedAt(next, prev, row, i)
  }

  /** Each element is on one list at most, and there once. */
  ghost predicate Apart(lists: map<ListId, seq<Node>>)
  {
    && (forall l :: l in lists ==> NoDup(lists[l]) && forall n :: n in lists[l] ==> Interior(n))
    && (forall l, m, n :: l in lists && m in lists && n in lists[l] && n in lists[m] ==> l == m)
  }

  ghost predicate OnNone(lists: map<ListId, seq<Node>>, n: Node) { forall l :: l in lists ==> n !in lists[l] }

  ghost predicate Linked(next: Pointers, prev: Pointers, lists: map<ListId, seq<Node>>)
  {
    forall l :: l in lists ==> Threaded(next, prev, Row(l, lists[l]))
  }

  // ---------------------------------------------------------------- rows

  lemma RowIsDistinct(l: ListId, xs: seq<Node>)
    requires NoDup(xs) && forall n :: n in xs ==> Interior(n)
    ensures NoDup(Row(l, xs))
  {
    var row := Row(l, xs);
    forall i, j | 0 <= i < j < |row| ensures row[i] != row[j] {
      if i > 0 { assert row[i] == xs[i - 1] && Interior(xs[i - 1]); }
      if j <= |xs| { assert row[j] == xs[j - 1] && Interior(xs[j - 1]); }
    }
  }

  /** The trailer comes after the elements. */
  lemma RowAt(l: ListId, xs: seq<Node>, i: nat)
    requires i <= |xs| && forall n :: n in xs ==> Interior(n)
    ensures Row(l, xs)[i + 1] == if i < |xs| then xs[i] else Tail(l)
    ensures Row(l, xs)[i + 1] == Tail(l) <==> i == |xs|
  {
    assert i < |xs| ==> Interior(xs[i]);
  }

  /** Rows of different lists have no element in common. */
  lemma RowsApart(lists: map<ListId, seq<Node>>, l: ListId, m: ListId, n: Node)
    requires Apart(lists) && l in lists && m in lists && l != m && n in Row(l, lists[l])
    ensures n !in Row(m, lists[m])
  {
  }

  /** A row whose elements' pointers are left alone stays threaded. */
  lemma RowStays(next: Pointers, prev: Pointers, next': Pointers, prev': Pointers, row: seq<Node>)
    requires Threaded(next, prev, row)
    requires forall n :: n in row && n in next ==> n in next' && next'[n] == next[n]
    requires forall n :: n in row && n in prev ==> n in prev' && prev'[n] == prev[n]
    ensures Threaded(next', prev', row)
  {
    forall i | 0 <= i < |row| - 1 ensures JoinedAt(next', prev', row, i) { assert JoinedAt(next, prev, row, i); }
  }

  /** The pointers of a list's header and trailer. */
  lemma Ends(next: Pointers, prev: Pointers, lists: map<ListId, seq<Node>>, l: ListId)
    requires Linked(next, prev, lists) && l in lists
    ensures Head(l) in next && Tail(l) in prev
    ensures next[Head(l)] == (if lists[l] == [] then Tail(l) else lists[l][0])
    ensures prev[Tail(l)] == Row(l, lists[l])[|lists[l]|]
  {
    var row := Row(l, lists[l]);
    assert JoinedAt(next, prev, row, 0) && JoinedAt(next, prev, row, |lists[l]|);
  }

  // ---------------------------------------------------------------- list_init

  lemma InitKeeps(next: Pointers, prev: Pointers, lists: map<ListId, seq<Node>>, l: ListId)
    requires Apart(lists) && Linked(next, prev, lists)
    ensures Apart(lists[l := []]) && Linked(next[Head(l) := Tail(l)], prev[Tail(l) := Head(l)], lists[l := []])
  {
    var next', prev', lists' := next[Head(l) := Tail(l)], prev[Tail(l) := Head(l)], lists[l := []];
    forall m | m in lists' ensures Threaded(next', prev', Row(m, lists'[m])) {
      if m == l {
        forall i | 0 <= i < 1 ensures JoinedAt(next', prev', Row(l, []), i) {}
      } else {
        RowStays(next, prev, next', prev', Row(m, lists[m]));
      }
    }
  }

  // ---------------------------------------------------------------- list_push_back

  /** The row with e before its trailer, where last was. */
  lemma RowPush(next: Pointers, prev: Pointers, l: ListId, xs: seq<Node>, e: Node, last: Node)
    requires NoDup(Row(l, xs)) && Threaded(next, prev, Row(l, xs)) && e !in Row(l, xs) && last == Row(l, xs)[|xs|]
    ensures Threaded(next[e := Tail(l)][last := e], prev[e := last][Tail(l) := e], Row(l, xs + [e]))
  {
    var row, row' := Row(l, xs), Row(l, xs + [e]);
    var next', prev' := next[e := Tail(l)][last := e], prev[e := last][Tail(l) := e];
    forall i | 0 <= i < |row'| - 1 ensures JoinedAt(next', prev', row', i) {
      if i < |xs| {
        assert row'[i] == row[i] && row'[i + 1] == row[i + 1];
        assert JoinedAt(next, prev, row, i) && row[i] != row[|xs|] && row[i + 1] != row[|xs| + 1];
      }
    }
  }

  lemma PushApart(lists: map<ListId, seq<Node>>, l: ListId, e: Node)
    requires Apart(lists) && l in lists && OnNone(lists, e) && Interior(e)
    ensures Apart(lists[l := lists[l] + [e]])
  {
  }

  /** Only because e is on no list can it be linked into this one without breaking another. */
  lemma PushKeeps(next: Pointers, prev: Pointers, lists: map<ListId, seq<Node>>, l: ListId, e: Node, last: Node)
    requires Apart(lists) && Linked(next, prev, lists) && l in lists && OnNone(lists, e) && Interior(e)
    requires last == Row(l, lists[l])[|lists[l]|]
    ensures Linked(next[e := Tail(l)][last := e], prev[e := last][Tail(l) := e], lists[l := lists[l] + [e]])
  {
    var next', prev', lists' := next[e := Tail(l)][last := e], prev[e := last][Tail(l) := e],
      lists[l := lists[l] + [e]];
    forall m | m in lists' ensures Threaded(next', prev', Row(m, lists'[m])) {
      if m == l {
        RowIsDistinct(l, lists[l]);
        RowPush(next, prev, l, lists[l], e, last);
      } else {
        RowsApart(lists, l, m, last);
        RowStays(next, prev, next', prev', Row(m, lists[m]));
      }
    }
  }

  // ---------------------------------------------------------------- list_pop_front

  lemma RowPop(next: Pointers, prev: Pointers, l: ListId, xs: seq<Node>, second: Node)
    requires xs != [] && NoDup(Row(l, xs)) && Threaded(next, prev, Row(l, xs)) && second == Row(l, xs)[2]
    ensures Threaded(next[Head(l) := second], prev[second := Head(l)], Row(l, xs[1..]))
  {
    var row, row' := Row(l, xs), Row(l, xs[1..]);
    var next', prev' := next[Head(l) := second], prev[second := Head(l)];
    forall i | 0 <= i < |row'| - 1 ensures JoinedAt(next', prev', row', i) {
      assert row'[i + 1] == row[i + 2];
      if i > 0 {
        assert row'[i] == row[i + 1];
        assert JoinedAt(next, prev, row, i + 1) && row[i + 1] != row[0] && row[i + 2] != row[2];
      }
    }
  }

  lemma PopApart(lists: map<ListId, seq<Node>>, l: ListId)
    requires Apart(lists) && l in lists && lists[l] != []
    ensures Apart(lists[l := lists[l][1..]]) && OnNone(lists[l := lists[l][1..]], lists[l][0])
  {
    assert lists[l] == [lists[l][0]] + lists[l][1..];
  }

  lemma PopKeeps(next: Pointers, prev: Pointers, lists: map<ListId, seq<Node>>, l: ListId, second: Node)
    requires Apart(lists) && Linked(next, prev, lists) && l in lists && lists[l] != [] && second == Row(l, lists[l])[2]
    ensures Linked(next[Head(l) := second], prev[second := Head(l)], lists[l := lists[l][1..]])
  {
    var next', prev', lists' := next[Head(l) := second], prev[second := Head(l)], lists[l := lists[l][1..]];
    forall m | m in lists' ensures Threaded(next', prev', Row(m, lists'[m])) {
      if m == l {
        RowIsDistinct(l, lists[l]);
        RowPop(next, prev, l, lists[l], second);
      } else {
        RowsApart(lists, l, m, second);
        RowStays(next, prev, next', prev', Row(m, lists[m]));
      }
    }
  }

  /** All the lists of the kernel, threaded through the same elements. */
  class Links {
    var next: Pointers
    var prev: Pointers
    ghost var lists: map<ListId, seq<Node>>

    ghost predicate Valid()
      reads this
    {
      Apart(lists) && Linked(next, prev, lists)
    }

    constructor ()
      ensures Valid() && lists == map[]
    {
      next, prev, lists := map[], map[], map[];
      new;
      assert forall l :: l !in lists;
    }

    /** list_init */
    method Init(l: ListId)
      requires Valid()
      modifies this
      ensures Valid() && lists == old(lists)[l := []]
    {
      InitKeeps(next, prev, lists, l);
      next, prev := next[Head(l) := Tail(l)], prev[Tail(l) := Head(l)];
      lists := lists[l := []];
    }

    /** list_empty */
    method Empty(l: ListId) returns (r: bool)
      requires Valid() && l in lists
      ensures r <==> lists[l] == []
    {
      Ends(next, prev, lists, l);
      assert lists[l] != [] ==> Interior(lists[l][0]);
      r := next[Head(l)] == Tail(l);
    }

    /** list_push_back: list_insert before the trailer. */
    method PushBack(l: ListId, e: Node)
      requires Valid() && l in lists && Interior(e) && OnNone(lists, e)
      modifies this
      ensures Valid() && lists == old(lists)[l := old(lists)[l] + [e]]
    {
      Ends(next, prev, lists, l);
      var last := prev[Tail(l)];
      PushApart(lists, l, e);
      PushKeeps(next, prev, lists, l, e, last);
      prev, next := prev[e := last], next[e := Tail(l)];
      next := next[last := e];
      prev := prev[Tail(l) := e];
      lists := lists[l := lists[l] + [e]];
    }

    /** list_pop_front: list_remove on the first element, whose own pointers stay as they are. */
    method PopFront(l: ListId) returns (front: Node)
      requires Valid() && l in lists && lists[l] != []
      modifies this
      ensures Valid() && front == old(lists)[l][0] && lists == old(lists)[l := old(lists)[l][1..]]
      ensures OnNone(lists, front)
    {
      Ends(next, prev, lists, l);
      front := next[Head(l)];
      var row := Row(l, lists[l]);
      assert JoinedAt(next, prev, row, 0) && JoinedAt(next, prev, row, 1);
      PopApart(lists, l);
      PopKeeps(next, prev, lists, l, next[front]);
      next := next[prev[front] := next[front]];
      prev := prev[next[front] := prev[front]];
      lists := lists[l := lists[l][1..]];
    }

    /** A walk from list_begin to list_end by list_next. */
    method Elements(l: ListId) returns (xs: seq<Node>)
      requires Valid() && l in lists
      ensures xs == lists[l]
    {
      ghost var row, i := Row(l, lists[l]), 0;
      Ends(next, prev, lists, l);
      var n := next[Head(l)];
      xs := [];
      RowAt(l, lists[l], 0);
      while n != Tail(l)
        invariant 0 <= i <= |lists[l]| && n == row[i + 1] && xs == lists[l][..i] && (n == Tail(l) <==> i == |lists[l]|)
        decreases |lists[l]| - i
      {
        assert JoinedAt(next, prev, row, i + 1);
        xs := xs + [n];
        n := next[n];
        i := i + 1;
        RowAt(l, lists[l], i);
      }
    }
  }
}
