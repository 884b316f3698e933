/** Tables of entries reached through a directory, whatever the entries are. */
module TwoLevel {
  import opened Common

  /** dir[i] names the table whose slots are entries (i, 0), (i, 1), ... */
  datatype Tables<T, E> = Tables(dir: seq<Option<T>>, tables: map<T, seq<E>>)

  /** Every table named exists, has the same size as the others, and is named once. */
  ghost predicate TablesOk<T, E>(t: Tables<T, E>, size: nat)
  {
    && (forall k :: k in t.tables ==> |t.tables[k]| == size)
    && (forall i :: 0 <= i < |t.dir| && t.dir[i].Some? ==> t.dir[i].value in t.tables)
    && (forall i, j :: 0 <= i < |t.dir| && 0 <= j < |t.dir| && i != j && t.dir[i].Some? ==> t.dir[i] != t.dir[j])
  }

  function EntryOf<T, E>(t: Tables<T, E>, size: nat, i: nat, j: nat): Option<E>
    requires TablesOk(t, size) && i < |t.dir| && j < size
  {
    if t.dir[i].None? then None else Some(t.tables[t.dir[i].value][j])
  }

  function Put<T, E>(t: Tables<T, E>, size: nat, i: nat, j: nat, e: E): Tables<T, E>
    requires TablesOk(t, size) && i < |t.dir| && j < size && t.dir[i].Some?
  {
    var k := t.dir[i].value;
    t.(tables := t.tables[k := t.tables[k][j := e]])
  }

  lemma PutIs<T, E>(t: Tables<T, E>, size: nat, i: nat, j: nat, e: E)
    requires TablesOk(t, size) && i < |t.dir| && j < size && t.dir[i].Some?
    ensures TablesOk(Put(t, size, i, j, e), size)
    ensures forall i', j' :: 0 <= i' < |t.dir| && 0 <= j' < size ==>
      EntryOf(Put(t, size, i, j, e), size, i', j') == if i' == i && j' == j then Some(e) else EntryOf(t, size, i', j')
  {
    var t' := Put(t, size, i, j, e);
    forall i', j' | 0 <= i' < |t.dir| && 0 <= j' < size
      ensures EntryOf(t', size, i', j') == if i' == i && j' == j then Some(e) else EntryOf(t, size, i', j')
    {
      assert i' != i && t.dir[i'].Some? ==> t.dir[i'] != t.dir[i];
    }
  }

  lemma PutSame<T, E>(t: Tables<T, E>, size: nat, i: nat, j: nat)
    requires TablesOk(t, size) && i < |t.dir| && j < size && t.dir[i].Some?
    ensures Put(t, size, i, j, EntryOf(t, size, i, j).value) == t
  {
    var k := t.dir[i].value;
    assert t.tables[k][j := t.tables[k][j]] == t.tables[k];
  }

  /** A new table whose entries are all zero. */
  function Add<T, E>(t: Tables<T, E>, i: nat, k: T, table: seq<E>): Tables<T, E>
    requires i < |t.dir|
  {
    Tables(t.dir[i := Some(k)], t.tables[k := table])
  }

  lemma AddIs<T, E>(t: Tables<T, E>, size: nat, i: nat, k: T, table: seq<E>, zero: E)
    requires TablesOk(t, size) && i < |t.dir| && t.dir[i].None? && k !in t.tables
    requires |table| == size && forall j :: 0 <= j < size ==> table[j] == zero
    ensures TablesOk(Add(t, i, k, table), size) && Add(t, i, k, table).dir[i].Some?
    ensures forall i', j :: 0 <= i' < |t.dir| && 0 <= j < size ==>
      EntryOf(Add(t, i, k, table), size, i', j) == if i' == i then Some(zero) else EntryOf(t, size, i', j)
  {
  }

  // ---------------------------------------------------------------- what the tables hold

  /** The first n entries that name something, in order. */
  function Named<T>(q: seq<Option<T>>, n: nat): seq<T>
    requires n <= |q|
  {
    if n == 0 then [] else Named(q, n - 1) + (if q[n - 1].Some? then [q[n - 1].value] else [])
  }

  /** What the first n tables name, each table's own name following what it holds. */
  function Contents<T>(dir: seq<Option<T>>, leaves: map<T, seq<Option<T>>>, n: nat): seq<T>
    requires n <= |dir| && forall i :: 0 <= i < |dir| && dir[i].Some? ==> dir[i].value in leaves
  {
    if n == 0 then [] else
      Contents(dir, leaves, n - 1) +
      (if dir[n - 1].Some? then Named(leaves[dir[n - 1].value], |leaves[dir[n - 1].value]|) + [dir[n - 1].value]
        else [])
  }

  /** Entry j of table i, when it names something. */
  function Leaf<T>(dir: seq<Option<T>>, leaves: map<T, seq<Option<T>>>, i: nat, j: nat): Option<T>
  {
    if i < |dir| && dir[i].Some? && dir[i].value in leaves && j < |leaves[dir[i].value]| then
      leaves[dir[i].value][j] else None
  }

  lemma {:induction false} NamedIs<T>(q: seq<Option<T>>, n: nat)
    requires n <= |q|
    ensures forall x :: x in Named(q, n) <==> exists j :: 0 <= j < n && q[j] == Some(x)
    ensures (forall j, k :: 0 <= j < k < n && q[j].Some? ==> q[j] != q[k]) ==> NoDup(Named(q, n))
  {
    if n > 0 {
      NamedIs(q, n - 1);
      var init := Named(q, n - 1);
      assert q[n - 1].Some? && q[n - 1].value in init ==> exists j :: 0 <= j < n - 1 && q[j] == q[n - 1];
    }
  }

  /** The tables, and what they hold, are all different things. */
  ghost predicate Apart<T(!new)>(dir: seq<Option<T>>, leaves: map<T, seq<Option<T>>>)
  {
    && (forall i :: 0 <= i < |dir| && dir[i].Some? ==> dir[i].value in leaves)
    && (forall i, k :: 0 <= i < k < |dir| && dir[i].Some? ==> dir[i] != dir[k])
    && (forall i, j, k: nat :: Leaf(dir, leaves, i, j).Some? && k < |dir| ==> dir[k] != Leaf(dir, leaves, i, j))
    && (forall i, j, i', j' :: Leaf(dir, leaves, i, j).Some? && Leaf(dir, leaves, i, j) == Leaf(dir, leaves, i', j') ==>
      i == i' && j == j')
  }

  /** Among the first n tables: a table called x, or an entry naming x. */
  ghost predicate Holds<T(!new)>(dir: seq<Option<T>>, leaves: map<T, seq<Option<T>>>, n: nat, x: T)
    requires n <= |dir|
  {
    (exists i :: 0 <= i < n && dir[i] == Some(x)) ||
      (exists i: nat, j: nat :: i < n && Leaf(dir, leaves, i, j) == Some(x))
  }

  lemma {:induction false} ContentsAre<T(!new)>(dir: seq<Option<T>>, leaves: map<T, seq<Option<T>>>, n: nat, x: T)
    requires n <= |dir| && forall i :: 0 <= i < |dir| && dir[i].Some? ==> dir[i].value in leaves
    ensures x in Contents(dir, leaves, n) <==> Holds(dir, leaves, n, x)
  {
    if n > 0 {
      ContentsAre(dir, leaves, n - 1, x);
      var i := n - 1;
      if dir[i].Some? {
        var q := leaves[dir[i].value];
        NamedIs(q, |q|);
        if x in Named(q, |q|) {
          var j :| 0 <= j < |q| && q[j] == Some(x);
          assert Leaf(dir, leaves, i, j) == Some(x);
        }
        if j: nat :| Leaf(dir, leaves, i, j) == Some(x) { assert q[j] == Some(x); }
      }
    }
  }

  /** Listing the contents lists nothing twice. */
  lemma {:induction false} ContentsOnce<T(!new)>(dir: seq<Option<T>>, leaves: map<T, seq<Option<T>>>, n: nat)
    requires n <= |dir| && Apart(dir, leaves)
    ensures NoDup(Contents(dir, leaves, n))
  {
    if n > 0 {
      ContentsOnce(dir, leaves, n - 1);
      if dir[n - 1].Some? {
        var q := leaves[dir[n - 1].value];
        var last := Named(q, |q|) + [dir[n - 1].value];
        LeavesOnce(dir, leaves, n - 1);
        forall x | x in Contents(dir, leaves, n - 1) ensures x !in last {
          ContentsAre(dir, leaves, n - 1, x);
          LeavesAreNew(dir, leaves, n - 1, x);
        }
        JoinOnce(Contents(dir, leaves, n - 1), last);
        assert Contents(dir, leaves, n) == Contents(dir, leaves, n - 1) + last;
      }
    }
  }

  lemma JoinOnce<T>(a: seq<T>, b: seq<T>)
    requires NoDup(a) && NoDup(b) && forall x :: x in a ==> x !in b
    ensures NoDup(a + b)
  {
    forall i, j | 0 <= i < j < |a + b| ensures (a + b)[i] != (a + b)[j] {
      if i < |a| <= j { assert a[i] in a && b[j - |a|] in b; }
    }
  }

  lemma LeavesOnce<T(!new)>(dir: seq<Option<T>>, leaves: map<T, seq<Option<T>>>, i: nat)
    requires i < |dir| && Apart(dir, leaves) && dir[i].Some?
    ensures var q := leaves[dir[i].value]; NoDup(Named(q, |q|) + [dir[i].value])
  {
    var q := leaves[dir[i].value];
    NamedIs(q, |q|);
    forall j, k | 0 <= j < k < |q| && q[j].Some? ensures q[j] != q[k] {
      assert Leaf(dir, leaves, i, j) == q[j] && Leaf(dir, leaves, i, k) == q[k];
    }
    forall j | 0 <= j < |q| && q[j].Some? ensures q[j] != dir[i] { assert Leaf(dir, leaves, i, j) == q[j]; }
  }

  lemma LeavesAreNew<T(!new)>(dir: seq<Option<T>>, leaves: map<T, seq<Option<T>>>, n: nat, x: T)
    requires n < |dir| && Apart(dir, leaves) && dir[n].Some? && Holds(dir, leaves, n, x)
    ensures var q := leaves[dir[n].value]; x !in Named(q, |q|) && x != dir[n].value
  {
    var q := leaves[dir[n].value];
    NamedIs(q, |q|);
    forall j | 0 <= j < |q| && q[j].Some? ensures q[j] != Some(x) { assert Leaf(dir, leaves, n, j) == q[j]; }
  }
}
