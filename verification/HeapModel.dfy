/** What the steps of heap sort do to a sequence; positions are counted from 1 (lib/stdlib.c). */
module HeapModel {

  /** The comparator's contract: a strcmp-style total preorder. */
  ghost predicate TotalPreorder<T(!new)>(cmp: (T, T) -> int)
  {
    && (forall x, y :: cmp(x, y) > 0 <==> cmp(y, x) < 0)
    && (forall x, y, z :: cmp(x, y) <= 0 && cmp(y, z) <= 0 ==> cmp(x, z) <= 0)
  }

  function At<T>(s: seq<T>, i: nat): T
    requires 1 <= i <= |s|
  {
    s[i - 1]
  }

  function Swap<T>(s: seq<T>, i: nat, j: nat): (r: seq<T>)
    requires 1 <= i <= |s| && 1 <= j <= |s|
    ensures |r| == |s|
    ensures forall k :: 1 <= k <= |s| ==> At(r, k) == if k == i then At(s, j) else if k == j then At(s, i) else At(s, k)
  {
    s[i - 1 := s[j - 1]][j - 1 := s[i - 1]]
  }

  /** The first cnt elements are the same ones in another order, and the rest are as they were. */
  ghost predicate Permuted<T>(s: seq<T>, t: seq<T>, cnt: nat)
    requires cnt <= |s|
  {
    |t| == |s| && multiset(t[..cnt]) == multiset(s[..cnt]) && t[cnt..] == s[cnt..]
  }

  lemma SwapPermutes<T>(s: seq<T>, i: nat, j: nat, cnt: nat)
    requires 1 <= i <= cnt && 1 <= j <= cnt && cnt <= |s|
    ensures Permuted(s, Swap(s, i, j), cnt)
  {
    var t := Swap(s, i, j);
    assert t[..cnt] == s[..cnt][i - 1 := s[j - 1]][j - 1 := s[i - 1]];
    assert t[cnt..] == s[cnt..];
  }

  lemma PermutedTrans<T>(s: seq<T>, t: seq<T>, u: seq<T>, cnt: nat)
    requires cnt <= |s| && Permuted(s, t, cnt) && Permuted(t, u, cnt)
    ensures Permuted(s, u, cnt)
  {
  }

  /** Permuting fewer elements is permuting more. */
  lemma PermutedMore<T>(s: seq<T>, t: seq<T>, cnt: nat, more: nat)
    requires cnt <= more <= |s| && Permuted(s, t, cnt)
    ensures Permuted(s, t, more)
  {
    assert s[..more] == s[..cnt] + s[cnt..][..more - cnt];
    assert t[..more] == t[..cnt] + t[cnt..][..more - cnt];
    assert s[more..] == s[cnt..][more - cnt..];
    assert t[more..] == t[cnt..][more - cnt..];
  }

  // ---------------------------------------------------------------- heaps

  /** Element c is no greater than its parent. */
  ghost predicate Below<T>(s: seq<T>, cmp: (T, T) -> int, c: nat)
    requires 2 <= c <= |s|
  {
    cmp(At(s, c), At(s, c / 2)) <= 0
  }

  /** Among the first cnt elements, every one whose parent is at position lo or after is below its parent. */
  ghost predicate HeapFrom<T>(s: seq<T>, cmp: (T, T) -> int, lo: nat, cnt: nat)
    requires cnt <= |s|
  {
    forall c :: 2 <= c <= cnt && c / 2 >= lo ==> Below(s, cmp, c)
  }

  /** A heap from lo on, except that element i may be too small for its place. */
  ghost predicate Floating<T>(s: seq<T>, cmp: (T, T) -> int, lo: nat, cnt: nat, i: nat)
    requires cnt <= |s| && 1 <= lo <= i
  {
    && (forall c :: 2 <= c <= cnt && c / 2 >= lo && c / 2 != i ==> Below(s, cmp, c))
    && (forall c :: 2 <= c <= cnt && c / 2 == i && i / 2 >= lo ==> cmp(At(s, c), At(s, i / 2)) <= 0)
  }

  /** The larger of element i and its children. */
  ghost predicate IsMax<T>(s: seq<T>, cmp: (T, T) -> int, cnt: nat, i: nat, m: nat)
    requires cnt <= |s| && 1 <= i <= |s|
  {
    && (m == i || (m <= cnt && m / 2 == i && m >= 2 && cmp(At(s, i), At(s, m)) <= 0))
    && (forall c :: 2 <= c <= cnt && c / 2 == i ==> 1 <= m <= |s| && cmp(At(s, c), At(s, m)) <= 0)
  }

  /** Swapping element i with its largest child moves the misplaced element one level down. */
  lemma FloatDown<T(!new)>(s: seq<T>, cmp: (T, T) -> int, lo: nat, cnt: nat, i: nat, m: nat)
    requires TotalPreorder(cmp) && cnt <= |s| && 1 <= lo <= i <= cnt && Floating(s, cmp, lo, cnt, i)
    requires IsMax(s, cmp, cnt, i, m) && m != i
    ensures Floating(Swap(s, i, m), cmp, lo, cnt, m)
  {
    var t := Swap(s, i, m);
    forall c | 2 <= c <= cnt && c / 2 >= lo && c / 2 != m ensures Below(t, cmp, c) {
      if c / 2 != i { assert c != i ==> Below(s, cmp, c); }
    }
    forall c | 2 <= c <= cnt && c / 2 == m ensures cmp(At(t, c), At(t, m / 2)) <= 0 {
      assert Below(s, cmp, c);
    }
  }

  /** A misplaced element that is not smaller than its children is not misplaced. */
  lemma FloatEnds<T(!new)>(s: seq<T>, cmp: (T, T) -> int, lo: nat, cnt: nat, i: nat)
    requires cnt <= |s| && 1 <= lo <= i <= cnt && Floating(s, cmp, lo, cnt, i) && IsMax(s, cmp, cnt, i, i)
    ensures HeapFrom(s, cmp, lo, cnt)
  {
  }

  lemma HeapFloats<T>(s: seq<T>, cmp: (T, T) -> int, i: nat, cnt: nat)
    requires cnt <= |s| && i >= 1 && HeapFrom(s, cmp, i + 1, cnt)
    ensures Floating(s, cmp, i, cnt, i)
  {
  }

  /** The first element of a heap is its largest. */
  lemma {:induction false} RootIsMax<T(!new)>(s: seq<T>, cmp: (T, T) -> int, cnt: nat, c: nat)
    requires TotalPreorder(cmp) && 1 <= c <= cnt <= |s| && HeapFrom(s, cmp, 1, cnt)
    ensures cmp(At(s, c), At(s, 1)) <= 0
  {
    if c > 1 {
      RootIsMax(s, cmp, cnt, c / 2);
      assert Below(s, cmp, c);
    } else {
      assert cmp(At(s, 1), At(s, 1)) <= 0;
    }
  }

  // ---------------------------------------------------------------- sorting

  ghost predicate Sorted<T>(s: seq<T>, cmp: (T, T) -> int) { forall j, k :: 0 <= j < k < |s| ==> cmp(s[j], s[k]) <= 0 }

  /** None of the first i elements is greater than any of the rest. */
  ghost predicate Split<T>(s: seq<T>, cmp: (T, T) -> int, i: nat)
    requires i <= |s|
  {
    forall x, y :: x in s[..i] && y in s[i..] ==> cmp(x, y) <= 0
  }

  /** A heap of the first i elements, and behind it the greatest ones in order. */
  ghost predicate Extracting<T>(s: seq<T>, cmp: (T, T) -> int, i: nat)
    requires i <= |s|
  {
    HeapFrom(s, cmp, 1, i) && Sorted(s[i..], cmp) && Split(s, cmp, i)
  }

  lemma SwapEnds<T>(s: seq<T>, i: nat)
    requires 1 < i <= |s|
    ensures var t := Swap(s, 1, i); t[i - 1..] == [At(s, 1)] + s[i..] && forall x :: x in t[..i - 1] ==> x in s[..i]
  {
    var t := Swap(s, 1, i);
    assert t[i - 1] == At(t, i) == At(s, 1);
    assert t[i..] == s[i..];
    forall x | x in t[..i - 1] ensures x in s[..i] {
      var j :| 0 <= j < i - 1 && x == t[j];
      var c := if j == 0 then i - 1 else j;
      assert x == At(t, j + 1) == s[..i][c];
    }
  }

  lemma RootTops<T(!new)>(s: seq<T>, cmp: (T, T) -> int, i: nat, x: T)
    requires TotalPreorder(cmp) && 1 <= i <= |s| && HeapFrom(s, cmp, 1, i) && x in s[..i]
    ensures cmp(x, At(s, 1)) <= 0
  {
    var j :| 0 <= j < i && x == s[j];
    RootIsMax(s, cmp, i, j + 1);
  }

  /** Moving the root behind the heap: the rest is a heap but for its new root. */
  lemma RootOut<T(!new)>(s: seq<T>, cmp: (T, T) -> int, i: nat)
    requires TotalPreorder(cmp) && 1 < i <= |s| && Extracting(s, cmp, i)
    ensures var t := Swap(s, 1, i); HeapFrom(t, cmp, 2, i - 1) && Sorted(t[i - 1..], cmp) && Split(t, cmp, i - 1)
  {
    var t := Swap(s, 1, i);
    forall c | 2 <= c <= i - 1 && c / 2 >= 2 ensures Below(t, cmp, c) { assert Below(s, cmp, c); }
    SwapEnds(s, i);
    assert At(s, 1) in s[..i] by { assert s[..i][0] == At(s, 1); }
    SortedCons(At(s, 1), s[i..], cmp);
    forall x, y | x in t[..i - 1] && y in t[i - 1..] ensures cmp(x, y) <= 0 {
      RootTops(s, cmp, i, x);
      assert y == At(s, 1) || y in s[i..];
    }
  }

  lemma SortedCons<T>(x: T, s: seq<T>, cmp: (T, T) -> int)
    requires Sorted(s, cmp) && forall y :: y in s ==> cmp(x, y) <= 0
    ensures Sorted([x] + s, cmp)
  {
  }

  /** Reordering the heap keeps it apart from what is behind it. */
  lemma HeapAgain<T(!new)>(s: seq<T>, t: seq<T>, cmp: (T, T) -> int, i: nat)
    requires i <= |s| && Permuted(s, t, i) && HeapFrom(t, cmp, 1, i) && Sorted(s[i..], cmp) && Split(s, cmp, i)
    ensures Extracting(t, cmp, i)
  {
    forall x | x in t[..i] ensures x in s[..i] {
      assert x in multiset(t[..i]);
    }
  }

  /** At the start nothing is behind the heap, which is all there is. */
  lemma NothingBehind<T>(s: seq<T>, cmp: (T, T) -> int)
    requires HeapFrom(s, cmp, 1, |s|)
    ensures Extracting(s, cmp, |s|)
  {
  }

  lemma ExtractedAll<T(!new)>(s: seq<T>, cmp: (T, T) -> int, i: nat)
    requires i <= 1 && i <= |s| && Extracting(s, cmp, i)
    ensures Sorted(s, cmp)
  {
    if i == 1 {
      assert s[0] in s[..1];
      SortedCons(s[0], s[1..], cmp);
      assert s == [s[0]] + s[1..];
    }
  }
}
