/** sort and binary_search on an array of elements of any size (lib/stdlib.c), proved against HeapModel. */
module HeapSort {
  import opened Common
  import opened HeapModel

  type Element = seq<Byte>

  // ---------------------------------------------------------------- elements of a byte array

  /** Element i, counted from 1, of an array of elements of size bytes. */
  function ElementAt(bytes: seq<Byte>, size: nat, i: nat): Element
  {
    var end := i * size;
    if size <= end <= |bytes| then bytes[end - size..end] else []
  }

  lemma Before(i: nat, size: nat)
    requires i >= 1
    ensures (i - 1) * size + size == i * size && (i - 1) * size >= 0
  {
  }

  lemma Inside(i: nat, cnt: nat, size: nat)
    requires i <= cnt
    ensures i * size <= cnt * size
  {
  }

  function Elements(bytes: seq<Byte>, size: nat, cnt: nat): (s: seq<Element>)
    ensures |s| == cnt
  {
    if cnt == 0 then [] else Elements(bytes, size, cnt - 1) + [ElementAt(bytes, size, cnt)]
  }

  lemma {:induction false} ElementIs(bytes: seq<Byte>, size: nat, cnt: nat, i: nat)
    requires 1 <= i <= cnt
    ensures At(Elements(bytes, size, cnt), i) == ElementAt(bytes, size, i)
  {
    if i < cnt { ElementIs(bytes, size, cnt - 1, i); }
  }

  // ---------------------------------------------------------------- swapping

  /** Byte p of the array after the n first bytes at a and b have been exchanged. */
  function Exchanged(bytes: seq<Byte>, a: nat, b: nat, n: nat, p: nat): Byte
    requires a + n <= |bytes| && b + n <= |bytes| && p < |bytes|
  {
    if a <= p < a + n then bytes[b + (p - a)] else if b <= p < b + n then bytes[a + (p - b)] else bytes[p]
  }

  method SwapBytes(base: array<Byte>, a: nat, b: nat, size: nat)
    requires a + size <= b && b + size <= base.Length
    modifies base
    ensures forall p :: 0 <= p < base.Length ==> base[p] == Exchanged(old(base[..]), a, b, size, p)
  {
    var i := 0;
    while i < size
      invariant i <= size
      invariant forall p :: 0 <= p < base.Length ==> base[p] == Exchanged(old(base[..]), a, b, i, p)
    {
      var t := base[a + i];
      base[a + i] := base[b + i];
      base[b + i] := t;
      i := i + 1;
    }
  }

  /** Elements do not overlap. */
  lemma ElementsApart(i: nat, j: nat, size: nat)
    requires 1 <= i < j
    ensures i * size <= (j - 1) * size
  {
  }

  /** Exchanging the bytes of elements i and j exchanges the elements. */
  lemma ElementsSwapped(before: seq<Byte>, after: seq<Byte>, size: nat, cnt: nat, i: nat, j: nat)
    requires |before| == |after| == cnt * size && 1 <= i < j <= cnt
    requires i * size <= |before| && j * size <= |before|
    requires (i - 1) * size >= 0 && (i - 1) * size + size == i * size
    requires (j - 1) * size >= 0 && (j - 1) * size + size == j * size
    requires forall p :: 0 <= p < |before| ==> after[p] == Exchanged(before, (i - 1) * size, (j - 1) * size, size, p)
    ensures Elements(after, size, cnt) == Swap(Elements(before, size, cnt), i, j)
  {
    var s, t := Elements(before, size, cnt), Elements(after, size, cnt);
    forall k | 1 <= k <= cnt ensures At(t, k) == At(Swap(s, i, j), k) {
      OneSwapped(before, after, size, cnt, i, j, k);
      ElementIs(after, size, cnt, k);
      ElementIs(before, size, cnt, if k == i then j else if k == j then i else k);
    }
    assert forall k :: 0 <= k < cnt ==> t[k] == At(t, k + 1) && Swap(s, i, j)[k] == At(Swap(s, i, j), k + 1);
  }

  lemma OneSwapped(before: seq<Byte>, after: seq<Byte>, size: nat, cnt: nat, i: nat, j: nat, k: nat)
    requires |before| == |after| == cnt * size && 1 <= i < j <= cnt && 1 <= k <= cnt
    requires i * size <= |before| && j * size <= |before|
    requires (i - 1) * size >= 0 && (i - 1) * size + size == i * size
    requires (j - 1) * size >= 0 && (j - 1) * size + size == j * size
    requires forall p :: 0 <= p < |before| ==> after[p] == Exchanged(before, (i - 1) * size, (j - 1) * size, size, p)
    ensures ElementAt(after, size, k) == ElementAt(before, size, if k == i then j else if k == j then i else k)
  {
    Inside(k, cnt, size);
    Before(k, size);
    ElementsApart(i, j, size);
    if k < i { ElementsApart(k, i, size); } else if i < k { ElementsApart(i, k, size); }
    if k < j { ElementsApart(k, j, size); } else if j < k { ElementsApart(j, k, size); }
    SliceMoved(before, after, (i - 1) * size, (j - 1) * size, size, (k - 1) * size);
  }

  /** The same for slices at byte positions, none of which overlaps another. */
  lemma SliceMoved(before: seq<Byte>, after: seq<Byte>, a: nat, b: nat, size: nat, c: nat)
    requires |before| == |after| && a + size <= b && b + size <= |before| && c + size <= |before|
    requires c == a || c == b || c + size <= a || (a + size <= c && c + size <= b) || b + size <= c
    requires forall p :: 0 <= p < |before| ==> after[p] == Exchanged(before, a, b, size, p)
    ensures var d := if c == a then b else if c == b then a else c; after[c..c + size] == before[d..d + size]
  {
  }

  /** do_swap */
  method DoSwap(base: array<Byte>, i: nat, j: nat, size: nat, ghost cnt: nat)
    requires base.Length == cnt * size && 1 <= i < j <= cnt
    modifies base
    ensures Elements(base[..], size, cnt) == Swap(Elements(old(base[..]), size, cnt), i, j)
  {
    Before(i, size);
    Before(j, size);
    ElementsApart(i, j, size);
    Inside(j, cnt, size);
    Inside(i, cnt, size);
    SwapBytes(base, (i - 1) * size, (j - 1) * size, size);
    ElementsSwapped(old(base[..]), base[..], size, cnt, i, j);
  }

  /** do_compare */
  method DoCompare(base: array<Byte>, i: nat, j: nat, size: nat, compare: (Element, Element) -> int,
                   ghost cnt: nat)
    returns (r: int)
    requires base.Length == cnt * size && 1 <= i <= cnt && 1 <= j <= cnt
    ensures r == compare(At(Elements(base[..], size, cnt), i), At(Elements(base[..], size, cnt), j))
  {
    ElementIs(base[..], size, cnt, i);
    ElementIs(base[..], size, cnt, j);
    r := compare(ElementAt(base[..], size, i), ElementAt(base[..], size, j));
  }

  // ---------------------------------------------------------------- sorting

  /** The largest of element i and its children among the first n. */
  method LargestOf(base: array<Byte>, i: nat, n: nat, size: nat, compare: (Element, Element) -> int,
                   ghost cnt: nat)
    returns (max: nat)
    requires base.Length == cnt * size && 1 <= i <= n <= cnt && TotalPreorder(compare)
    ensures i <= max <= n && IsMax(Elements(base[..], size, cnt), compare, n, i, max)
  {
    ghost var s := Elements(base[..], size, cnt);
    var left, right := 2 * i, 2 * i + 1;
    max := i;
    if left <= n {
      var c := DoCompare(base, left, max, size, compare, cnt);
      if c > 0 { max := left; }
    }
    if right <= n {
      var c := DoCompare(base, right, max, size, compare, cnt);
      if c > 0 { max := right; }
    }
    LargestIs(s, compare, n, i, max);
  }

  lemma LargestIs(s: seq<Element>, cmp: (Element, Element) -> int, n: nat, i: nat, m: nat)
    requires TotalPreorder(cmp) && 1 <= i <= n <= |s|
    requires var first := if 2 * i <= n && cmp(At(s, 2 * i), At(s, i)) > 0 then 2 * i else i;
             m == if 2 * i + 1 <= n && cmp(At(s, 2 * i + 1), At(s, first)) > 0 then 2 * i + 1 else first
    ensures IsMax(s, cmp, n, i, m)
  {
    forall c | 2 <= c <= n && c / 2 == i ensures c == 2 * i || c == 2 * i + 1 {}
    assert cmp(At(s, m), At(s, m)) <= 0;
  }

  /** heapify, on the first n elements: the heap reaches down to i and nothing behind it has moved. */
  method Heapify(base: array<Byte>, i: nat, n: nat, size: nat, compare: (Element, Element) -> int, ghost cnt: nat)
    requires base.Length == cnt * size && 1 <= i <= n <= cnt && TotalPreorder(compare)
    requires HeapFrom(Elements(base[..], size, cnt), compare, i + 1, n)
    modifies base
    ensures HeapFrom(Elements(base[..], size, cnt), compare, i, n)
    ensures Permuted(Elements(old(base[..]), size, cnt), Elements(base[..], size, cnt), n)
  {
    ghost var s := Elements(base[..], size, cnt);
    HeapFloats(s, compare, i, n);
    var at := i;
    while true
      invariant i <= at <= n && Floating(Elements(base[..], size, cnt), compare, i, n, at)
      invariant Permuted(s, Elements(base[..], size, cnt), n)
      decreases n - at
    {
      ghost var t := Elements(base[..], size, cnt);
      var max := LargestOf(base, at, n, size, compare, cnt);
      if max == at {
        FloatEnds(t, compare, i, n, at);
        break;
      }
      DoSwap(base, at, max, size, cnt);
      FloatDown(t, compare, i, n, at, max);
      SwapPermutes(t, at, max, n);
      PermutedTrans(s, t, Elements(base[..], size, cnt), n);
      at := max;
    }
  }

  /** sort: the elements in order, none lost and none made up. */
  method Sort(base: array<Byte>, cnt: nat, size: nat, compare: (Element, Element) -> int)
    requires base.Length == cnt * size && size > 0 && TotalPreorder(compare)
    modifies base
    ensures Sorted(Elements(base[..], size, cnt), compare)
    ensures multiset(Elements(base[..], size, cnt)) == multiset(Elements(old(base[..]), size, cnt))
  {
    ghost var s := Elements(base[..], size, cnt);
    BuildHeap(base, cnt, size, compare);
    ghost var t := Elements(base[..], size, cnt);
    assert s[..cnt] == s && t[..cnt] == t;
    NothingBehind(t, compare);
    var i := cnt;
    while i > 1
      invariant i <= cnt && Extracting(Elements(base[..], size, cnt), compare, i)
      invariant Permuted(s, Elements(base[..], size, cnt), cnt)
    {
      ExtractRoot(base, i, size, compare, cnt);
      ghost var u := Elements(base[..], size, cnt);
      i := i - 1;
    }
    ghost var u := Elements(base[..], size, cnt);
    ExtractedAll(u, compare, i);
    assert u[..cnt] == u;
  }

  lemma LeavesAreHeaps(s: seq<Element>, cmp: (Element, Element) -> int, cnt: nat)
    requires cnt <= |s|
    ensures HeapFrom(s, cmp, cnt / 2 + 1, cnt) && Permuted(s, s, cnt)
  {
  }

  method BuildHeap(base: array<Byte>, cnt: nat, size: nat, compare: (Element, Element) -> int)
    requires base.Length == cnt * size && TotalPreorder(compare)
    modifies base
    ensures HeapFrom(Elements(base[..], size, cnt), compare, 1, cnt)
    ensures Permuted(Elements(old(base[..]), size, cnt), Elements(base[..], size, cnt), cnt)
  {
    ghost var s := Elements(base[..], size, cnt);
    var i := cnt / 2;
    LeavesAreHeaps(s, compare, cnt);
    while i > 0
      invariant 0 <= i <= cnt && HeapFrom(Elements(base[..], size, cnt), compare, i + 1, cnt)
      invariant Permuted(s, Elements(base[..], size, cnt), cnt)
    {
      ghost var t := Elements(base[..], size, cnt);
      Heapify(base, i, cnt, size, compare, cnt);
      PermutedTrans(s, t, Elements(base[..], size, cnt), cnt);
      i := i - 1;
    }
  }

  /** One turn of the second loop of sort: the largest element goes behind the heap. */
  method ExtractRoot(base: array<Byte>, i: nat, size: nat, compare: (Element, Element) -> int, ghost cnt: nat)
    requires base.Length == cnt * size && TotalPreorder(compare) && 1 < i <= cnt
    requires Extracting(Elements(base[..], size, cnt), compare, i)
    modifies base
    ensures Extracting(Elements(base[..], size, cnt), compare, i - 1)
    ensures Permuted(Elements(old(base[..]), size, cnt), Elements(base[..], size, cnt), cnt)
  {
    ghost var s := Elements(base[..], size, cnt);
    RootOut(s, compare, i);
    DoSwap(base, 1, i, size, cnt);
    ghost var t := Elements(base[..], size, cnt);
    SwapPermutes(s, 1, i, cnt);
    Heapify(base, 1, i - 1, size, compare, cnt);
    ghost var u := Elements(base[..], size, cnt);
    HeapAgain(t, u, compare, i - 1);
    PermutedMore(t, u, i - 1, cnt);
    PermutedTrans(s, t, u, cnt);
  }

  // ---------------------------------------------------------------- searching

  /** The first n elements come before the key. */
  ghost predicate Past(s: seq<Element>, cmp: (Element, Element) -> int, key: Element, n: nat)
  {
    forall k :: 0 <= k < n && k < |s| ==> cmp(key, s[k]) > 0
  }

  /** The elements from n on come after the key. */
  ghost predicate Beyond(s: seq<Element>, cmp: (Element, Element) -> int, key: Element, n: nat)
  {
    forall k :: n <= k < |s| ==> cmp(key, s[k]) < 0
  }

  /** binary_search: the position of the byte where a matching element starts. */
  method BinarySearch(key: Element, base: array<Byte>, cnt: nat, size: nat,
                      compare: (Element, Element) -> int)
    returns (r: Option<nat>)
    requires base.Length == cnt * size && size > 0 && TotalPreorder(compare)
    requires Sorted(Elements(base[..], size, cnt), compare)
    ensures r.Some? ==>
              exists k :: 0 <= k < cnt && r.value == k * size && compare(key, Elements(base[..], size, cnt)[k]) == 0
    ensures r.None? ==> forall k :: 0 <= k < cnt ==> compare(key, Elements(base[..], size, cnt)[k]) != 0
  {
    ghost var s := Elements(base[..], size, cnt);
    ghost var lo, hi := 0, cnt;
    var first, last := 0, cnt * size;
    while first < last
      invariant 0 <= lo <= hi <= cnt && first == lo * size && last == hi * size
      invariant Past(s, compare, key, lo) && Beyond(s, compare, key, hi)
      decreases hi - lo
    {
      Range(lo, hi, size);
      var range := (last - first) / size;
      var middle := first + range / 2 * size;
      ghost var m := lo + range / 2;
      SumTimes(lo, range / 2, size);
      var cmp := CompareKey(key, base, middle, size, compare, cnt, m);
      if cmp < 0 {
        CutAbove(s, compare, key, m);
        last, hi := middle, m;
      } else if cmp > 0 {
        CutBelow(s, compare, key, m);
        first, lo := middle + size, m + 1;
      } else {
        return Some(middle);
      }
    }
    Empty(lo, hi, size);
    r := None;
  }

  /** The comparison in binary_search, with the element that starts at a byte position. */
  method CompareKey(key: Element, base: array<Byte>, middle: nat, size: nat, compare: (Element, Element) -> int,
                    ghost cnt: nat, ghost m: nat)
    returns (cmp: int)
    requires base.Length == cnt * size && m < cnt && middle == m * size
    ensures middle + size == (m + 1) * size <= base.Length
    ensures cmp == compare(key, Elements(base[..], size, cnt)[m])
  {
    Inside(m + 1, cnt, size);
    Before(m + 1, size);
    ElementIs(base[..], size, cnt, m + 1);
    cmp := compare(key, base[middle..middle + size]);
  }

  lemma SumTimes(a: int, b: int, size: nat)
    ensures a * size + b * size == (a + b) * size
  {
  }

  lemma Range(lo: nat, hi: nat, size: nat)
    requires lo <= hi && size > 0 && lo * size < hi * size
    ensures (hi * size - lo * size) / size == hi - lo && lo < hi
  {
    SumTimes(hi - lo, lo, size);
    DivIs(hi * size - lo * size, size, hi - lo);
  }

  lemma Empty(lo: nat, hi: nat, size: nat)
    requires lo <= hi && size > 0
    ensures lo * size >= hi * size ==> lo == hi
  {
    if lo < hi {
      Inside(lo + 1, hi, size);
      Before(lo + 1, size);
    }
  }

  lemma CutAbove(s: seq<Element>, cmp: (Element, Element) -> int, key: Element, m: nat)
    requires TotalPreorder(cmp) && Sorted(s, cmp) && m < |s| && cmp(key, s[m]) < 0
    ensures Beyond(s, cmp, key, m)
  {
    forall k | m <= k < |s| ensures cmp(key, s[k]) < 0 {
      if m < k { LessTrans(cmp, key, s[m], s[k]); }
    }
  }

  lemma CutBelow(s: seq<Element>, cmp: (Element, Element) -> int, key: Element, m: nat)
    requires TotalPreorder(cmp) && Sorted(s, cmp) && m < |s| && cmp(key, s[m]) > 0
    ensures Past(s, cmp, key, m + 1)
  {
    forall k | 0 <= k < m + 1 ensures cmp(key, s[k]) > 0 {
      if k < m { MoreTrans(cmp, key, s[m], s[k]); }
    }
  }

  lemma LessTrans(cmp: (Element, Element) -> int, key: Element, x: Element, y: Element)
    requires TotalPreorder(cmp) && cmp(key, x) < 0 && cmp(x, y) <= 0
    ensures cmp(key, y) < 0
  {
    assert cmp(x, key) > 0;
    assert cmp(y, key) <= 0 ==> cmp(x, key) <= 0;
  }

  lemma MoreTrans(cmp: (Element, Element) -> int, key: Element, x: Element, y: Element)
    requires TotalPreorder(cmp) && cmp(key, x) > 0 && cmp(y, x) <= 0
    ensures cmp(key, y) > 0
  {
    assert cmp(key, y) <= 0 ==> cmp(key, x) <= 0;
  }
}
