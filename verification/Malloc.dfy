/** Block allocation out of pages (threads/malloc.c over threads/palloc.c). */
module Malloc {
  import opened Common
  import opened FreeMap

  const PGSIZE: nat := 4096
  const HEADER: nat := 12         // sizeof (struct arena)

  datatype Desc = Desc(blockSize: nat, blocksPerArena: nat)

  /** A page divided into blocks, or the first page of one big block. */
  datatype Arena = Small(desc: nat, freeCnt: nat) | Big(pages: nat)

  /** used: the kernel pool's bitmap; page first + i is bit i.  free: the free list of each descriptor.
      live: the blocks handed out.  foreign: the pages other clients of the pool have. */
  datatype Heap = Heap(used: seq<bool>, first: nat, descs: seq<Desc>, arenas: map<nat, Arena>, free: seq<seq<nat>>,
                       live: set<nat>, foreign: set<nat>)

  // ---------------------------------------------------------------- addresses

  function PageOf(addr: nat): nat { addr / PGSIZE }

  function OfsOf(addr: nat): nat { addr % PGSIZE }

  ghost predicate GoodDesc(d: Desc)
  {
    d.blockSize >= 16 && d.blocksPerArena >= 1 && HEADER + d.blocksPerArena * d.blockSize <= PGSIZE
  }

  /** arena_to_block */
  function BlockAddr(page: nat, d: Desc, i: nat): nat { page * PGSIZE + HEADER + i * d.blockSize }

  /** block_to_arena undoes arena_to_block, and its alignment assertions hold. */
  lemma BlockToArena(page: nat, d: Desc, i: nat)
    requires GoodDesc(d) && i < d.blocksPerArena
    ensures PageOf(BlockAddr(page, d, i)) == page
    ensures OfsOf(BlockAddr(page, d, i)) == HEADER + i * d.blockSize
    ensures (OfsOf(BlockAddr(page, d, i)) - HEADER) % d.blockSize == 0
    ensures OfsOf(BlockAddr(page, d, i)) + d.blockSize <= PGSIZE
  {
    MulMono(i + 1, d.blocksPerArena, d.blockSize);
    assert (i + 1) * d.blockSize == i * d.blockSize + d.blockSize;
    var o := HEADER + i * d.blockSize;
    DivIs(page * PGSIZE + o, PGSIZE, page);
    MultipleMod(i, d.blockSize);
  }

  lemma MultipleMod(i: nat, n: nat)
    requires n > 0
    ensures i * n % n == 0
  {
    DivIs(i * n, n, i);
  }

  /** Different blocks of an arena do not overlap. */
  lemma BlocksApart(page: nat, d: Desc, i: nat, j: nat)
    requires i < j
    ensures BlockAddr(page, d, i) + d.blockSize <= BlockAddr(page, d, j)
  {
    MulMono(i + 1, j, d.blockSize);
    assert (i + 1) * d.blockSize == i * d.blockSize + d.blockSize;
  }

  /** The first n blocks of an arena. */
  function BlocksUpTo(page: nat, d: Desc, n: nat): set<nat>
  {
    if n == 0 then {} else BlocksUpTo(page, d, n - 1) + {BlockAddr(page, d, n - 1)}
  }

  function Blocks(page: nat, d: Desc): set<nat> { BlocksUpTo(page, d, d.blocksPerArena) }

  lemma {:induction false} BlockMembers(page: nat, d: Desc, n: nat)
    requires GoodDesc(d) && n <= d.blocksPerArena
    ensures forall b :: b in BlocksUpTo(page, d, n) <==> exists i :: 0 <= i < n && b == BlockAddr(page, d, i)
    ensures forall b :: b in BlocksUpTo(page, d, n) ==> PageOf(b) == page
  {
    if n > 0 {
      BlockMembers(page, d, n - 1);
      BlockToArena(page, d, n - 1);
    }
  }

  lemma BlockIsNew(page: nat, d: Desc, n: nat)
    requires GoodDesc(d) && n < d.blocksPerArena
    ensures BlockAddr(page, d, n) !in BlocksUpTo(page, d, n)
  {
    BlockMembers(page, d, n);
    forall i | 0 <= i < n ensures BlockAddr(page, d, i) != BlockAddr(page, d, n) { BlocksApart(page, d, i, n); }
  }

  lemma {:induction false} BlocksAre(page: nat, d: Desc, n: nat)
    requires GoodDesc(d) && n <= d.blocksPerArena
    ensures forall b :: b in BlocksUpTo(page, d, n) <==> exists i :: 0 <= i < n && b == BlockAddr(page, d, i)
    ensures |BlocksUpTo(page, d, n)| == n
    ensures forall b :: b in BlocksUpTo(page, d, n) ==> PageOf(b) == page
  {
    BlockMembers(page, d, n);
    if n > 0 {
      BlocksAre(page, d, n - 1);
      BlockIsNew(page, d, n - 1);
    }
  }

  lemma BlockIndex(page: nat, d: Desc, b: nat) returns (i: nat)
    requires GoodDesc(d) && b in Blocks(page, d)
    ensures i < d.blocksPerArena && b == BlockAddr(page, d, i)
  {
    BlocksAre(page, d, d.blocksPerArena);
    i :| 0 <= i < d.blocksPerArena && b == BlockAddr(page, d, i);
  }

  /** The same in address order. */
  function BlockList(page: nat, d: Desc, n: nat): seq<nat>
  {
    if n == 0 then [] else BlockList(page, d, n - 1) + [BlockAddr(page, d, n - 1)]
  }

  lemma {:induction false} BlockListIs(page: nat, d: Desc, n: nat)
    requires GoodDesc(d) && n <= d.blocksPerArena
    ensures forall b :: b in BlockList(page, d, n) <==> b in BlocksUpTo(page, d, n)
    ensures NoDup(BlockList(page, d, n)) && |BlockList(page, d, n)| == n
  {
    if n > 0 {
      BlockListIs(page, d, n - 1);
      BlocksAre(page, d, n - 1);
      BlocksAre(page, d, n);
    }
  }

  // ---------------------------------------------------------------- lists

  /** list_remove of every element of s. */
  function Without(q: seq<nat>, s: set<nat>): seq<nat>
  {
    if q == [] then [] else (if q[0] in s then [] else [q[0]]) + Without(q[1..], s)
  }

  lemma {:induction false} WithoutIs(q: seq<nat>, s: set<nat>)
    ensures forall b :: b in Without(q, s) <==> b in q && b !in s
    ensures NoDup(q) ==> NoDup(Without(q, s))
  {
    if q != [] {
      WithoutIs(q[1..], s);
      assert q == [q[0]] + q[1..];
      if NoDup(q) {
        assert forall i :: 0 <= i < |q[1..]| ==> q[1..][i] == q[i + 1];
        assert q[0] !in Without(q[1..], s);
      }
    }
  }

  lemma {:induction false} WithoutMore(q: seq<nat>, s: set<nat>, b: nat)
    ensures Without(Without(q, s), {b}) == Without(q, s + {b})
  {
    if q != [] {
      WithoutMore(q[1..], s, b);
      var rest := Without(q[1..], s);
      assert Without(q, s) == if q[0] in s then rest else [q[0]] + rest;
      assert ([q[0]] + rest)[1..] == rest;
      assert Without(rest, {b}) == [] + Without(rest, {b});
    }
  }

  // ---------------------------------------------------------------- operations

  /** The index of the first descriptor, from k on, whose blocks hold size bytes. */
  function FindDesc(descs: seq<Desc>, size: nat, k: nat): (r: nat)
    requires k <= |descs|
    ensures k <= r <= |descs| && (r < |descs| ==> descs[r].blockSize >= size)
    ensures forall j :: k <= j < r ==> descs[j].blockSize < size
    decreases |descs| - k
  {
    if k == |descs| || descs[k].blockSize >= size then k else FindDesc(descs, size, k + 1)
  }

  datatype Got = Got(h: Heap, block: Option<nat>)

  /** DIV_ROUND_UP (size + sizeof *a, PGSIZE) */
  function BigPages(size: nat): nat { (size + HEADER + PGSIZE - 1) / PGSIZE }

  function BigAddr(page: nat): nat { page * PGSIZE + HEADER }

  /** The arena of a block too big for every descriptor. */
  function AddBig(h: Heap, i: nat, n: nat): Heap
  {
    var page := h.first + i;
    h.(used := SetRun(h.used, i, n, true), arenas := h.arenas[page := Big(n)], live := h.live + {BigAddr(page)})
  }

  /** A new arena on page first + i, all of whose blocks are free. */
  function AddArena(h: Heap, k: nat, i: nat): Heap
    requires k < |h.descs| == |h.free|
  {
    var page, d := h.first + i, h.descs[k];
    h.(used := SetRun(h.used, i, 1, true), arenas := h.arenas[page := Small(k, d.blocksPerArena)],
       free := h.free[k := h.free[k] + BlockList(page, d, d.blocksPerArena)])
  }

  /** The first block of the free list goes to the caller. */
  function TakeBlock(h: Heap, k: nat): Heap
    requires k < |h.free| && h.free[k] != [] && Counted(h.arenas, PageOf(h.free[k][0]))
  {
    var b := h.free[k][0];
    var a := h.arenas[PageOf(b)];
    h.(free := h.free[k := h.free[k][1..]], arenas := h.arenas[PageOf(b) := a.(freeCnt := a.freeCnt - 1)],
      live := h.live + {b})
  }

  /** The arena on a page is divided into blocks, and free_cnt is positive. */
  predicate Counted(arenas: map<nat, Arena>, p: nat) { p in arenas && arenas[p].Small? && arenas[p].freeCnt > 0 }

  /** free on a small block, before the arena is looked at. */
  function PutBlock(h: Heap, b: nat): Heap
    requires SmallOn(h, PageOf(b))
  {
    var a := h.arenas[PageOf(b)];
    h.(free := h.free[a.desc := [b] + h.free[a.desc]], arenas := h.arenas[PageOf(b) := a.(freeCnt := a.freeCnt + 1)],
       live := h.live - {b})
  }

  /** The page holds an arena divided into blocks. */
  predicate SmallOn(h: Heap, p: nat) { p in h.arenas && h.arenas[p].Small? && h.arenas[p].desc < |h.free| == |h.descs| }

  /** The blocks of an arena are taken off the free list and its page goes back to the pool. */
  function DropArena(h: Heap, page: nat): Heap
    requires SmallOn(h, page) && page >= h.first
  {
    var k := h.arenas[page].desc;
    h.(free := h.free[k := Without(h.free[k], Blocks(page, h.descs[k]))], arenas := h.arenas - {page},
       used := SetRun(h.used, page - h.first, 1, false))
  }

  function DropBig(h: Heap, page: nat): Heap
    requires page in h.arenas && h.arenas[page].Big? && page >= h.first
  {
    h.(arenas := h.arenas - {page}, used := SetRun(h.used, page - h.first, h.arenas[page].pages, false),
       live := h.live - {BigAddr(page)})
  }

  /** block_size */
  function SizeOf(h: Heap, b: nat): int
    requires PageOf(b) in h.arenas && (h.arenas[PageOf(b)].Small? ==> h.arenas[PageOf(b)].desc < |h.descs|)
  {
    match h.arenas[PageOf(b)]
    case Small(k, c) => h.descs[k].blockSize
    case Big(n) => PGSIZE * n - OfsOf(b)
  }

  // ---------------------------------------------------------------- invariant

  function PagesOf(a: Arena): nat { if a.Small? then 1 else a.pages }

  /** Page x is one of the pages of the arena that starts on page p. */
  ghost predicate InArena(arenas: map<nat, Arena>, p: nat, x: nat) { p in arenas && p <= x < p + PagesOf(arenas[p]) }

  ghost predicate Owned(arenas: map<nat, Arena>, x: nat) { exists p :: InArena(arenas, p, x) }

  ghost predicate Used(h: Heap, x: nat) { h.first <= x < h.first + |h.used| && h.used[x - h.first] }

  /** No page belongs to two arenas. */
  ghost predicate PagesApart(arenas: map<nat, Arena>)
  {
    && (forall p :: p in arenas ==> PagesOf(arenas[p]) >= 1)
    && (forall p: nat, q: nat, x: nat :: InArena(arenas, p, x) && InArena(arenas, q, x) ==> p == q)
  }

  /** The used pages are those of the arenas and, apart from them, those other clients have. */
  ghost predicate PagesUsed(h: Heap)
  {
    && (forall p: nat, x: nat :: InArena(h.arenas, p, x) ==> Used(h, x) && x !in h.foreign)
    && (forall x :: x in h.foreign ==> Used(h, x))
    && (forall x: nat :: Used(h, x) && x !in h.foreign ==> Owned(h.arenas, x))
  }

  ghost predicate PagesOk(h: Heap) { PagesApart(h.arenas) && PagesUsed(h) }

  ghost predicate TableOk(h: Heap)
  {
    && |h.free| == |h.descs|
    && (forall k :: 0 <= k < |h.descs| ==> GoodDesc(h.descs[k]))
    && (forall p :: p in h.arenas && h.arenas[p].Small? ==> h.arenas[p].desc < |h.descs|)
  }

  /** b is a block of an arena of descriptor k. */
  ghost predicate IsBlock(arenas: map<nat, Arena>, descs: seq<Desc>, b: nat, k: nat)
  {
    && k < |descs| && PageOf(b) in arenas && arenas[PageOf(b)].Small? && arenas[PageOf(b)].desc == k
    && b in Blocks(PageOf(b), descs[k])
  }

  ghost predicate FreeOk(h: Heap)
  {
    && (forall k :: 0 <= k < |h.free| ==> NoDup(h.free[k]))
    && (forall k, b :: 0 <= k < |h.free| && b in h.free[k] ==> IsBlock(h.arenas, h.descs, b, k))
  }

  /** A live block is a block that is not free, or the one block of a big arena. */
  ghost predicate LiveBlock(arenas: map<nat, Arena>, descs: seq<Desc>, free: seq<seq<nat>>, b: nat)
  {
    PageOf(b) in arenas &&
    match arenas[PageOf(b)]
    case Small(k, c) => IsBlock(arenas, descs, b, k) && k < |free| && b !in free[k]
    case Big(n) => b == BigAddr(PageOf(b))
  }

  ghost predicate LiveOk(h: Heap) { forall b :: b in h.live ==> LiveBlock(h.arenas, h.descs, h.free, b) }

  /** The free blocks of one arena. */
  function FreeOf(q: seq<nat>, page: nat): set<nat> { set b | b in q && PageOf(b) == page }

  /** free_cnt counts the arena's blocks on the free list, and its other blocks are live. */
  ghost predicate ArenaOk(a: Arena, descs: seq<Desc>, free: seq<seq<nat>>, live: set<nat>, p: nat)
  {
    match a
    case Small(k, c) =>
      && k < |descs| == |free| && c == |FreeOf(free[k], p)|
      && (forall b :: b in Blocks(p, descs[k]) ==> b in live || b in free[k])
    case Big(n) => BigAddr(p) in live
  }

  ghost predicate ArenasOk(h: Heap) { forall p :: p in h.arenas ==> ArenaOk(h.arenas[p], h.descs, h.free, h.live, p) }

  /** No arena is left without a block in use, except possibly on one page. */
  ghost predicate NoneIdle(h: Heap, except: Option<nat>)
  {
    forall p :: p in h.arenas && except != Some(p) ==> Busy(h.arenas[p], h.descs)
  }

  ghost predicate Busy(a: Arena, descs: seq<Desc>)
  {
    a.Small? && a.desc < |descs| ==> a.freeCnt < descs[a.desc].blocksPerArena
  }

  ghost predicate Inv0(h: Heap) { TableOk(h) && PagesOk(h) && FreeOk(h) && LiveOk(h) && ArenasOk(h) }

  ghost predicate HeapInv(h: Heap) { Inv0(h) && NoneIdle(h, None) }
}
