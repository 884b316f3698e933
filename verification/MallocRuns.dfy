/** malloc, free and the other clients of the page pool, over whole runs. */
module MallocRuns {
  import opened Common
  import opened FreeMap
  import opened Malloc
  import opened MallocProofs

  // ---------------------------------------------------------------- operations

  /** The pool and the descriptors stay what they are. */
  ghost predicate SamePlace(h: Heap, h': Heap)
  {
    h'.first == h.first && |h'.used| == |h.used| && h'.descs == h.descs
  }

  function MallocBig(h: Heap, size: nat): (g: Got)
    requires HeapInv(h)
    ensures SamePlace(h, g.h)
  {
    var i := FirstFit(h.used, 0, BigPages(size), false);
    if i.None? then Got(h, None) else Got(AddBig(h, i.value, BigPages(size)), Some(BigAddr(h.first + i.value)))
  }

  function MallocSmall(h: Heap, k: nat): (g: Got)
    requires HeapInv(h) && k < |h.descs|
    ensures SamePlace(h, g.h)
  {
    if h.free[k] != [] then
      TakeReady(h, k);
      Got(TakeBlock(h, k), Some(h.free[k][0]))
    else
      var i := FirstFit(h.used, 0, 1, false);
      if i.None? then Got(h, None)
      else
        GrowKeeps(h, k, i.value);
        var h' := AddArena(h, k, i.value);
        Got(TakeBlock(h', k), Some(h'.free[k][0]))
  }

  lemma TakeReady(h: Heap, k: nat)
    requires HeapInv(h) && k < |h.free| && h.free[k] != []
    ensures NoneIdle(h, Some(PageOf(h.free[k][0]))) && Counted(h.arenas, PageOf(h.free[k][0]))
  {
    TakeKeeps(h, k);
  }

  lemma GrowKeeps(h: Heap, k: nat, i: nat)
    requires HeapInv(h) && k < |h.descs| && h.free[k] == [] && Run(h.used, i, 1, false)
    ensures var h' := AddArena(h, k, i);
            h'.free[k] != [] && Inv0(h') && Counted(h'.arenas, PageOf(h'.free[k][0])) && HeapInv(TakeBlock(h', k)) &&
              h'.free[k][0] !in h.live
  {
    NewArenaKeeps(h, k, i);
    TakeKeeps(AddArena(h, k, i), k);
  }

  function MallocOf(h: Heap, size: nat): (g: Got)
    requires HeapInv(h)
    ensures SamePlace(h, g.h)
  {
    var k := FindDesc(h.descs, size, 0);
    if size == 0 then Got(h, None)
    else if k == |h.descs| then MallocBig(h, size)
    else MallocSmall(h, k)
  }

  function FreeOfBlock(h: Heap, b: nat): (h': Heap)
    requires HeapInv(h) && b in h.live
    ensures SamePlace(h, h')
  {
    LiveSmall(h, b);
    var p := PageOf(b);
    ArenaPagesUsed(h, p);
    if h.arenas[p].Small? then
      var h' := PutBlock(h, b);
      if h'.arenas[p].freeCnt >= h.descs[h.arenas[p].desc].blocksPerArena then DropArena(h', p) else h'
    else DropBig(h, p)
  }

  /** palloc_get_multiple and palloc_free_multiple for another client. */
  function GetPages(h: Heap, n: nat): Heap
  {
    var i := FirstFit(h.used, 0, n, false);
    if n == 0 || i.None? then h
    else h.(used := SetRun(h.used, i.value, n, true), foreign := h.foreign + PageRange(h.first + i.value, n))
  }

  function PutPages(h: Heap, x: nat, n: nat): Heap
    requires h.first <= x
  {
    h.(used := SetRun(h.used, x - h.first, n, false), foreign := h.foreign - PageRange(x, n))
  }

  function PageRange(x: nat, n: nat): (r: set<nat>)
    ensures forall y: nat :: y in r <==> x <= y < x + n
  {
    if n == 0 then {} else PageRange(x, n - 1) + {x + n - 1}
  }

  // ---------------------------------------------------------------- what one call does

  /** The same blocks with the same sizes, apart from b. */
  ghost predicate SizesKept(h: Heap, h': Heap)
    requires HeapInv(h) && HeapInv(h')
  {
    forall c :: c in h.live && c in h'.live ==> Size(h', c) == Size(h, c)
  }

  ghost function Size(h: Heap, b: nat): (n: int)
    requires HeapInv(h) && b in h.live
    ensures n >= 0 && OfsOf(b) >= HEADER
  {
    LiveSmall(h, b);
    if h.arenas[PageOf(b)].Small? then SmallFits(h, b, h.arenas[PageOf(b)].desc); SizeOf(h, b)
    else
      BigAddrPage(PageOf(b));
      ArenaPagesUsed(h, PageOf(b));
      SizeOf(h, b)
  }

  lemma SmallFits(h: Heap, b: nat, k: nat)
    requires TableOk(h) && IsBlock(h.arenas, h.descs, b, k)
    ensures HEADER <= OfsOf(b) && OfsOf(b) + h.descs[k].blockSize <= PGSIZE
    ensures (OfsOf(b) - HEADER) % h.descs[k].blockSize == 0
  {
    var d := h.descs[k];
    var i := BlockIndex(PageOf(b), d, b);
    BlockToArena(PageOf(b), d, i);
  }

  /** The block handed out was not in use and is long enough; every other block keeps its size. */
  ghost predicate Gives(h: Heap, g: Got, size: nat)
    requires HeapInv(h)
  {
    HeapInv(g.h) && SizesKept(h, g.h) && g.h.foreign == h.foreign &&
    match g.block
    case None => g.h == h
    case Some(b) => b !in h.live && g.h.live == h.live + {b} && Size(g.h, b) >= size
  }

  /** malloc hands out a block that was not in use and is long enough, and disturbs no other. */
  lemma MallocGives(h: Heap, size: nat)
    requires HeapInv(h)
    ensures Gives(h, MallocOf(h, size), size)
  {
    var k := FindDesc(h.descs, size, 0);
    if size == 0 {
    } else if k == |h.descs| {
      BigGives(h, size);
    } else {
      SmallGives(h, k);
    }
  }

  lemma BigGives(h: Heap, size: nat)
    requires HeapInv(h)
    ensures Gives(h, MallocBig(h, size), size)
  {
    var i := FirstFit(h.used, 0, BigPages(size), false);
    if i.Some? { BigAdded(h, i.value, BigPages(size), size); }
  }

  lemma BigAdded(h: Heap, i: nat, n: nat, size: nat)
    requires HeapInv(h) && Run(h.used, i, n, false) && n == BigPages(size)
    ensures Gives(h, Got(AddBig(h, i, n), Some(BigAddr(h.first + i))), size)
  {
    EnoughPages(size);
    AddBigKeeps(h, i, n);
    BigSizes(h, i, n);
    BigSize(h, i, n);
  }

  lemma BigSize(h: Heap, i: nat, n: nat)
    requires HeapInv(h) && HeapInv(AddBig(h, i, n)) && n >= 1
    ensures Size(AddBig(h, i, n), BigAddr(h.first + i)) == n * PGSIZE - HEADER
  {
    BigAddrPage(h.first + i);
  }

  lemma EnoughPages(size: nat)
    ensures BigPages(size) >= 1 && BigPages(size) * PGSIZE >= size + HEADER
  {
    DivBounds(size + HEADER + PGSIZE - 1, PGSIZE);
  }

  lemma BigSizes(h: Heap, i: nat, n: nat)
    requires HeapInv(h) && HeapInv(AddBig(h, i, n)) && n >= 1 && Run(h.used, i, n, false)
    ensures SizesKept(h, AddBig(h, i, n))
  {
    FreshPages(h, i, n);
    forall c | c in h.live ensures Size(AddBig(h, i, n), c) == Size(h, c) { LiveSmall(h, c); }
  }

  lemma SmallGives(h: Heap, k: nat)
    requires HeapInv(h) && k < |h.descs|
    ensures Gives(h, MallocSmall(h, k), h.descs[k].blockSize)
  {
    if h.free[k] != [] {
      TakeReady(h, k);
      TakeKeeps(h, k);
      TakeSizes(h, k);
    } else {
      var i := FirstFit(h.used, 0, 1, false);
      if i.Some? {
        GrowKeeps(h, k, i.value);
        GrowSizes(h, k, i.value);
        TakeSizes(AddArena(h, k, i.value), k);
      }
    }
  }

  lemma GrowSizes(h: Heap, k: nat, i: nat)
    requires HeapInv(h) && k < |h.descs| && h.free[k] == [] && Run(h.used, i, 1, false) && TableOk(AddArena(h, k, i))
    ensures forall c :: c in h.live ==>
            PageOf(c) in AddArena(h, k, i).arenas && SizeAt(AddArena(h, k, i), c) == Size(h, c)
  {
    FreshPages(h, i, 1);
    forall c | c in h.live ensures PageOf(c) in AddArena(h, k, i).arenas && SizeAt(AddArena(h, k, i), c) == Size(h, c) {
      LiveSmall(h, c);
    }
  }

  /** block_size, on any address of an arena. */
  ghost function SizeAt(h: Heap, b: nat): int
    requires TableOk(h) && PageOf(b) in h.arenas
  {
    SizeOf(h, b)
  }

  lemma TakeSizes(h: Heap, k: nat)
    requires Inv0(h) && k < |h.free| && h.free[k] != []
    requires Counted(h.arenas, PageOf(h.free[k][0])) && HeapInv(TakeBlock(h, k))
    ensures forall c :: c in h.live ==> PageOf(c) in h.arenas && Size(TakeBlock(h, k), c) == SizeAt(h, c)
    ensures h.free[k][0] in TakeBlock(h, k).live && Size(TakeBlock(h, k), h.free[k][0]) == h.descs[k].blockSize
  {
    FreeHead(h, k);
    forall c | c in h.live ensures PageOf(c) in h.arenas && Size(TakeBlock(h, k), c) == SizeAt(h, c) {
      LiveSmall(h, c);
    }
  }

  lemma SmallSize(h: Heap, k: nat)
    requires HeapInv(h) && k < |h.descs| && MallocSmall(h, k).block.Some?
    ensures var g := MallocSmall(h, k);
            HeapInv(g.h) && g.block.value in g.h.live && Size(g.h, g.block.value) == h.descs[k].blockSize
  {
    if h.free[k] != [] {
      TakeReady(h, k);
      TakeKeeps(h, k);
      TakeSizes(h, k);
    } else {
      var i := FirstFit(h.used, 0, 1, false);
      GrowKeeps(h, k, i.value);
      TakeSizes(AddArena(h, k, i.value), k);
    }
  }

  lemma BigPagesTight(size: nat)
    ensures size + HEADER <= BigPages(size) * PGSIZE < size + HEADER + PGSIZE
  {
    DivBounds(size + HEADER + PGSIZE - 1, PGSIZE);
  }

  lemma BigSizeTight(h: Heap, size: nat)
    requires HeapInv(h) && MallocBig(h, size).block.Some?
    ensures var g := MallocBig(h, size);
            HeapInv(g.h) && g.block.value in g.h.live && size <= Size(g.h, g.block.value) < size + PGSIZE
  {
    var i := FirstFit(h.used, 0, BigPages(size), false).value;
    BigPagesTight(size);
    EnoughPages(size);
    AddBigKeeps(h, i, BigPages(size));
    BigSize(h, i, BigPages(size));
  }

  /** malloc wastes little: the block is of the first size that is enough, or, when none is,
      less than a page too long. */
  lemma MallocTight(h: Heap, size: nat)
    requires HeapInv(h) && MallocOf(h, size).block.Some?
    ensures var g := MallocOf(h, size);
            && HeapInv(g.h) && g.block.value in g.h.live
            && if forall j :: 0 <= j < |h.descs| ==> h.descs[j].blockSize < size
               then size <= Size(g.h, g.block.value) < size + PGSIZE
               else exists k :: 0 <= k < |h.descs| && Size(g.h, g.block.value) == h.descs[k].blockSize >= size &&
                      forall j :: 0 <= j < k ==> h.descs[j].blockSize < size
  {
    var k := FindDesc(h.descs, size, 0);
    if k == |h.descs| { BigSizeTight(h, size); } else { SmallSize(h, k); }
  }

  /** A request fails only when it is for nothing, or no run of free pages is long enough for it. */
  lemma MallocFails(h: Heap, size: nat)
    requires HeapInv(h)
    ensures var k := FindDesc(h.descs, size, 0);
            MallocOf(h, size).block.None? <==>
              || size == 0
              || (k == |h.descs| && forall i :: 0 <= i ==> !Run(h.used, i, BigPages(size), false))
              || (k < |h.descs| && h.free[k] == [] && forall i :: 0 <= i ==> !Run(h.used, i, 1, false))
  {
  }

  /** free takes back that block and no other. */
  lemma FreeTakesBack(h: Heap, b: nat)
    requires HeapInv(h) && b in h.live
    ensures var h' := FreeOfBlock(h, b);
            HeapInv(h') && SizesKept(h, h') && h'.live == h.live - {b} && h'.foreign == h.foreign
  {
    LiveSmall(h, b);
    var p := PageOf(b);
    var h' := FreeOfBlock(h, b);
    ArenaPagesUsed(h, p);
    if h.arenas[p].Small? {
      PutKeeps(h, b);
      FullIsIdle(h, b);
    } else {
      DropBigKeeps(h, p);
    }
    forall c | c in h.live && c in h'.live ensures Size(h', c) == Size(h, c) { LiveSmall(h, c); LiveSmall(h', c); }
  }

  /** The assertion in free: the count never passes the number of blocks, and at that number every block is free. */
  lemma FullIsIdle(h: Heap, b: nat)
    requires HeapInv(h) && b in h.live && SmallOn(h, PageOf(b))
    ensures var h', p, d := PutBlock(h, b), PageOf(b), h.descs[h.arenas[PageOf(b)].desc];
            h'.arenas[p].freeCnt <= d.blocksPerArena &&
            (if h'.arenas[p].freeCnt == d.blocksPerArena
             then Idle(h', p) && p >= h'.first && HeapInv(DropArena(h', p))
             else HeapInv(h'))
  {
    var h', p := PutBlock(h, b), PageOf(b);
    PutKeeps(h, b);
    CountAtMost(h', p);
    if h'.arenas[p].freeCnt == h.descs[h.arenas[p].desc].blocksPerArena {
      DropKeeps(h', p);
    } else {
      forall q | q in h'.arenas ensures Busy(h'.arenas[q], h'.descs) {
        assert q != p ==> Busy(h'.arenas[q], h'.descs);
      }
    }
  }

  // ---------------------------------------------------------------- free undoes malloc

  lemma TakePut(h: Heap, k: nat)
    requires Inv0(h) && k < |h.free| && h.free[k] != [] && Counted(h.arenas, PageOf(h.free[k][0]))
    ensures SmallOn(TakeBlock(h, k), PageOf(h.free[k][0])) && PutBlock(TakeBlock(h, k), h.free[k][0]) == h
  {
    FreeHead(h, k);
    var b := h.free[k][0];
    var h' := TakeBlock(h, k);
    assert [b] + h.free[k][1..] == h.free[k];
    assert h.free[k := h.free[k][1..]][k := h.free[k]] == h.free;
    assert h'.arenas[PageOf(b) := h.arenas[PageOf(b)]] == h.arenas;
    assert h.live + {b} - {b} == h.live;
  }

  lemma HasElement(q: seq<nat>)
    ensures q == [] || exists b :: b in q
  {
    if q != [] { assert q[0] in q; }
  }

  lemma WithoutAll(page: nat, d: Desc)
    requires GoodDesc(d)
    ensures Without(BlockList(page, d, d.blocksPerArena), Blocks(page, d)) == []
  {
    var q := BlockList(page, d, d.blocksPerArena);
    BlockListIs(page, d, d.blocksPerArena);
    WithoutIs(q, Blocks(page, d));
    HasElement(Without(q, Blocks(page, d)));
  }

  lemma AddDrop(h: Heap, k: nat, i: nat)
    requires HeapInv(h) && k < |h.descs| && h.free[k] == [] && Run(h.used, i, 1, false)
    ensures SmallOn(AddArena(h, k, i), h.first + i) && DropArena(AddArena(h, k, i), h.first + i) == h
  {
    var page, d, h' := h.first + i, h.descs[k], AddArena(h, k, i);
    assert page !in h.arenas by { FreshPages(h, i, 1); }
    SetThenClear(h.used, i, 1, false);
    WithoutAll(page, d);
    assert h'.free[k] == BlockList(page, d, d.blocksPerArena);
    assert h.free[k := h'.free[k]][k := []] == h.free;
    assert h'.arenas - {page} == h.arenas;
  }

  lemma BigRoundTrip(h: Heap, i: nat, n: nat)
    requires HeapInv(h) && n >= 1 && Run(h.used, i, n, false)
    ensures DropBig(AddBig(h, i, n), h.first + i) == h
  {
    AddBigKeeps(h, i, n);
    FreshPages(h, i, n);
    SetThenClear(h.used, i, n, false);
    assert AddBig(h, i, n).arenas - {h.first + i} == h.arenas;
    assert h.live + {BigAddr(h.first + i)} - {BigAddr(h.first + i)} == h.live;
  }

  lemma FreeSmallIs(h: Heap, b: nat, h': Heap)
    requires HeapInv(h) && b in h.live && SmallOn(h, PageOf(b)) && PutBlock(h, b) == h'
    ensures SmallOn(h', PageOf(b)) && PageOf(b) >= h'.first
    ensures FreeOfBlock(h, b) == if Busy(h'.arenas[PageOf(b)], h'.descs) then h' else DropArena(h', PageOf(b))
  {
    ArenaPagesUsed(h, PageOf(b));
  }

  lemma TakeRoundTrip(h: Heap, k: nat)
    requires HeapInv(h) && k < |h.free| && h.free[k] != [] && Counted(h.arenas, PageOf(h.free[k][0]))
    requires HeapInv(TakeBlock(h, k))
    ensures FreeOfBlock(TakeBlock(h, k), h.free[k][0]) == h
  {
    TakePut(h, k);
    FreeSmallIs(TakeBlock(h, k), h.free[k][0], h);
    assert Busy(h.arenas[PageOf(h.free[k][0])], h.descs);
  }

  lemma GrowReady(h: Heap, k: nat, i: nat, h': Heap, page: nat)
    requires HeapInv(h) && k < |h.descs| && h.free[k] == [] && Run(h.used, i, 1, false)
    requires h' == AddArena(h, k, i) && page == h.first + i
    ensures Inv0(h') && h'.free[k] != [] && PageOf(h'.free[k][0]) == page
    ensures SmallOn(h', page) && !Busy(h'.arenas[page], h'.descs)
  {
    NewArenaKeeps(h, k, i);
  }

  lemma GrowRoundTrip(h: Heap, k: nat, i: nat, h': Heap, h1: Heap)
    requires HeapInv(h) && k < |h.descs| && h.free[k] == [] && Run(h.used, i, 1, false) && h' == AddArena(h, k, i)
    requires h'.free[k] != [] && Inv0(h') && Counted(h'.arenas, PageOf(h'.free[k][0]))
    requires h1 == TakeBlock(h', k) && HeapInv(h1) && h'.free[k][0] in h1.live
    ensures FreeOfBlock(h1, h'.free[k][0]) == h
  {
    var b, page := h'.free[k][0], h.first + i;
    GrowReady(h, k, i, h', page);
    AddDrop(h, k, i);
    TakePut(h', k);
    FreeSmallIs(h1, b, h');
  }

  lemma SmallRoundTrip(h: Heap, k: nat)
    requires HeapInv(h) && k < |h.descs| && Gives(h, MallocSmall(h, k), h.descs[k].blockSize)
    ensures var g := MallocSmall(h, k); g.block.Some? ==> FreeOfBlock(g.h, g.block.value) == h
  {
    var i := FirstFit(h.used, 0, 1, false);
    if h.free[k] != [] {
      TakeReady(h, k);
      TakeRoundTrip(h, k);
    } else if i.Some? {
      GrowKeeps(h, k, i.value);
      var h' := AddArena(h, k, i.value);
      GrowRoundTrip(h, k, i.value, h', TakeBlock(h', k));
    }
  }

  /** Freeing a block straight away leaves no trace of it in the heap or in the page pool. */
  lemma FreeUndoesMalloc(h: Heap, size: nat)
    requires HeapInv(h)
    ensures var g := MallocOf(h, size); g.block.Some? ==>
            HeapInv(g.h) && g.block.value in g.h.live && FreeOfBlock(g.h, g.block.value) == h
  {
    var k := FindDesc(h.descs, size, 0);
    if size == 0 {
    } else if k == |h.descs| {
      BigUndone(h, size);
    } else {
      SmallGives(h, k);
      SmallRoundTrip(h, k);
    }
  }

  lemma BigUndone(h: Heap, size: nat)
    requires HeapInv(h)
    ensures var g := MallocBig(h, size); g.block.Some? ==>
            HeapInv(g.h) && g.block.value in g.h.live && FreeOfBlock(g.h, g.block.value) == h
  {
    var i := FirstFit(h.used, 0, BigPages(size), false);
    if i.Some? {
      BigGives(h, size);
      BigAddrPage(h.first + i.value);
      EnoughPages(size);
      BigRoundTrip(h, i.value, BigPages(size));
    }
  }

  // ---------------------------------------------------------------- other clients

  lemma GetKeeps(h: Heap, n: nat)
    requires HeapInv(h)
    ensures HeapInv(GetPages(h, n)) && GetPages(h, n).foreign >= h.foreign && GetPages(h, n).live == h.live
  {
    var i := FirstFit(h.used, 0, n, false);
    if n != 0 && i.Some? {
      var h' := GetPages(h, n);
      FreshPages(h, i.value, n);
      UsedAfter(h, h', i.value, n, true);
      assert PagesUsed(h');
    }
  }

  lemma PutKeepsPages(h: Heap, x: nat, n: nat)
    requires HeapInv(h) && h.first <= x && PageRange(x, n) <= h.foreign && x + n <= h.first + |h.used|
    ensures HeapInv(PutPages(h, x, n)) && Run(h.used, x - h.first, n, true)
  {
    var h' := PutPages(h, x, n);
    forall j | x - h.first <= j < x - h.first + n ensures h.used[j] { assert h.first + j in h.foreign; }
    UsedAfter(h, h', x - h.first, n, false);
    assert PagesUsed(h');
  }

  // ---------------------------------------------------------------- runs

  datatype Event =
    | Malloc(size: nat) | Free(block: nat) | Realloc(oldBlock: Option<nat>, newSize: nat)
    | Get(cnt: nat) | Put(page: nat, cnt: nat)

  ghost predicate Allowed(h: Heap, e: Event)
  {
    match e
    case Free(b) => b in h.live
    case Realloc(b, _) => b.Some? ==> b.value in h.live
    case Put(x, n) => h.first <= x && x + n <= h.first + |h.used| && PageRange(x, n) <= h.foreign
    case _ => true
  }

  function ReallocOf(h: Heap, b: Option<nat>, size: nat): (g: Got)
    requires HeapInv(h) && (b.Some? ==> b.value in h.live)
    ensures SamePlace(h, g.h)
  {
    if size == 0 then Got(if b.Some? then FreeOfBlock(h, b.value) else h, None)
    else
      MallocGives(h, size);
      var g := MallocOf(h, size);
      if b.Some? && g.block.Some? then Got(FreeOfBlock(g.h, b.value), g.block) else g
  }

  function Next(h: Heap, e: Event): (h': Heap)
    requires HeapInv(h) && Allowed(h, e)
    ensures SamePlace(h, h')
  {
    match e
    case Malloc(n) => MallocOf(h, n).h
    case Free(b) => FreeOfBlock(h, b)
    case Realloc(b, n) => ReallocOf(h, b, n).h
    case Get(n) => GetPages(h, n)
    case Put(x, n) => PutPages(h, x, n)
  }

  /** A successful realloc trades the old block for a new one; a failed one keeps the old block. */
  lemma ReallocTrades(h: Heap, b: Option<nat>, size: nat)
    requires HeapInv(h) && (b.Some? ==> b.value in h.live)
    ensures var g := ReallocOf(h, b, size);
            var gone := if b.Some? then {b.value} else {};
            HeapInv(g.h) && SizesKept(h, g.h) &&
            match g.block
            case None => if size == 0 then g.h.live == h.live - gone else g.h == h
            case Some(c) => c !in h.live && g.h.live == h.live - gone + {c} && Size(g.h, c) >= size
  {
    if size == 0 {
      if b.Some? { FreeTakesBack(h, b.value); }
    } else {
      MallocGives(h, size);
      var g := MallocOf(h, size);
      if b.Some? && g.block.Some? { FreeTakesBack(g.h, b.value); }
    }
  }

  /** realloc fails exactly when malloc would, apart from a size of zero, for which it frees and returns null. */
  lemma ReallocFails(h: Heap, b: Option<nat>, size: nat)
    requires HeapInv(h) && (b.Some? ==> b.value in h.live)
    ensures ReallocOf(h, b, size).block.None? <==> size == 0 || MallocOf(h, size).block.None?
    ensures size > 0 ==> ReallocOf(h, b, size).block == MallocOf(h, size).block
  {
    if size > 0 { MallocGives(h, size); }
  }

  /** What the events leave in use: what they hand out is added, what is given back is taken out, and nothing else. */
  lemma EventMeans(h: Heap, e: Event)
    requires HeapInv(h) && Allowed(h, e)
    ensures e.Malloc? ==> var b := MallocOf(h, e.size).block;
                          Next(h, e).live == h.live + (if b.Some? then {b.value} else {})
    ensures e.Free? ==> Next(h, e).live == h.live - {e.block}
    ensures e.Realloc? ==> var b := ReallocOf(h, e.oldBlock, e.newSize).block;
                           var frees := e.oldBlock.Some? && (b.Some? || e.newSize == 0);
                           var gone := if frees then {e.oldBlock.value} else {};
                           Next(h, e).live == h.live - gone + (if b.Some? then {b.value} else {})
    ensures e.Get? || e.Put? ==> Next(h, e).live == h.live && Next(h, e).arenas == h.arenas && Next(h, e).free == h.free
  {
    match e
    case Malloc(n) => MallocGives(h, n);
    case Free(b) => FreeTakesBack(h, b);
    case Realloc(b, n) => ReallocTrades(h, b, n);
    case Get(n) =>
    case Put(x, n) =>
  }

  lemma NextKeeps(h: Heap, e: Event)
    requires HeapInv(h) && Allowed(h, e)
    ensures HeapInv(Next(h, e))
  {
    match e
    case Malloc(n) => MallocGives(h, n);
    case Free(b) => FreeTakesBack(h, b);
    case Realloc(b, n) => ReallocTrades(h, b, n);
    case Get(n) => GetKeeps(h, n);
    case Put(x, n) => PutKeepsPages(h, x, n);
  }

  /** Every event of the run is allowed where it happens. */
  ghost predicate CanRun(h: Heap, es: seq<Event>)
    requires HeapInv(h)
    decreases |es|
  {
    es == [] || (Allowed(h, es[0]) && (NextKeeps(h, es[0]); CanRun(Next(h, es[0]), es[1..])))
  }

  ghost function Exec(h: Heap, es: seq<Event>): (h': Heap)
    requires HeapInv(h) && CanRun(h, es)
    ensures HeapInv(h') && SamePlace(h, h')
    decreases |es|
  {
    if es == [] then h else NextKeeps(h, es[0]); Exec(Next(h, es[0]), es[1..])
  }

  /** After malloc_init and palloc_init: nothing handed out. */
  ghost predicate Fresh(h: Heap)
  {
    && TableOk(h) && h.arenas == map[] && h.live == {} && h.foreign == {}
    && (forall k :: 0 <= k < |h.free| ==> h.free[k] == [])
    && (forall i :: 0 <= i < |h.used| ==> !h.used[i])
  }

  lemma FreshOk(h: Heap)
    requires Fresh(h)
    ensures HeapInv(h)
  {
    assert forall x: nat :: !Used(h, x);
  }

  // ---------------------------------------------------------------- what the invariant means

  /** No arena survives its last block. */
  lemma ArenaHasLive(h: Heap, p: nat)
    requires HeapInv(h) && p in h.arenas
    ensures exists b :: b in h.live && PageOf(b) == p
  {
    var a := h.arenas[p];
    assert ArenaOk(a, h.descs, h.free, h.live, p);
    match a
    case Big(n) => BigAddrPage(p);
    case Small(k, c) =>
      var d := h.descs[k];
      BlocksAre(p, d, d.blocksPerArena);
      CountAtMost(h, p);
      assert Busy(a, h.descs);
      var rest := Blocks(p, d) - FreeOf(h.free[k], p);
      assert FreeOf(h.free[k], p) + rest == Blocks(p, d);
      var b :| b in rest;
      assert b in h.live && PageOf(b) == p;
  }

  lemma NothingLive(h: Heap)
    requires HeapInv(h) && h.live == {}
    ensures h.arenas == map[] && (forall x: nat :: Used(h, x) <==> x in h.foreign)
    ensures forall k :: 0 <= k < |h.free| ==> h.free[k] == []
  {
    forall p | p in h.arenas ensures false { ArenaHasLive(h, p); }
    assert h.arenas == map[];
    forall k | 0 <= k < |h.free| ensures h.free[k] == [] {
      assert h.free[k] != [] ==> h.free[k][0] in h.free[k] && IsBlock(h.arenas, h.descs, h.free[k][0], k);
    }
    assert forall p: nat, x: nat :: !InArena(h.arenas, p, x);
  }

  /** However malloc, realloc, free and page requests are mixed, once every block has been freed and every
      page returned the allocator and the page pool are back exactly where they started. */
  lemma {:induction false} AllReturned(h: Heap, es: seq<Event>)
    requires Fresh(h) && HeapInv(h) && CanRun(h, es) && Exec(h, es).live == {} && Exec(h, es).foreign == {}
    ensures Exec(h, es) == h
  {
    var h' := Exec(h, es);
    NothingLive(h');
    forall i: nat | i < |h'.used| ensures !h'.used[i] { assert !Used(h', h'.first + i); }
    assert h'.used == h.used && h'.free == h.free;
  }

  // ---------------------------------------------------------------- disjointness

  /** What the bytes of the pool are used for. */
  datatype Use = Header | Live | Unused(k: nat)

  ghost predicate Piece(h: Heap, u: Use, a: nat, n: int)
    requires HeapInv(h)
  {
    match u
    case Header => OfsOf(a) == 0 && PageOf(a) in h.arenas && n == HEADER
    case Live => a in h.live && n == Size(h, a)
    case Unused(k) => k < |h.free| && a in h.free[k] && n == h.descs[k].blockSize
  }

  /** Every piece lies in the pages of the arena its first byte is on. */
  lemma PieceInArena(h: Heap, u: Use, a: nat, n: int)
    requires HeapInv(h) && Piece(h, u, a, n)
    ensures PageOf(a) in h.arenas && n >= 0 && a + n <= (PageOf(a) + PagesOf(h.arenas[PageOf(a)])) * PGSIZE
    ensures u.Header? <==> OfsOf(a) == 0
    ensures !u.Header? ==> OfsOf(a) >= HEADER
  {
    ArenasNonempty(h);
    match u
    case Header =>
    case Live => LiveSmall(h, a); if h.arenas[PageOf(a)].Small? { SmallFits(h, a, h.arenas[PageOf(a)].desc); }
    case Unused(k) => assert IsBlock(h.arenas, h.descs, a, k); SmallFits(h, a, k);
  }

  lemma ArenasNonempty(h: Heap)
    requires PagesOk(h)
    ensures forall p :: p in h.arenas ==> PagesOf(h.arenas[p]) >= 1
  {
  }

  lemma ArenasInOrder(h: Heap, p: nat, q: nat)
    requires PagesOk(h) && p in h.arenas && q in h.arenas && p < q
    ensures p + PagesOf(h.arenas[p]) <= q
  {
    assert InArena(h.arenas, q, q);
    assert !InArena(h.arenas, p, q);
  }

  /** Two blocks of one arena, in use or not, are the same block or do not overlap. */
  lemma BlocksOfArenaApart(h: Heap, k: nat, a: nat, b: nat)
    requires TableOk(h) && IsBlock(h.arenas, h.descs, a, k)
    requires IsBlock(h.arenas, h.descs, b, k) && PageOf(a) == PageOf(b) && a < b
    ensures a + h.descs[k].blockSize <= b
  {
    var d, p := h.descs[k], PageOf(a);
    var i := BlockIndex(p, d, a);
    var j := BlockIndex(p, d, b);
    if i < j { BlocksApart(p, d, i, j); } else if j < i { BlocksApart(p, d, j, i); }
  }

  lemma PieceBlock(h: Heap, u: Use, a: nat, n: int)
    requires HeapInv(h) && Piece(h, u, a, n) && !u.Header? && PageOf(a) in h.arenas
    ensures match h.arenas[PageOf(a)]
            case Small(k, c) => IsBlock(h.arenas, h.descs, a, k) && n == h.descs[k].blockSize &&
              u == (if a in h.free[k] then Unused(k) else Live)
            case Big(_) => a == BigAddr(PageOf(a)) && u == Live
  {
    if u.Live? { LiveSmall(h, a); } else { assert IsBlock(h.arenas, h.descs, a, u.k); }
  }

  /** Blocks in use, free blocks and arena headers never share a byte. */
  lemma PiecesApart(h: Heap, u: Use, a: nat, n: int, v: Use, b: nat, m: int)
    requires HeapInv(h) && Piece(h, u, a, n) && Piece(h, v, b, m) && a <= b && (u, a) != (v, b)
    ensures a + n <= b
  {
    PieceInArena(h, u, a, n);
    PieceInArena(h, v, b, m);
    if PageOf(a) != PageOf(b) {
      DivIsMono(a, b, PGSIZE);
      ArenasInOrder(h, PageOf(a), PageOf(b));
    } else if !u.Header? && !v.Header? {
      PieceBlock(h, u, a, n);
      PieceBlock(h, v, b, m);
      if h.arenas[PageOf(a)].Small? && a < b { BlocksOfArenaApart(h, h.arenas[PageOf(a)].desc, a, b); }
    }
  }

  /** No piece reaches into a page that is unused or that another client has. */
  lemma PiecesOnOwnPages(h: Heap, u: Use, a: nat, n: int, x: nat)
    requires HeapInv(h) && Piece(h, u, a, n) && a <= x < a + n
    ensures Used(h, PageOf(x)) && PageOf(x) !in h.foreign
  {
    PieceInArena(h, u, a, n);
    DivIsMono(a, x, PGSIZE);
    DivBounds(x, PGSIZE);
    assert InArena(h.arenas, PageOf(a), PageOf(x));
  }
}
