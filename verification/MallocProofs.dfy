/** Every step of the allocator keeps its invariant. */
module MallocProofs {
  import opened Common
  import opened FreeMap
  import opened Malloc

  // ---------------------------------------------------------------- pages

  lemma UsedAfter(h: Heap, h': Heap, i: nat, n: nat, v: bool)
    requires h'.used == SetRun(h.used, i, n, v) && h'.first == h.first && i + n <= |h.used|
    ensures forall x: nat :: Used(h', x) <==> if h.first + i <= x < h.first + i + n then v else Used(h, x)
  {
  }

  /** Pages the pool hands out belong to no arena and no other client. */
  lemma FreshPages(h: Heap, i: nat, n: nat)
    requires PagesOk(h) && Run(h.used, i, n, false) && n >= 1
    ensures forall x: nat :: h.first + i <= x < h.first + i + n ==> x !in h.foreign
    ensures forall p: nat, x: nat :: InArena(h.arenas, p, x) ==> x < h.first + i || h.first + i + n <= x
    ensures h.first + i !in h.arenas
  {
    assert forall x: nat :: h.first + i <= x < h.first + i + n ==> !Used(h, x);
    assert h.first + i in h.arenas ==> InArena(h.arenas, h.first + i, h.first + i);
  }

  lemma ArenaAdded(arenas: map<nat, Arena>, page: nat, a: Arena, arenas': map<nat, Arena>)
    requires arenas' == arenas[page := a]
    ensures forall p: nat, x: nat :: p != page ==> (InArena(arenas', p, x) <==> InArena(arenas, p, x))
    ensures forall x: nat :: InArena(arenas', page, x) <==> page <= x < page + PagesOf(a)
  {
  }

  lemma AddPages(h: Heap, i: nat, a: Arena, h': Heap)
    requires PagesOk(h) && Run(h.used, i, PagesOf(a), false) && PagesOf(a) >= 1
    requires h'.used == SetRun(h.used, i, PagesOf(a), true) && h'.arenas == h.arenas[h.first + i := a]
    requires h'.first == h.first && h'.foreign == h.foreign
    ensures PagesOk(h')
  {
    var page := h.first + i;
    FreshPages(h, i, PagesOf(a));
    ArenaAdded(h.arenas, page, a, h'.arenas);
    UsedAfter(h, h', i, PagesOf(a), true);
    forall x: nat | Used(h', x) && x !in h'.foreign ensures Owned(h'.arenas, x) {
      if page <= x < page + PagesOf(a) {
        assert InArena(h'.arenas, page, x);
      } else {
        var p :| InArena(h.arenas, p, x);
        assert InArena(h'.arenas, p, x);
      }
    }
  }

  /** The assertion in palloc_free_multiple: the pages of an arena are all marked used. */
  lemma ArenaPagesUsed(h: Heap, p: nat)
    requires PagesOk(h) && p in h.arenas
    ensures h.first <= p && Run(h.used, p - h.first, PagesOf(h.arenas[p]), true)
  {
    var n := PagesOf(h.arenas[p]);
    assert InArena(h.arenas, p, p) && InArena(h.arenas, p, p + n - 1);
    assert Used(h, p) && Used(h, p + n - 1);
    forall j | p - h.first <= j < p - h.first + n ensures h.used[j] {
      assert InArena(h.arenas, p, h.first + j);
    }
  }

  lemma ArenaDropped(arenas: map<nat, Arena>, page: nat, arenas': map<nat, Arena>)
    requires arenas' == arenas - {page}
    ensures forall p: nat, x: nat :: InArena(arenas', p, x) <==> p != page && InArena(arenas, p, x)
  {
  }

  lemma DropPages(h: Heap, page: nat, h': Heap)
    requires PagesOk(h) && page in h.arenas && h'.arenas == h.arenas - {page} && h.first <= page
    requires h'.used == SetRun(h.used, page - h.first, PagesOf(h.arenas[page]), false)
    requires h'.first == h.first && h'.foreign == h.foreign
    ensures PagesOk(h')
  {
    ArenaPagesUsed(h, page);
    ArenaDropped(h.arenas, page, h'.arenas);
    UsedAfter(h, h', page - h.first, PagesOf(h.arenas[page]), false);
    forall p: nat, x: nat | InArena(h'.arenas, p, x) ensures Used(h', x) && x !in h'.foreign {
      assert !InArena(h.arenas, page, x);
    }
    forall x: nat | x in h'.foreign ensures Used(h', x) {
      assert !InArena(h.arenas, page, x);
    }
    forall x: nat | Used(h', x) && x !in h'.foreign ensures Owned(h'.arenas, x) {
      var p :| InArena(h.arenas, p, x);
      assert InArena(h'.arenas, p, x);
    }
  }

  /** Only the count of one small arena changed. */
  ghost predicate CountChanged(arenas: map<nat, Arena>, p: nat, arenas': map<nat, Arena>)
  {
    p in arenas && arenas[p].Small? && p in arenas' && arenas'[p].Small? && arenas'[p].desc == arenas[p].desc
    && arenas' == arenas[p := arenas'[p]]
  }

  lemma CountKeepsPages(h: Heap, p: nat, h': Heap)
    requires PagesOk(h) && CountChanged(h.arenas, p, h'.arenas)
    requires h'.used == h.used && h'.first == h.first && h'.foreign == h.foreign
    ensures PagesOk(h')
  {
    assert forall q: nat, x: nat :: InArena(h'.arenas, q, x) <==> InArena(h.arenas, q, x);
    forall x: nat | Used(h', x) && x !in h'.foreign ensures Owned(h'.arenas, x) {
      assert Used(h, x);
      var q :| InArena(h.arenas, q, x);
      assert InArena(h'.arenas, q, x);
    }
  }

  // ---------------------------------------------------------------- taking a block

  lemma FreeHead(h: Heap, k: nat)
    requires Inv0(h) && k < |h.free| && h.free[k] != []
    ensures var b := h.free[k][0]; IsBlock(h.arenas, h.descs, b, k) && b !in h.free[k][1..] && b !in h.live
    ensures forall c :: c in h.free[k] <==> c == h.free[k][0] || c in h.free[k][1..]
    ensures Counted(h.arenas, PageOf(h.free[k][0]))
  {
    var b := h.free[k][0];
    assert h.free[k] == [b] + h.free[k][1..];
    assert b in h.free[k];
    assert b in h.live ==> LiveBlock(h.arenas, h.descs, h.free, b);
    assert ArenaOk(h.arenas[PageOf(b)], h.descs, h.free, h.live, PageOf(b));
    assert b in FreeOf(h.free[k], PageOf(b));
  }

  lemma FreeOfTail(q: seq<nat>, p: nat)
    requires q != [] && q[0] !in q[1..]
    ensures FreeOf(q[1..], p) == FreeOf(q, p) - {q[0]}
    ensures PageOf(q[0]) == p ==> |FreeOf(q[1..], p)| == |FreeOf(q, p)| - 1
    ensures PageOf(q[0]) != p ==> FreeOf(q[1..], p) == FreeOf(q, p)
  {
    assert q == [q[0]] + q[1..];
  }

  lemma TakeFreeOk(h: Heap, k: nat, h': Heap)
    requires Inv0(h) && k < |h.free| && h.free[k] != []
    requires Counted(h.arenas, PageOf(h.free[k][0])) && h' == TakeBlock(h, k)
    ensures FreeOk(h')
  {
    FreeHead(h, k);
    forall j, c | 0 <= j < |h'.free| && c in h'.free[j] ensures IsBlock(h'.arenas, h'.descs, c, j) {
      assert IsBlock(h.arenas, h.descs, c, j);
    }
    forall j | 0 <= j < |h'.free| ensures NoDup(h'.free[j]) { assert NoDup(h.free[j]); }
  }

  lemma TakeLiveOk(h: Heap, k: nat, h': Heap)
    requires Inv0(h) && k < |h.free| && h.free[k] != []
    requires Counted(h.arenas, PageOf(h.free[k][0])) && h' == TakeBlock(h, k)
    ensures LiveOk(h')
  {
    FreeHead(h, k);
    forall c | c in h'.live ensures LiveBlock(h'.arenas, h'.descs, h'.free, c) {
      if c != h.free[k][0] { assert LiveBlock(h.arenas, h.descs, h.free, c); }
    }
  }

  lemma TakeArenasOk(h: Heap, k: nat, h': Heap)
    requires Inv0(h) && k < |h.free| && h.free[k] != []
    requires Counted(h.arenas, PageOf(h.free[k][0])) && h' == TakeBlock(h, k)
    ensures ArenasOk(h')
  {
    FreeHead(h, k);
    forall p | p in h'.arenas ensures ArenaOk(h'.arenas[p], h'.descs, h'.free, h'.live, p) {
      assert ArenaOk(h.arenas[p], h.descs, h.free, h.live, p);
      FreeOfTail(h.free[k], p);
    }
  }

  lemma CountAtMost(h: Heap, p: nat)
    requires Inv0(h) && p in h.arenas && h.arenas[p].Small?
    ensures var a := h.arenas[p]; a.freeCnt <= h.descs[a.desc].blocksPerArena
    ensures var a := h.arenas[p]; FreeOf(h.free[a.desc], p) <= Blocks(p, h.descs[a.desc])
    ensures var a := h.arenas[p]; a.freeCnt == h.descs[a.desc].blocksPerArena ==>
            FreeOf(h.free[a.desc], p) == Blocks(p, h.descs[a.desc])
  {
    var k := h.arenas[p].desc;
    assert ArenaOk(h.arenas[p], h.descs, h.free, h.live, p);
    BlocksAre(p, h.descs[k], h.descs[k].blocksPerArena);
    forall b | b in FreeOf(h.free[k], p) ensures b in Blocks(p, h.descs[k]) { assert IsBlock(h.arenas, h.descs, b, k); }
    SubsetSize(FreeOf(h.free[k], p), Blocks(p, h.descs[k]));
  }

  lemma TakeKeeps(h: Heap, k: nat)
    requires Inv0(h) && k < |h.free| && h.free[k] != [] && NoneIdle(h, Some(PageOf(h.free[k][0])))
    ensures Counted(h.arenas, PageOf(h.free[k][0])) && HeapInv(TakeBlock(h, k))
    ensures h.free[k][0] !in h.live && IsBlock(h.arenas, h.descs, h.free[k][0], k)
  {
    FreeHead(h, k);
    var p := PageOf(h.free[k][0]);
    var h' := TakeBlock(h, k);
    CountKeepsPages(h, p, h');
    TakeFreeOk(h, k, h');
    TakeLiveOk(h, k, h');
    TakeArenasOk(h, k, h');
    CountAtMost(h, p);
    forall q | q in h'.arenas ensures Busy(h'.arenas[q], h'.descs) {
      if q != p { assert Busy(h.arenas[q], h.descs); }
    }
  }

  // ---------------------------------------------------------------- a new arena

  /** An arena of descriptor k with all its blocks free on an empty free list, on a page of its own. */
  ghost predicate NewArena(h: Heap, k: nat, page: nat, h': Heap)
  {
    && TableOk(h) && k < |h.descs| && h.free[k] == [] && page !in h.arenas
    && h'.descs == h.descs && h'.live == h.live && h'.arenas == h.arenas[page := Small(k, h.descs[k].blocksPerArena)]
    && h'.free == h.free[k := BlockList(page, h.descs[k], h.descs[k].blocksPerArena)]
  }

  lemma NewArenaFree(h: Heap, k: nat, page: nat, h': Heap)
    requires FreeOk(h) && NewArena(h, k, page, h')
    ensures FreeOk(h')
  {
    var d := h.descs[k];
    BlockListIs(page, d, d.blocksPerArena);
    BlocksAre(page, d, d.blocksPerArena);
    forall j, c | 0 <= j < |h'.free| && c in h'.free[j] ensures IsBlock(h'.arenas, h'.descs, c, j) {
      if j != k { assert IsBlock(h.arenas, h.descs, c, j); }
    }
    forall j | 0 <= j < |h'.free| ensures NoDup(h'.free[j]) { assert NoDup(h.free[j]); }
  }

  lemma NewArenaLive(h: Heap, k: nat, page: nat, h': Heap)
    requires LiveOk(h) && NewArena(h, k, page, h')
    ensures LiveOk(h')
  {
    var d := h.descs[k];
    BlockListIs(page, d, d.blocksPerArena);
    BlocksAre(page, d, d.blocksPerArena);
    forall c | c in h'.live ensures LiveBlock(h'.arenas, h'.descs, h'.free, c) {
      assert LiveBlock(h.arenas, h.descs, h.free, c);
    }
  }

  lemma FreeOfList(page: nat, d: Desc, p: nat)
    requires GoodDesc(d)
    ensures p == page ==> |FreeOf(BlockList(page, d, d.blocksPerArena), p)| == d.blocksPerArena
    ensures p != page ==> FreeOf(BlockList(page, d, d.blocksPerArena), p) == {}
  {
    BlockListIs(page, d, d.blocksPerArena);
    BlocksAre(page, d, d.blocksPerArena);
    if p == page { assert FreeOf(BlockList(page, d, d.blocksPerArena), p) == Blocks(page, d); }
  }

  lemma NewArenaArenas(h: Heap, k: nat, page: nat, h': Heap)
    requires ArenasOk(h) && NewArena(h, k, page, h')
    ensures ArenasOk(h')
  {
    var d := h.descs[k];
    BlockListIs(page, d, d.blocksPerArena);
    forall p | p in h'.arenas ensures ArenaOk(h'.arenas[p], h'.descs, h'.free, h'.live, p) {
      FreeOfList(page, d, p);
      if p != page {
        assert ArenaOk(h.arenas[p], h.descs, h.free, h.live, p);
        assert FreeOf([], p) == {};
      }
    }
  }

  lemma NewArenaKeeps(h: Heap, k: nat, i: nat)
    requires HeapInv(h) && k < |h.descs| && h.free[k] == [] && Run(h.used, i, 1, false)
    ensures var h' := AddArena(h, k, i);
            Inv0(h') && h'.free[k] != [] && PageOf(h'.free[k][0]) == h.first + i && NoneIdle(h', Some(h.first + i))
  {
    var page, d, h' := h.first + i, h.descs[k], AddArena(h, k, i);
    FreshPages(h, i, 1);
    AddPages(h, i, Small(k, d.blocksPerArena), h');
    assert h'.free[k] == BlockList(page, d, d.blocksPerArena);
    assert NewArena(h, k, page, h');
    NewArenaFree(h, k, page, h');
    NewArenaLive(h, k, page, h');
    NewArenaArenas(h, k, page, h');
    BlockListIs(page, d, d.blocksPerArena);
    BlocksAre(page, d, d.blocksPerArena);
    assert h'.free[k][0] in h'.free[k];
    forall q | q in h'.arenas && q != page ensures Busy(h'.arenas[q], h'.descs) { assert Busy(h.arenas[q], h.descs); }
  }

  // ---------------------------------------------------------------- a big block

  lemma BigAddrPage(page: nat)
    ensures PageOf(BigAddr(page)) == page && OfsOf(BigAddr(page)) == HEADER
  {
    DivIs(page * PGSIZE + HEADER, PGSIZE, page);
  }

  lemma AddBigKeeps(h: Heap, i: nat, n: nat)
    requires HeapInv(h) && n >= 1 && Run(h.used, i, n, false)
    ensures HeapInv(AddBig(h, i, n)) && BigAddr(h.first + i) !in h.live
  {
    var page, h' := h.first + i, AddBig(h, i, n);
    FreshPages(h, i, n);
    BigAddrPage(page);
    AddPages(h, i, Big(n), h');
    assert BigAddr(page) in h.live ==> LiveBlock(h.arenas, h.descs, h.free, BigAddr(page));
    forall k, c | 0 <= k < |h'.free| && c in h'.free[k] ensures IsBlock(h'.arenas, h'.descs, c, k) {
      assert IsBlock(h.arenas, h.descs, c, k);
    }
    forall c | c in h'.live ensures LiveBlock(h'.arenas, h'.descs, h'.free, c) {
      if c != BigAddr(page) { assert LiveBlock(h.arenas, h.descs, h.free, c); }
    }
    forall p | p in h'.arenas ensures ArenaOk(h'.arenas[p], h'.descs, h'.free, h'.live, p) {
      if p != page { assert ArenaOk(h.arenas[p], h.descs, h.free, h.live, p); }
    }
    forall q | q in h'.arenas ensures Busy(h'.arenas[q], h'.descs) {
      if q != page { assert Busy(h.arenas[q], h.descs); }
    }
  }

  lemma DropBigKeeps(h: Heap, page: nat)
    requires HeapInv(h) && page in h.arenas && h.arenas[page].Big? && page >= h.first
    ensures HeapInv(DropBig(h, page))
  {
    var h' := DropBig(h, page);
    BigAddrPage(page);
    DropPages(h, page, h');
    forall k, c | 0 <= k < |h'.free| && c in h'.free[k] ensures IsBlock(h'.arenas, h'.descs, c, k) {
      assert IsBlock(h.arenas, h.descs, c, k);
    }
    forall c | c in h'.live ensures LiveBlock(h'.arenas, h'.descs, h'.free, c) {
      assert LiveBlock(h.arenas, h.descs, h.free, c);
    }
    forall p | p in h'.arenas ensures ArenaOk(h'.arenas[p], h'.descs, h'.free, h'.live, p) {
      assert ArenaOk(h.arenas[p], h.descs, h.free, h.live, p);
      if h.arenas[p].Small? { OtherBlocks(h, p, page); } else { BigAddrPage(p); }
    }
    forall q | q in h'.arenas ensures Busy(h'.arenas[q], h'.descs) { assert Busy(h.arenas[q], h.descs); }
  }

  lemma OtherBlocks(h: Heap, p: nat, page: nat)
    requires TableOk(h) && p in h.arenas && h.arenas[p].Small? && p != page
    ensures BigAddr(page) !in Blocks(p, h.descs[h.arenas[p].desc])
  {
    BigAddrPage(page);
    BlocksAre(p, h.descs[h.arenas[p].desc], h.descs[h.arenas[p].desc].blocksPerArena);
  }

  // ---------------------------------------------------------------- giving a block back

  /** free's argument is a block handed out earlier. */
  lemma LiveSmall(h: Heap, b: nat)
    requires Inv0(h) && b in h.live
    ensures PageOf(b) in h.arenas
    ensures h.arenas[PageOf(b)].Small? ==>
      SmallOn(h, PageOf(b)) && IsBlock(h.arenas, h.descs, b, h.arenas[PageOf(b)].desc) &&
        b !in h.free[h.arenas[PageOf(b)].desc]
    ensures h.arenas[PageOf(b)].Big? ==> b == BigAddr(PageOf(b))
  {
    assert LiveBlock(h.arenas, h.descs, h.free, b);
  }

  lemma PutFreeOk(h: Heap, b: nat, h': Heap)
    requires Inv0(h) && b in h.live && SmallOn(h, PageOf(b)) && h' == PutBlock(h, b)
    ensures FreeOk(h')
  {
    LiveSmall(h, b);
    forall j, c | 0 <= j < |h'.free| && c in h'.free[j] ensures IsBlock(h'.arenas, h'.descs, c, j) {
      assert c != b ==> IsBlock(h.arenas, h.descs, c, j);
    }
    forall j | 0 <= j < |h'.free| ensures NoDup(h'.free[j]) { assert NoDup(h.free[j]); }
  }

  lemma PutLiveOk(h: Heap, b: nat, h': Heap)
    requires Inv0(h) && b in h.live && SmallOn(h, PageOf(b)) && h' == PutBlock(h, b)
    ensures LiveOk(h')
  {
    forall c | c in h'.live ensures LiveBlock(h'.arenas, h'.descs, h'.free, c) {
      assert LiveBlock(h.arenas, h.descs, h.free, c);
    }
  }

  lemma FreeOfPush(q: seq<nat>, b: nat, p: nat)
    requires b !in q
    ensures PageOf(b) == p ==> |FreeOf([b] + q, p)| == |FreeOf(q, p)| + 1
    ensures PageOf(b) != p ==> FreeOf([b] + q, p) == FreeOf(q, p)
  {
    assert forall c :: c in [b] + q <==> c == b || c in q;
    if PageOf(b) == p { assert FreeOf([b] + q, p) == FreeOf(q, p) + {b}; }
  }

  lemma PutArenaOk(a: Arena, descs: seq<Desc>, free: seq<seq<nat>>, live: set<nat>, p: nat, k: nat, b: nat, a': Arena)
    requires ArenaOk(a, descs, free, live, p) && k < |free| && b !in free[k]
    requires if PageOf(b) == p then a.Small? && a.desc == k && a' == a.(freeCnt := a.freeCnt + 1) else a' == a
    requires a.Big? ==> BigAddr(p) != b
    requires a.Small? && a.desc != k ==> a.desc < |descs| && b !in Blocks(p, descs[a.desc])
    ensures ArenaOk(a', descs, free[k := [b] + free[k]], live - {b}, p)
  {
    if a.Small? && a.desc == k {
      FreeOfPush(free[k], b, p);
      forall c | c in Blocks(p, descs[k]) ensures c in live - {b} || c in [b] + free[k] {
        assert c != b && c in free[k] ==> c in [b] + free[k];
        assert ([b] + free[k])[0] == b;
      }
    }
  }

  lemma PutApart(h: Heap, b: nat, p: nat)
    requires Inv0(h) && b in h.live && SmallOn(h, PageOf(b)) && p in h.arenas
    ensures ArenaOk(h.arenas[p], h.descs, h.free, h.live, p)
    ensures h.arenas[p].Big? ==> BigAddr(p) != b
    ensures h.arenas[p].Small? && p != PageOf(b) ==> b !in Blocks(p, h.descs[h.arenas[p].desc])
  {
    BigAddrPage(p);
    if h.arenas[p].Small? { BlocksAre(p, h.descs[h.arenas[p].desc], h.descs[h.arenas[p].desc].blocksPerArena); }
  }

  lemma PutKeeps(h: Heap, b: nat)
    requires HeapInv(h) && b in h.live && SmallOn(h, PageOf(b))
    ensures Inv0(PutBlock(h, b)) && NoneIdle(PutBlock(h, b), Some(PageOf(b)))
  {
    var h' := PutBlock(h, b);
    CountKeepsPages(h, PageOf(b), h');
    PutFreeOk(h, b, h');
    PutLiveOk(h, b, h');
    LiveSmall(h, b);
    forall p | p in h'.arenas ensures ArenaOk(h'.arenas[p], h'.descs, h'.free, h'.live, p) {
      PutApart(h, b, p);
      PutArenaOk(h.arenas[p], h.descs, h.free, h.live, p, h.arenas[PageOf(b)].desc, b, h'.arenas[p]);
    }
    forall q | q in h'.arenas && q != PageOf(b) ensures Busy(h'.arenas[q], h'.descs) {
      assert Busy(h.arenas[q], h.descs);
    }
  }

  // ---------------------------------------------------------------- returning an arena

  /** All blocks of the arena are free. */
  ghost predicate Idle(h: Heap, page: nat)
  {
    SmallOn(h, page) && FreeOf(h.free[h.arenas[page].desc], page) == Blocks(page, h.descs[h.arenas[page].desc])
  }

  lemma DropFreeOk(h: Heap, page: nat, h': Heap)
    requires Inv0(h) && Idle(h, page) && page >= h.first && h' == DropArena(h, page)
    ensures FreeOk(h')
  {
    var k := h.arenas[page].desc;
    WithoutIs(h.free[k], Blocks(page, h.descs[k]));
    forall j, c | 0 <= j < |h'.free| && c in h'.free[j] ensures IsBlock(h'.arenas, h'.descs, c, j) {
      assert c in h.free[j] && IsBlock(h.arenas, h.descs, c, j);
    }
    forall j | 0 <= j < |h'.free| ensures NoDup(h'.free[j]) { assert NoDup(h.free[j]); }
  }

  lemma DropLiveOk(h: Heap, page: nat, h': Heap)
    requires Inv0(h) && Idle(h, page) && page >= h.first && h' == DropArena(h, page)
    ensures LiveOk(h')
  {
    var k := h.arenas[page].desc;
    WithoutIs(h.free[k], Blocks(page, h.descs[k]));
    forall c | c in h'.live ensures LiveBlock(h'.arenas, h'.descs, h'.free, c) {
      assert LiveBlock(h.arenas, h.descs, h.free, c);
      assert c !in FreeOf(h.free[k], page);
    }
  }

  lemma DropArenasOk(h: Heap, page: nat, h': Heap)
    requires Inv0(h) && Idle(h, page) && page >= h.first && h' == DropArena(h, page)
    ensures ArenasOk(h')
  {
    var k := h.arenas[page].desc;
    WithoutIs(h.free[k], Blocks(page, h.descs[k]));
    forall p | p in h'.arenas ensures ArenaOk(h'.arenas[p], h'.descs, h'.free, h'.live, p) {
      assert ArenaOk(h.arenas[p], h.descs, h.free, h.live, p);
      if h.arenas[p].Small? { OthersStay(h, page, p); }
    }
  }

  /** Taking an arena's blocks off the list leaves those of another arena on it. */
  lemma OthersStay(h: Heap, page: nat, p: nat)
    requires Inv0(h) && Idle(h, page) && p != page && p in h.arenas && h.arenas[p].Small?
    ensures var k := h.arenas[page].desc;
            var q := Without(h.free[k], Blocks(page, h.descs[k]));
            FreeOf(q, p) == FreeOf(h.free[k], p) &&
            forall b :: b in Blocks(p, h.descs[h.arenas[p].desc]) && b in h.free[k] ==> b in q
  {
    var k := h.arenas[page].desc;
    WithoutIs(h.free[k], Blocks(page, h.descs[k]));
    BlocksAre(page, h.descs[k], h.descs[k].blocksPerArena);
    BlocksAre(p, h.descs[h.arenas[p].desc], h.descs[h.arenas[p].desc].blocksPerArena);
  }

  lemma DropKeeps(h: Heap, page: nat)
    requires Inv0(h) && NoneIdle(h, Some(page)) && Idle(h, page)
    ensures page >= h.first && HeapInv(DropArena(h, page))
  {
    ArenaPagesUsed(h, page);
    var h' := DropArena(h, page);
    DropPages(h, page, h');
    DropFreeOk(h, page, h');
    DropLiveOk(h, page, h');
    DropArenasOk(h, page, h');
    forall q | q in h'.arenas ensures Busy(h'.arenas[q], h'.descs) { assert Busy(h.arenas[q], h.descs); }
  }
}
