/** The page pools and the block allocator updated in place, proved against MallocRuns. */
module Allocator {
  import opened Common
  import opened FreeMap
  import opened Malloc
  import opened MallocProofs
  import opened MallocRuns

  const DEAD: Byte := 0xcc

  /** A range of pages and the bitmap of those in use. */
  class Pool {
    const usedMap: Bitmap
    const base: nat

    constructor (base: nat, pageCnt: nat)
      ensures this.base == base && fresh(usedMap) && fresh(usedMap.bits)
      ensures usedMap.bits[..] == seq(pageCnt, _ => false)
    {
      this.base := base;
      usedMap := new Bitmap(pageCnt);
    }

    /** page_from_pool */
    predicate Holds(page: nat) { base <= page < base + usedMap.bits.Length }

    /** bitmap_scan_and_flip under the pool's lock: palloc_get_multiple without flags. */
    method TakeRun(cnt: nat) returns (page: Option<nat>)
      modifies usedMap.bits
      ensures var i := FirstFit(old(usedMap.bits[..]), 0, cnt, false);
              if cnt == 0 || i.None? then page == None && usedMap.bits[..] == old(usedMap.bits[..])
              else page == Some(base + i.value) && Holds(base + i.value) && Holds(base + i.value + cnt - 1) &&
                   usedMap.bits[..] == SetRun(old(usedMap.bits[..]), i.value, cnt, true)
    {
      page := None;
      if cnt == 0 { return; }
      var idx := usedMap.ScanAndFlip(0, cnt, false);
      if idx.Some? { page := Some(base + idx.value); }
    }
  }

  /** Kernel pool and user pool. */
  class PageAllocator {
    const kernel: Pool
    const user: Pool

    /** No page is in both pools, which have their own bitmaps. */
    ghost predicate Valid()
    {
      kernel.base + kernel.usedMap.bits.Length <= user.base && kernel.usedMap.bits != user.usedMap.bits
    }

    /** DIV_ROUND_UP (bitmap_buf_size (pageCnt), PGSIZE), for a bitmap in 32-bit words after an 8-byte header */
    static function BitmapPages(pageCnt: nat): nat { (8 + 4 * ((pageCnt + 31) / 32) + PGSIZE - 1) / PGSIZE }

    static lemma MapFits(pageCnt: nat)
      ensures HoldsMap(BitmapPages(pageCnt), pageCnt)
    {
      DivBounds(8 + 4 * ((pageCnt + 31) / 32) + PGSIZE - 1, PGSIZE);
    }

    /** palloc_init on freePages pages from freeStart; a pool too small for its bitmap is a panic. */
    constructor (freeStart: nat, freePages: nat, userPageLimit: nat)
      requires var userPages := Min(freePages / 2, userPageLimit);
               BitmapPages(userPages) <= userPages && BitmapPages(freePages - userPages) <= freePages - userPages
      ensures Valid() && fresh(kernel) && fresh(user) && fresh(kernel.usedMap) && fresh(user.usedMap)
      ensures fresh(kernel.usedMap.bits) && fresh(user.usedMap.bits)
      ensures forall i :: 0 <= i < kernel.usedMap.bits.Length ==> !kernel.usedMap.bits[i]
      ensures forall i :: 0 <= i < user.usedMap.bits.Length ==> !user.usedMap.bits[i]
      ensures forall p: nat :: kernel.Holds(p) || user.Holds(p) ==> freeStart <= p < freeStart + freePages
      ensures var userPages := Min(freePages / 2, userPageLimit);
              && kernel.base + kernel.usedMap.bits.Length == freeStart + (freePages - userPages)
              && user.base + user.usedMap.bits.Length == freeStart + freePages
              && HoldsMap(kernel.base - freeStart, freePages - userPages)
              && HoldsMap(user.base - (freeStart + (freePages - userPages)), userPages)
      ensures user.usedMap.bits.Length <= userPageLimit
    {
      var userPages := Min(freePages / 2, userPageLimit);
      var kernelPages := freePages - userPages;
      var kernelMap := BitmapPages(kernelPages);
      var userMap := BitmapPages(userPages);
      MapFits(kernelPages);
      MapFits(userPages);
      kernel := new Pool(freeStart + kernelMap, kernelPages - kernelMap);
      user := new Pool(freeStart + kernelPages + userMap, userPages - userMap);
    }

    /** palloc_get_multiple: a run of pages from the user pool or else the kernel pool, cleared if asked for; when there
        is none a null pointer, or a panic if that was asked for. */
    method GetMultiple(flags: Flags, cnt: nat, memory: array<Byte>) returns (r: Obtained)
      requires Valid()
      requires (kernel.base + kernel.usedMap.bits.Length) * PGSIZE <= memory.Length
      requires (user.base + user.usedMap.bits.Length) * PGSIZE <= memory.Length
      modifies kernel.usedMap.bits, user.usedMap.bits, memory
      ensures flags.user ==>
                kernel.usedMap.bits[..] == old(kernel.usedMap.bits[..]) &&
                Obtains(user, old(user.usedMap.bits[..]), user.usedMap.bits[..], cnt, flags.orPanic, r)
      ensures !flags.user ==>
                user.usedMap.bits[..] == old(user.usedMap.bits[..]) &&
                Obtains(kernel, old(kernel.usedMap.bits[..]), kernel.usedMap.bits[..], cnt, flags.orPanic, r)
      ensures forall i :: 0 <= i < memory.Length ==>
                memory[i] == if r.Pages? && flags.zero && r.page <= i / PGSIZE < r.page + cnt then 0 else old(memory[i])
    {
      var pool := if flags.user then user else kernel;
      FirstRunIs(pool.usedMap.bits[..], cnt);
      var page := pool.TakeRun(cnt);
      match page
      case Some(p) =>
        if flags.zero { SetPages(memory, p, cnt, 0); }
        r := Pages(p);
      case None => r := if flags.orPanic && cnt > 0 then Panic else Null;
    }

    /** palloc_free_multiple: the pages go back to the pool they came from; a null pointer is ignored. */
    method FreeMultiple(pages: Option<nat>, cnt: nat, memory: array<Byte>)
      requires Valid()
      requires pages.Some? && cnt > 0 ==>
        || (kernel.Holds(pages.value) && Run(kernel.usedMap.bits[..], pages.value - kernel.base, cnt, true))
        || (user.Holds(pages.value) && Run(user.usedMap.bits[..], pages.value - user.base, cnt, true))
      requires pages.Some? ==> (pages.value + cnt) * PGSIZE <= memory.Length
      modifies kernel.usedMap.bits, user.usedMap.bits, memory
      ensures kernel.usedMap.bits[..] ==
        if pages.Some? && cnt > 0 && kernel.Holds(pages.value) then
          SetRun(old(kernel.usedMap.bits[..]), pages.value - kernel.base, cnt, false)
        else old(kernel.usedMap.bits[..])
      ensures user.usedMap.bits[..] ==
        if pages.Some? && cnt > 0 && user.Holds(pages.value) then
          SetRun(old(user.usedMap.bits[..]), pages.value - user.base, cnt, false)
        else old(user.usedMap.bits[..])
      ensures forall i :: 0 <= i < memory.Length ==>
                memory[i] == if pages.Some? && pages.value <= i / PGSIZE < pages.value + cnt then DEAD
                  else old(memory[i])
    {
      if pages.None? || cnt == 0 { return; }
      var page := pages.value;
      SetPages(memory, page, cnt, DEAD);
      if kernel.Holds(page) {
        kernel.usedMap.SetMultiple(page - kernel.base, cnt, false);
      } else {
        user.usedMap.SetMultiple(page - user.base, cnt, false);
      }
    }
  }

  /** So many pages, and no fewer, hold the bitmap of a pool: its header and a bit for every page, in 32-bit words. */
  ghost predicate HoldsMap(pages: int, pageCnt: nat)
  {
    var bytes := 8 + 4 * ((pageCnt + 31) / 32);
    bytes <= pages * PGSIZE < bytes + PGSIZE
  }

  /** The lowest run of cnt free pages of the pool, now used; or none, when there is none or no page was asked for. */
  ghost predicate Obtains(pool: Pool, before: seq<bool>, after: seq<bool>, cnt: nat, orPanic: bool, r: Obtained)
  {
    |after| == |before| &&
    match r
    case Pages(page) =>
      && cnt > 0 && pool.base <= page && page - pool.base + cnt <= |before|
      && (forall i :: page - pool.base <= i < page - pool.base + cnt ==> !before[i])
      && (forall k: nat :: k < page - pool.base ==> UsedWithin(before, k, cnt))
      && (forall i :: 0 <= i < |after| ==> after[i] == (before[i] || page - pool.base <= i < page - pool.base + cnt))
    case Null => after == before && (cnt == 0 || (!orPanic && NoRun(before, cnt)))
    case Panic => after == before && cnt > 0 && orPanic && NoRun(before, cnt)
  }

  /** One of the cnt pages from k on is used. */
  ghost predicate UsedWithin(used: seq<bool>, k: nat, cnt: nat)
  {
    exists i :: k <= i < k + cnt && i < |used| && used[i]
  }

  /** There is no run of cnt free pages. */
  ghost predicate NoRun(used: seq<bool>, cnt: nat)
  {
    forall k: nat :: k + cnt <= |used| ==> UsedWithin(used, k, cnt)
  }

  lemma FirstRunIs(used: seq<bool>, cnt: nat)
    ensures var r := FirstFit(used, 0, cnt, false);
            && (r.None? ==> NoRun(used, cnt))
            && (r.Some? ==> forall k: nat :: k < r.value ==> UsedWithin(used, k, cnt))
  {
    var r := FirstFit(used, 0, cnt, false);
    forall k: nat | k + cnt <= |used| && (r.None? || k < r.value) ensures UsedWithin(used, k, cnt) {
      assert !Run(used, k, cnt, false);
    }
  }

  /** PAL_USER, PAL_ZERO and PAL_ASSERT. */
  datatype Flags = Flags(user: bool, zero: bool, orPanic: bool)

  datatype Obtained = Pages(page: nat) | Null | Panic

  /** memset on whole pages. */
  method SetPages(memory: array<Byte>, page: nat, cnt: nat, value: Byte)
    requires (page + cnt) * PGSIZE <= memory.Length
    modifies memory
    ensures forall i :: 0 <= i < memory.Length ==>
            memory[i] == if page <= i / PGSIZE < page + cnt then value else old(memory[i])
  {
    forall i | page * PGSIZE <= i < (page + cnt) * PGSIZE { memory[i] := value; }
    forall i | 0 <= i < memory.Length
      ensures page <= i / PGSIZE < page + cnt <==> page * PGSIZE <= i < (page + cnt) * PGSIZE
    {
      DivBounds(i, PGSIZE);
    }
  }

  class BlockAllocator {
    const pages: PageAllocator
    const memory: array<Byte>
    var descs: seq<Desc>
    var arenas: map<nat, Arena>
    var free: seq<seq<nat>>
    ghost var live: set<nat>
    ghost var foreign: set<nat>

    ghost function View(): Heap
      reads this, pages.kernel.usedMap.bits
    {
      Heap(pages.kernel.usedMap.bits[..], pages.kernel.base, descs, arenas, free, live, foreign)
    }

    ghost predicate Valid()
      reads this, pages.kernel.usedMap.bits
    {
      && pages.Valid() && pages.kernel.base > 0 &&
        (pages.kernel.base + pages.kernel.usedMap.bits.Length) * PGSIZE <= memory.Length
      && HeapInv(View())
    }

    /** malloc_init: blocks of 16, 32, ... bytes up to half a page, as many to an arena as fit. */
    constructor (pages: PageAllocator, memory: array<Byte>)
      requires pages.Valid() && pages.kernel.base > 0
      requires (pages.kernel.base + pages.kernel.usedMap.bits.Length) * PGSIZE <= memory.Length
      requires forall i :: 0 <= i < pages.kernel.usedMap.bits.Length ==> !pages.kernel.usedMap.bits[i]
      ensures this.pages == pages && this.memory == memory && Valid() && Fresh(View())
      ensures |descs| == 7 && forall k :: 0 <= k < |descs| ==> Packed(descs[k], 16 * Pow2(k))
    {
      this.pages, this.memory := pages, memory;
      descs, arenas, free, live, foreign := [], map[], [], {}, {};
      new;
      var blockSize := 16;
      while blockSize < PGSIZE / 2
        invariant |descs| <= 7 && blockSize == 16 * Pow2(|descs|) && (|descs| < 7 ==> blockSize < PGSIZE / 2)
        invariant |free| == |descs| && forall k :: 0 <= k < |free| ==> free[k] == []
        invariant forall k :: 0 <= k < |descs| ==> Packed(descs[k], 16 * Pow2(k))
        invariant arenas == map[] && live == {} && foreign == {}
        decreases 7 - |descs|
      {
        PowerTable();
        PackedDesc(blockSize);
        descs := descs + [Desc(blockSize, (PGSIZE - HEADER) / blockSize)];
        free := free + [[]];
        blockSize := blockSize * 2;
      }
      PowerTable();
      FreshOk(View());
    }

    /** malloc */
    method Malloc(size: nat) returns (r: Option<nat>)
      requires Valid()
      modifies this`arenas, this`free, this`live, pages.kernel.usedMap.bits
      ensures Valid() && r == MallocOf(old(View()), size).block && View() == MallocOf(old(View()), size).h
    {
      ghost var h := View();
      MallocGives(h, size);
      if size == 0 { return None; }
      var d := 0;
      while d < |descs| && descs[d].blockSize < size
        invariant d <= |descs| && FindDesc(descs, size, 0) == FindDesc(descs, size, d)
      {
        d := d + 1;
      }
      if d == |descs| {
        r := GetBig(size);
      } else {
        r := GetSmall(d);
      }
    }

    method GetBig(size: nat) returns (r: Option<nat>)
      requires Valid()
      modifies this`arenas, this`live, pages.kernel.usedMap.bits
      ensures r == MallocBig(old(View()), size).block && View() == MallocBig(old(View()), size).h
    {
      var pageCnt := (size + HEADER + PGSIZE - 1) / PGSIZE;
      EnoughPages(size);
      var page := pages.kernel.TakeRun(pageCnt);
      if page.None? { return None; }
      arenas := arenas[page.value := Big(pageCnt)];
      r := Some(page.value * PGSIZE + HEADER);
      live := live + {r.value};
    }

    method GetSmall(d: nat) returns (r: Option<nat>)
      requires Valid() && d < |descs|
      modifies this`arenas, this`free, this`live, pages.kernel.usedMap.bits
      ensures r == MallocSmall(old(View()), d).block && View() == MallocSmall(old(View()), d).h
    {
      if free[d] == [] {
        ghost var h := View();
        var ok := NewArena(d);
        if !ok { return None; }
        GrowKeeps(h, d, FirstFit(h.used, 0, 1, false).value);
      } else {
        TakeReady(View(), d);
      }
      var b := PopBlock(d);
      r := Some(b);
    }

    /** An arena on a new page, unless the pool is empty. */
    method NewArena(d: nat) returns (ok: bool)
      requires d < |descs| == |free|
      modifies this`arenas, this`free, pages.kernel.usedMap.bits
      ensures var h, i := old(View()), FirstFit(old(View()).used, 0, 1, false);
              ok == i.Some? && View() == (if ok then AddArena(h, d, i.value) else h)
    {
      var page := pages.kernel.TakeRun(1);
      ok := page.Some?;
      if ok { FillArena(d, page.value); }
    }

    /** list_pop_front, and the arena's count goes down. */
    method PopBlock(d: nat) returns (b: nat)
      requires d < |free| && free[d] != [] && Counted(arenas, PageOf(free[d][0]))
      modifies this`arenas, this`free, this`live
      ensures b == old(free)[d][0] && View() == TakeBlock(old(View()), d)
    {
      b := free[d][0];
      var a := arenas[PageOf(b)];
      free := free[d := free[d][1..]];
      arenas := arenas[PageOf(b) := a.(freeCnt := a.freeCnt - 1)];
      live := live + {b};
    }

    /** A new arena's header, and its blocks onto the free list one by one. */
    method FillArena(d: nat, page: nat)
      requires d < |descs| == |free|
      modifies this`arenas, this`free
      ensures arenas == old(arenas)[page := Small(d, descs[d].blocksPerArena)]
      ensures free == old(free)[d := old(free)[d] + BlockList(page, descs[d], descs[d].blocksPerArena)]
    {
      arenas := arenas[page := Small(d, descs[d].blocksPerArena)];
      var i := 0;
      assert free[d] + [] == free[d];
      while i < descs[d].blocksPerArena
        invariant i <= descs[d].blocksPerArena && |free| == |old(free)|
        invariant arenas == old(arenas)[page := Small(d, descs[d].blocksPerArena)]
        invariant free == old(free)[d := old(free)[d] + BlockList(page, descs[d], i)]
      {
        assert old(free)[d] + BlockList(page, descs[d], i) + [BlockAddr(page, descs[d], i)] ==
          old(free)[d] + BlockList(page, descs[d], i + 1);
        free := free[d := free[d] + [BlockAddr(page, descs[d], i)]];
        i := i + 1;
      }
    }

    /** list_remove of every block of an arena. */
    method EmptyArena(k: nat, page: nat)
      requires k < |descs| == |free|
      modifies this`free
      ensures free == old(free)[k := Without(old(free)[k], Blocks(page, descs[k]))]
    {
      var i := 0;
      NothingToRemove(free[k]);
      while i < descs[k].blocksPerArena
        invariant i <= descs[k].blocksPerArena && |free| == |old(free)|
        invariant free == old(free)[k := Without(old(free)[k], BlocksUpTo(page, descs[k], i))]
      {
        WithoutMore(old(free)[k], BlocksUpTo(page, descs[k], i), BlockAddr(page, descs[k], i));
        free := free[k := Without(free[k], {BlockAddr(page, descs[k], i)})];
        i := i + 1;
      }
    }

    method FreeSmall(b: nat)
      requires Valid() && b in live && SmallOn(View(), PageOf(b)) && PutOk(b, PutBlock(View(), b))
      modifies this`arenas, this`free, this`live, pages.kernel.usedMap.bits, pages.user.usedMap.bits, memory
      ensures View() == Settled(PutBlock(old(View()), b), PageOf(b))
      ensures Scrubbed(View(), b, Size(old(View()), b), old(memory[..]), memory[..])
    {
      PushBlock(b);
      var page := PageOf(b);
      ghost var pushed := memory[..];
      if arenas[page].freeCnt >= descs[arenas[page].desc].blocksPerArena {
        assert arenas[page].freeCnt == descs[arenas[page].desc].blocksPerArena;
        RetireArena(page);
      }
      ScrubbedToo(View(), b, Size(old(View()), b), old(memory[..]), pushed, memory[..]);
    }

    /** An arena without a block in use is given up. */
    method RetireArena(page: nat)
      requires pages.Valid() && pages.kernel.base > 0
      requires (pages.kernel.base + pages.kernel.usedMap.bits.Length) * PGSIZE <= memory.Length
      requires Inv0(View()) && SmallOn(View(), page) && page >= pages.kernel.base
      modifies this`arenas, this`free, pages.kernel.usedMap.bits, pages.user.usedMap.bits, memory
      ensures View() == DropArena(old(View()), page)
      ensures Scrubbed(View(), 0, 0, old(memory[..]), memory[..])
    {
      ArenaPagesUsed(View(), page);
      EmptyArena(arenas[page].desc, page);
      ReleaseArena(page);
    }

    /** memset (b, 0xcc, size) */
    method ClearBlock(b: nat, size: nat)
      requires b + size <= memory.Length
      modifies memory
      ensures OnlyIn(b, size, old(memory[..]), memory[..])
    {
      forall i | b <= i < b + size { memory[i] := DEAD; }
    }

    /** list_push_front of a cleared block, and the arena's count goes up. */
    method PushBlock(b: nat)
      requires Valid() && b in live && SmallOn(View(), PageOf(b))
      modifies this`arenas, this`free, this`live, memory
      ensures View() == PutBlock(old(View()), b)
      ensures OnlyIn(b, Size(old(View()), b), old(memory[..]), memory[..])
    {
      LiveSmall(View(), b);
      var page := PageOf(b);
      var k := arenas[page].desc;
      SmallInMemory(b, k);
      ClearBlock(b, descs[k].blockSize);
      free := free[k := [b] + free[k]];
      arenas := arenas[page := arenas[page].(freeCnt := arenas[page].freeCnt + 1)];
      live := live - {b};
    }

    /** The pages of an arena go back to the kernel pool. */
    method ReleaseArena(page: nat)
      requires pages.Valid() && page in arenas && PagesOf(arenas[page]) >= 1
      requires pages.kernel.base > 0 && (pages.kernel.base + pages.kernel.usedMap.bits.Length) * PGSIZE <= memory.Length
      requires page >= pages.kernel.base
      requires Run(pages.kernel.usedMap.bits[..], page - pages.kernel.base, PagesOf(arenas[page]), true)
      modifies this`arenas, pages.kernel.usedMap.bits, pages.user.usedMap.bits, memory
      ensures arenas == old(arenas) - {page}
      ensures pages.kernel.usedMap.bits[..] ==
        SetRun(old(pages.kernel.usedMap.bits[..]), page - pages.kernel.base, PagesOf(old(arenas)[page]), false)
      ensures Scrubbed(View(), 0, 0, old(memory[..]), memory[..])
    {
      var cnt := PagesOf(arenas[page]);
      arenas := arenas - {page};
      pages.FreeMultiple(Some(page), cnt, memory);
    }

    lemma SmallInMemory(b: nat, k: nat)
      requires Valid() && IsBlock(arenas, descs, b, k)
      ensures b + descs[k].blockSize <= memory.Length
    {
      SmallFits(View(), b, k);
      ArenaPagesUsed(View(), PageOf(b));
    }

    method FreeBig(b: nat)
      requires Valid() && b in live && PageOf(b) in arenas && arenas[PageOf(b)].Big? && BigAddr(PageOf(b)) == b
      requires PageOf(b) >= pages.kernel.base
      modifies this`arenas, this`live, pages.kernel.usedMap.bits, pages.user.usedMap.bits, memory
      ensures View() == DropBig(old(View()), PageOf(b))
      ensures Scrubbed(View(), 0, 0, old(memory[..]), memory[..])
    {
      ArenaPagesUsed(View(), PageOf(b));
      ReleaseArena(PageOf(b));
      live := live - {b};
    }

    /** free: bytes of the other blocks in use stay as they are; a null pointer is ignored. */
    method Free(b: Option<nat>)
      requires Valid() && (b.Some? ==> b.value in live)
      modifies this`arenas, this`free, this`live, pages.kernel.usedMap.bits, pages.user.usedMap.bits, memory
      ensures Valid() && View() == if b.Some? then FreeOfBlock(old(View()), b.value) else old(View())
      ensures Kept(View(), None, old(memory[..]), memory[..])
    {
      if b.Some? { FreeBlock(b.value); }
    }

    method FreeBlock(b: nat)
      requires Valid() && b in live
      modifies this`arenas, this`free, this`live, pages.kernel.usedMap.bits, pages.user.usedMap.bits, memory
      ensures Valid() && View() == FreeOfBlock(old(View()), b)
      ensures Kept(View(), None, old(memory[..]), memory[..])
    {
      ghost var h := View();
      FreeReady(h, b);
      if arenas[PageOf(b)].Small? {
        FreeSmall(b);
      } else {
        FreeBig(b);
      }
      FreeKeepsBytes(h, b, old(memory[..]), memory[..]);
    }

    lemma InMemory(b: nat)
      requires Valid() && b in live
      ensures b + Size(View(), b) <= memory.Length
    {
      PieceInArena(View(), Live, b, Size(View(), b));
      ArenaPagesUsed(View(), PageOf(b));
    }

    /** block_size */
    method BlockSize(b: nat) returns (n: nat)
      requires Valid() && b in live
      ensures n == Size(View(), b) && b + n <= memory.Length
    {
      LiveSmall(View(), b);
      InMemory(b);
      match arenas[PageOf(b)]
      case Small(k, _) => n := descs[k].blockSize;
      case Big(pageCnt) => n := PGSIZE * pageCnt - b % PGSIZE;
    }

    /** realloc: the new block starts with the bytes of the old one, and no other block changes. */
    method Realloc(b: Option<nat>, size: nat) returns (r: Option<nat>)
      requires Valid() && (b.Some? ==> b.value in live)
      modifies this`arenas, this`free, this`live, pages.kernel.usedMap.bits, pages.user.usedMap.bits, memory
      ensures Valid() && r == ReallocOf(old(View()), b, size).block && View() == ReallocOf(old(View()), b, size).h
      ensures b.Some? && r.Some? ==>
        Copied(r.value, b.value, Min(size, Size(old(View()), b.value)), old(memory[..]), memory[..])
      ensures Kept(View(), r, old(memory[..]), memory[..])
    {
      ReallocTrades(View(), b, size);
      if size == 0 {
        Free(b);
        r := None;
      } else {
        MallocGives(View(), size);
        r := Malloc(size);
        if b.Some? && r.Some? { Move(b.value, r.value, size); }
      }
    }

    /** The rest of realloc once the new block r has been found. */
    method Move(b: nat, r: nat, size: nat)
      requires Valid() && b in live && r in live && b != r && size <= Size(View(), r)
      modifies this`arenas, this`free, this`live, pages.kernel.usedMap.bits, pages.user.usedMap.bits, memory
      ensures Valid() && View() == FreeOfBlock(old(View()), b)
      ensures Copied(r, b, Min(size, Size(old(View()), b)), old(memory[..]), memory[..])
      ensures Kept(View(), Some(r), old(memory[..]), memory[..])
    {
      ghost var h, before := View(), memory[..];
      FreeTakesBack(h, b);
      var oldSize := BlockSize(b);
      InMemory(r);
      var minSize := if size < oldSize then size else oldSize;
      CopyBytes(memory, r, b, minSize);
      ghost var copied := memory[..];
      Free(Some(b));
      CopyStays(View(), b, r, minSize, before, copied, memory[..]);
      CopyKeeps(View(), r, minSize, before, copied, memory[..]);
    }
  }

  /** memcpy */
  method CopyBytes(memory: array<Byte>, dst: nat, src: nat, n: nat)
    requires dst + n <= memory.Length && src + n <= memory.Length
    modifies memory
    ensures OnlyIn(dst, n, old(memory[..]), memory[..]) && Copied(dst, src, n, old(memory[..]), memory[..])
  {
    forall i | dst <= i < dst + n { memory[i] := memory[src + (i - dst)]; }
  }

  /** The heap after b has gone back on the free list: the count may have reached the number
      of blocks, not passed it. */
  ghost predicate PutOk(b: nat, h': Heap)
  {
    Inv0(h') && h'.first <= PageOf(b) && SmallOn(h', PageOf(b)) &&
    h'.arenas[PageOf(b)].freeCnt <= h'.descs[h'.arenas[PageOf(b)].desc].blocksPerArena
  }

  ghost function Settled(h: Heap, page: nat): Heap
    requires SmallOn(h, page) && page >= h.first
  {
    if Busy(h.arenas[page], h.descs) then h else DropArena(h, page)
  }

  lemma FreeReady(h: Heap, b: nat)
    requires HeapInv(h) && b in h.live
    ensures PageOf(b) in h.arenas && PageOf(b) >= h.first && HeapInv(FreeOfBlock(h, b))
    ensures h.arenas[PageOf(b)].Small? ==>
      SmallOn(h, PageOf(b)) && PutOk(b, PutBlock(h, b)) && FreeOfBlock(h, b) == Settled(PutBlock(h, b), PageOf(b))
    ensures h.arenas[PageOf(b)].Big? ==> BigAddr(PageOf(b)) == b && FreeOfBlock(h, b) == DropBig(h, PageOf(b))
  {
    FreeTakesBack(h, b);
    LiveSmall(h, b);
    ArenaPagesUsed(h, PageOf(b));
    if h.arenas[PageOf(b)].Small? { PutReady(h, b); }
  }

  lemma PutReady(h: Heap, b: nat)
    requires HeapInv(h) && b in h.live && SmallOn(h, PageOf(b))
    ensures PutOk(b, PutBlock(h, b)) && FreeOfBlock(h, b) == Settled(PutBlock(h, b), PageOf(b))
  {
    PutKeeps(h, b);
    FullIsIdle(h, b);
    FreeSmallIs(h, b, PutBlock(h, b));
  }

  // ---------------------------------------------------------------- bytes

  /** Only bytes from a on, n of them, have changed. */
  ghost predicate OnlyIn(a: nat, n: int, before: seq<Byte>, after: seq<Byte>)
  {
    |before| == |after| && forall i: nat :: i < |before| ==> after[i] == before[i] || a <= i < a + n
  }

  /** Only those bytes, and bytes of pages that went back to the pool, have changed. */
  ghost predicate Scrubbed(h: Heap, a: nat, n: int, before: seq<Byte>, after: seq<Byte>)
  {
    |before| == |after| && forall i: nat :: i < |before| ==>
      after[i] == before[i] || a <= i < a + n || !Used(h, PageOf(i))
  }

  /** The n bytes at dst are now what those at src were. */
  ghost predicate Copied(dst: nat, src: nat, n: int, before: seq<Byte>, after: seq<Byte>)
  {
    dst + n <= |after| && src + n <= |before| && forall x :: dst <= x < dst + n ==> after[x] == before[src + (x - dst)]
  }

  /** Every block in use, apart from one, still has its bytes. */
  ghost predicate Kept(h: Heap, except: Option<nat>, before: seq<Byte>, after: seq<Byte>)
    requires HeapInv(h)
  {
    |before| == |after| &&
    forall c, i: nat :: c in h.live && except != Some(c) && c <= i < c + Size(h, c) && i < |before| ==>
      after[i] == before[i]
  }

  lemma ScrubbedToo(h: Heap, a: nat, n: int, before: seq<Byte>, middle: seq<Byte>, after: seq<Byte>)
    requires OnlyIn(a, n, before, middle) && (after == middle || Scrubbed(h, 0, 0, middle, after))
    ensures Scrubbed(h, a, n, before, after)
  {
  }

  lemma FreeKeepsBytes(h: Heap, b: nat, before: seq<Byte>, after: seq<Byte>)
    requires HeapInv(h) && b in h.live && HeapInv(FreeOfBlock(h, b))
    requires Scrubbed(FreeOfBlock(h, b), b, Size(h, b), before, after)
    ensures Kept(FreeOfBlock(h, b), None, before, after)
  {
    var h' := FreeOfBlock(h, b);
    forall c, i: nat | c in h'.live && c <= i < c + Size(h', c) && i < |before| ensures after[i] == before[i] {
      OthersUntouched(h, b, c, i);
    }
  }

  /** The copy survives the release of the old block. */
  lemma CopyStays(h: Heap, b: nat, r: nat, n: int, before: seq<Byte>, copied: seq<Byte>, after: seq<Byte>)
    requires HeapInv(h) && r in h.live && n <= Size(h, r)
    requires Copied(r, b, n, before, copied) && Kept(h, None, copied, after)
    ensures Copied(r, b, n, before, after)
  {
    forall x | r <= x < r + n ensures after[x] == before[b + (x - r)] {
      assert after[x] == copied[x];
    }
  }

  /** The copy changed no block but the new one. */
  lemma CopyKeeps(h: Heap, r: nat, n: int, before: seq<Byte>, copied: seq<Byte>, after: seq<Byte>)
    requires HeapInv(h) && r in h.live && n <= Size(h, r)
    requires OnlyIn(r, n, before, copied) && Kept(h, None, copied, after)
    ensures Kept(h, Some(r), before, after)
  {
    forall c, i: nat | c in h.live && c != r && c <= i < c + Size(h, c) && i < |before| ensures after[i] == before[i] {
      BlocksApartByte(h, r, c, i);
    }
  }

  /** A byte of one block in use is not a byte of another. */
  lemma BlocksApartByte(h: Heap, b: nat, c: nat, i: nat)
    requires HeapInv(h) && b in h.live && c in h.live && b != c && c <= i < c + Size(h, c)
    ensures !(b <= i < b + Size(h, b))
  {
    if c < b {
      PiecesApart(h, Live, c, Size(h, c), Live, b, Size(h, b));
    } else {
      PiecesApart(h, Live, b, Size(h, b), Live, c, Size(h, c));
    }
  }

  /** A byte of a block that stays in use is neither in the block freed nor on a page given back. */
  lemma OthersUntouched(h: Heap, b: nat, c: nat, i: nat)
    requires HeapInv(h) && b in h.live && HeapInv(FreeOfBlock(h, b)) && c in FreeOfBlock(h, b).live
    requires c <= i < c + Size(FreeOfBlock(h, b), c)
    ensures !(b <= i < b + Size(h, b)) && Used(FreeOfBlock(h, b), PageOf(i))
  {
    FreeTakesBack(h, b);
    var h' := FreeOfBlock(h, b);
    PiecesOnOwnPages(h', Live, c, Size(h', c), i);
    BlocksApartByte(h, b, c, i);
  }

  /** A descriptor for blocks of n bytes, as many to an arena as fit. */
  ghost predicate Packed(d: Desc, n: nat)
  {
    GoodDesc(d) && d.blockSize == n && 12 + d.blocksPerArena * n <= 4096 < 12 + (d.blocksPerArena + 1) * n
  }

  lemma PackedDesc(n: nat)
    requires 16 <= n < PGSIZE / 2
    ensures Packed(Desc(n, (PGSIZE - HEADER) / n), n)
  {
    DivBounds(PGSIZE - HEADER, n);
    var q := (PGSIZE - HEADER) / n;
    assert (q + 1) * n == q * n + n;
    if q < 1 { MulMono(q, 0, n); }
  }

  lemma PowerTable()
    ensures Pow2(0) == 1 && Pow2(1) == 2 && Pow2(2) == 4 && Pow2(3) == 8
    ensures Pow2(4) == 16 && Pow2(5) == 32 && Pow2(6) == 64 && Pow2(7) == 128
  {
    assert Pow2(4) == 16;
  }

  lemma {:induction false} NothingToRemove(q: seq<nat>)
    ensures Without(q, {}) == q
  {
    if q != [] { NothingToRemove(q[1..]); }
  }
}
