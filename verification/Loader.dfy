/** Loading an executable into a process's address space, page by page (userprog/process.c). */
module Loader {
  import opened Common
  import opened Pagedir
  import opened PageTable
  import opened LoaderModel
  import opened Executable
  import opened ElfSpec
  import opened ExecutableMeans

  class Process {
    const dir: PageDirectory
    var memory: map<Kpage, seq<Byte>>
    var userPool: seq<Kpage>          // pages palloc_get_page (PAL_USER) has left
    var kernelPool: seq<Kpage>        // pages palloc_get_page (PAL_ZERO) has left

    ghost function View(): Space
      reads this, dir, dir.pd
    {
      Space(dir.View(), memory)
    }

    ghost predicate Valid()
      reads this, dir, dir.pd
    {
      && dir.Valid() && SpaceOk(View())
      && Stock(userPool) && (forall k :: k in userPool ==> k !in memory)
      && TablePages(kernelPool, dir.tables)
    }

    constructor (dir: PageDirectory, userPool: seq<Kpage>, kernelPool: seq<Kpage>)
      requires dir.Valid() && Stock(userPool) && TablePages(kernelPool, dir.tables)
      requires forall a: Addr :: IsUser(a) ==> Mapped(dir.View(), a) == None
      ensures Valid() && this.dir == dir && memory == map[]
    {
      this.dir, this.userPool, this.kernelPool := dir, userPool, kernelPool;
      memory := map[];
    }

    /** pagedir_set_page, with the kernel pool to take a page table from. */
    method MapPage(upage: Addr, kpage: Kpage, writable: bool) returns (ok: bool)
      requires dir.Valid() && TablePages(kernelPool, dir.tables)
      requires IsUser(upage) && PgOfs(upage) == 0 && KernelPage(kpage.addr) && Mapped(dir.View(), upage) == None
      modifies this`kernelPool, dir`tables, dir.pd
      ensures dir.Valid() && TablePages(kernelPool, dir.tables) && |kernelPool| >= |old(kernelPool)| - 1
      ensures if ok then MapsOnly(old(dir.View()), dir.View(), upage, kpage, writable)
              else dir.View() == old(dir.View()) && old(kernelPool) == []
    {
      var pt := if kernelPool == [] then None else Some(kernelPool[0]);
      SetPageMapsOnly(dir.View(), upage, kpage, writable, pt);
      FirstOfStock(kernelPool);
      var missing := dir.pd[PdNo(upage)] == 0;
      ok := dir.SetPage(upage, kpage, writable, pt);
      if ok && missing { kernelPool := kernelPool[1..]; }
    }

    /** install_page */
    method InstallPage(upage: Addr, kpage: Kpage, content: seq<Byte>, writable: bool) returns (ok: bool)
      requires Valid() && IsUser(upage) && PgOfs(upage) == 0 && |content| == PGSIZE
      requires KernelPage(kpage.addr) && kpage !in memory && kpage !in userPool
      modifies this`memory, this`kernelPool, dir`tables, dir.pd
      ensures Valid() && |kernelPool| >= |old(kernelPool)| - 1
      ensures ok ==> OnePage(old(View()), View(), upage, kpage, content, writable)
      ensures !ok ==> View() == old(View()) && (Mapped(View().dir, upage) != None || old(kernelPool) == [])
    {
      var mapped := dir.GetPage(upage);
      if mapped.Some? { return false; }
      ghost var s := View();
      UnmappedPage(s.dir, upage);
      ok := MapPage(upage, kpage, writable);
      if ok {
        memory := memory[kpage := content];
        PageAdded(s, View(), upage, kpage, content, writable);
      }
    }

    /** palloc_get_page (PAL_USER) */
    method GetFrame() returns (k: Option<Kpage>)
      requires Valid()
      modifies this`userPool
      ensures Valid() && k.Some? == (|old(userPool)| > 0)
      ensures k.Some? ==> old(userPool) == [k.value] + userPool && KernelPage(k.value.addr)
      ensures k.Some? ==> k.value !in memory && k.value !in userPool
      ensures k.None? ==> userPool == old(userPool)
    {
      FirstOfStock(userPool);
      if userPool == [] { return None; }
      k := Some(userPool[0]);
      userPool := userPool[1..];
    }

    /** palloc_free_page */
    method PutFrame(k: Kpage)
      requires Valid() && KernelPage(k.addr) && k !in memory && k !in userPool
      modifies this`userPool
      ensures Valid() && userPool == [k] + old(userPool)
    {
      userPool := [k] + userPool;
    }

    /** A frame for the page at upage, holding data and then zeros; short says the file had less than was asked for. */
    method LoadPage(upage: Addr, data: seq<Byte>, short: bool, writable: bool) returns (ok: bool, ghost kpage: Kpage)
      requires Valid() && IsUser(upage) && PgOfs(upage) == 0 && |data| <= PGSIZE
      modifies this`memory, this`userPool, this`kernelPool, dir`tables, dir.pd
      ensures Valid() && |userPool| + |memory| == |old(userPool)| + |old(memory)|
      ensures ok ==> !short && OnePage(old(View()), View(), upage, kpage, Padded(data), writable)
      ensures ok ==> |userPool| == |old(userPool)| - 1 && |kernelPool| >= |old(kernelPool)| - 1
      ensures !ok ==> View() == old(View())
      ensures ok || short || Mapped(View().dir, upage) != None || old(kernelPool) == [] || old(userPool) == []
    {
      var k := GetFrame();
      kpage := Kpage(0);
      if k.None? { return false, kpage; }
      kpage := k.value;
      if short {
        PutFrame(k.value);
        return false, kpage;
      }
      ok := InstallPage(upage, k.value, Padded(data), writable);
      if !ok { PutFrame(k.value); }
    }

    /** The page of a segment at address page, for which pageRead bytes come from the file, position pos: s is the
        space before the segment. */
    method LoadNext(ghost s: Space, file: seq<Byte>, ghost ofs: nat, ghost from: Addr, ghost readBytes: nat,
                    ghost upto: nat, writable: bool, pos: nat, pageRead: nat, page: Addr)
      returns (ok: bool)
      requires Valid() && DirOk(s.dir) && PgOfs(page) == 0 && from <= page && page + PGSIZE <= upto <= USER_END
      requires pageRead == Min(Max(readBytes - (page - from), 0), PGSIZE) && pos == ofs + Min(readBytes, page - from)
      requires pos + pageRead <= ofs + readBytes
      requires Progress(s, View(), file, ofs, from, readBytes, page, writable)
      modifies this`memory, this`userPool, this`kernelPool, dir`tables, dir.pd
      ensures Valid() && |userPool| + |memory| == |old(userPool)| + |old(memory)|
      ensures ok ==> Progress(s, View(), file, ofs, from, readBytes, page + PGSIZE, writable)
      ensures ok ==> |userPool| == |old(userPool)| - 1 && |kernelPool| >= |old(kernelPool)| - 1
      ensures ok || (View() == old(View()) && AddsOnly(s, View(), from, upto))
      ensures ok || ofs + readBytes > |file| || !Unmapped(s, from, upto) || old(kernelPool) == [] || old(userPool) == []
    {
      ghost var before := View();
      SegmentStops(s, before, from, page, upto);
      var data := FileRead(file, pos, pageRead);
      ghost var kpage;
      ok, kpage := LoadPage(page, data, |data| != pageRead, writable);
      if ok {
        FullRead(file, ofs, readBytes, page - from, pos, pageRead);
        SegmentGrows(s, before, View(), file, ofs, from, readBytes, page, kpage, data, writable);
      }
    }

    /** load_segment */
    method LoadSegment(file: seq<Byte>, ofs: nat, upage: Addr, readBytes: nat, zeroBytes: nat, writable: bool)
      returns (ok: bool)
      requires Valid() && (readBytes + zeroBytes) % PGSIZE == 0 && PgOfs(upage) == 0 && ofs % PGSIZE == 0
      requires upage + readBytes + zeroBytes <= USER_END
      modifies this`memory, this`userPool, this`kernelPool, dir`tables, dir.pd
      ensures Valid() && |userPool| + |memory| == |old(userPool)| + |old(memory)|
      ensures Keeps(old(View()), View()) && AddsOnly(old(View()), View(), upage, upage + readBytes + zeroBytes)
      ensures ok ==> Image(View(), file, ofs, upage, readBytes, upage + readBytes + zeroBytes, writable)
      ensures ok ==> Unmapped(old(View()), upage, upage + readBytes + zeroBytes)
      ensures ok ==> |userPool| == |old(userPool)| - (readBytes + zeroBytes) / PGSIZE
      ensures ok ==> |kernelPool| >= |old(kernelPool)| - (readBytes + zeroBytes) / PGSIZE
      ensures ok || ofs + readBytes > |file| || !Unmapped(old(View()), upage, upage + readBytes + zeroBytes)
                 || |old(userPool)| < (readBytes + zeroBytes) / PGSIZE
                 || |old(kernelPool)| < (readBytes + zeroBytes) / PGSIZE
    {
      ghost var s, n := View(), 0;
      var read, zero, pos, page := readBytes, zeroBytes, ofs, upage as int;
      CountersStart(readBytes, zeroBytes, ofs, upage);
      while read > 0 || zero > 0
        invariant 0 <= n && 0 <= read && 0 <= zero && 0 <= pos && 0 <= page <= USER_END
        invariant Counters(readBytes, zeroBytes, ofs, upage, n, read, zero, pos, page)
        invariant Valid() && |userPool| + |memory| == |old(userPool)| + |old(memory)|
        invariant Progress(s, View(), file, ofs, upage, readBytes, page, writable)
        invariant |userPool| == |old(userPool)| - n && |kernelPool| >= |old(kernelPool)| - n
        decreases read + zero
      {
        CountersStep(readBytes, zeroBytes, ofs, upage, n, read, zero, pos, page);
        CountersPage(readBytes, zeroBytes, ofs, upage, n, read, zero, pos, page);
        var pageRead := if read < PGSIZE then read else PGSIZE;
        var pageZero := PGSIZE - pageRead;
        ok := LoadNext(s, file, ofs, upage, readBytes, upage + readBytes + zeroBytes, writable, pos, pageRead, page);
        if !ok { return; }
        read, zero, pos, page := read - pageRead, zero - pageZero, pos + pageRead, page + PGSIZE;
        n := n + 1;
      }
      CountersEnd(readBytes, zeroBytes, ofs, upage, n, pos, page);
      ok := true;
    }

    /** The PT_LOAD case of load. */
    method LoadHeader(f: seq<Byte>, p: Phdr) returns (ok: bool)
      requires Valid() && Words(p)
      modifies this`memory, this`userPool, this`kernelPool, dir`tables, dir.pd
      ensures Valid() && |userPool| + |memory| == |old(userPool)| + |old(memory)|
      ensures ok ==> HeaderLoaded(old(View()), View(), f, p) && Pages(p) >= 0
      ensures ok ==> |userPool| == |old(userPool)| - Pages(p) && |kernelPool| >= |old(kernelPool)| - Pages(p)
      ensures !ok ==> View() == old(View()) || (Within(p) && AddsOnly(old(View()), View(), MemPage(p), SegmentEnd(p)))
      ensures ok || !ValidateSegment(p, |f|) || !Complete(p, |f|)
                 || (Within(p) && !Unmapped(old(View()), MemPage(p), SegmentEnd(p)))
                 || |old(userPool)| < Pages(p) || |old(kernelPool)| < Pages(p)
    {
      if !ValidateSegment(p, |f|) { return false; }
      SegmentCounts(p, |f|);
      SegmentReach(p, |f|);
      ok := LoadSegment(f, FilePage(p), MemPage(p), ReadBytes(p), ZeroBytes(p), Writable(p));
      if ok { ImageHasSegment(View(), f, p, |f|); }
    }

    /** The program header that one turn of the loop in load has read. */
    method LoadOne(f: seq<Byte>, i: nat) returns (ok: bool)
      requires Valid() && HeaderOk(f) && HasPhdr(f, i) && HeadersDone(View(), f, i)
      modifies this`memory, this`userPool, this`kernelPool, dir`tables, dir.pd
      ensures Valid() && |userPool| + |memory| == |old(userPool)| + |old(memory)| && Unmapped(View(), 0, PGSIZE)
      ensures ok ==> HeadersDone(View(), f, i + 1)
      ensures ok ==> var pages := PagesUpTo(f, i + 1) - PagesUpTo(f, i);
                     |userPool| == |old(userPool)| - pages && |kernelPool| >= |old(kernelPool)| - pages
      ensures ok || i >= PhdrCount(f) || !Loadable(f)
                 || |old(userPool)| < PagesUpTo(f, i + 1) - PagesUpTo(f, i)
                 || |old(kernelPool)| < PagesUpTo(f, i + 1) - PagesUpTo(f, i)
    {
      var p := Header(f, i);
      ghost var s := View();
      if p.kind == PT_DYNAMIC || p.kind == PT_INTERP || p.kind == PT_SHLIB {
        if i < PhdrCount(f) { BadHeader(f, i); }
        return false;
      }
      ok := true;
      if p.kind == PT_LOAD {
        ok := LoadHeader(f, p);
        if ok {
          NextHeader(s, View(), f, i);
        } else if i < PhdrCount(f) && |old(userPool)| >= Pages(p) && |old(kernelPool)| >= Pages(p) {
          HeaderFailed(s, f, i);
        }
      } else {
        SkipHeader(s, f, i);
      }
    }

    /** One turn of the loop in load, with the file position it has come to. */
    method LoadAt(f: seq<Byte>, i: nat, fileOfs: int) returns (ok: bool)
      requires Valid() && HeaderOk(f) && i < PhdrCount(f) && HeadersDone(View(), f, i)
      requires fileOfs == PhdrStart(f) + i * PHDR_SIZE && (i > 0 ==> PhdrStart(f) >= 0)
      modifies this`memory, this`userPool, this`kernelPool, dir`tables, dir.pd
      ensures Valid() && |userPool| + |memory| == |old(userPool)| + |old(memory)| && Unmapped(View(), 0, PGSIZE)
      ensures ok ==> HeadersDone(View(), f, i + 1) && PhdrStart(f) >= 0
      ensures var before, after := PagesUpTo(f, i), PagesUpTo(f, i + 1);
              if ok then |userPool| == |old(userPool)| - (after - before) &&
                |kernelPool| >= |old(kernelPool)| - (after - before)
              else !Loadable(f) || |old(userPool)| < after - before || |old(kernelPool)| < after - before
    {
      if fileOfs < 0 || fileOfs > |f| || fileOfs + PHDR_SIZE > |f| {
        BadHeader(f, i);
        return false;
      }
      ok := LoadOne(f, i);
    }

    /** setup_stack: a zeroed page at the top of user memory. */
    method SetupStack() returns (ok: bool)
      requires Valid()
      modifies this`memory, this`userPool, this`kernelPool, dir`tables, dir.pd
      ensures Valid() && Keeps(old(View()), View()) && AddsOnly(old(View()), View(), USER_END - PGSIZE, USER_END)
      ensures |userPool| + |memory| == |old(userPool)| + |old(memory)|
      ensures ok ==> StackReady(View()) && Unmapped(old(View()), USER_END - PGSIZE, USER_END)
      ensures ok ==> |userPool| == |old(userPool)| - 1
      ensures !ok ==> Mapped(old(View()).dir, USER_END - PGSIZE) != None || old(kernelPool) == [] || old(userPool) == []
    {
      ghost var s := View();
      ghost var kpage;
      ok, kpage := LoadPage(USER_END - PGSIZE, [], false, true);
      if ok { PageAdded(s, View(), USER_END - PGSIZE, kpage, Padded([]), true); }
    }

    /** The loop in load over the program headers. */
    method LoadHeaders(f: seq<Byte>) returns (ok: bool)
      requires Valid() && HeaderOk(f) && Unmapped(View(), 0, USER_END)
      modifies this`memory, this`userPool, this`kernelPool, dir`tables, dir.pd
      ensures Valid() && |userPool| + |memory| == |old(userPool)| + |old(memory)| && Unmapped(View(), 0, PGSIZE)
      ensures var pages := PagesUpTo(f, PhdrCount(f));
              if ok then HeadersDone(View(), f, PhdrCount(f)) && |userPool| == |old(userPool)| - pages &&
                |kernelPool| >= |old(kernelPool)| - pages
              else !Loadable(f) || |old(userPool)| < pages || |old(kernelPool)| < pages
    {
      var fileOfs := PhdrStart(f);
      var i := 0;
      NoHeaders(View(), f);
      while i < PhdrCount(f)
        invariant 0 <= i <= PhdrCount(f) && fileOfs == PhdrStart(f) + i * PHDR_SIZE && (i > 0 ==> PhdrStart(f) >= 0)
        invariant Valid() && |userPool| + |memory| == |old(userPool)| + |old(memory)|
        invariant HeadersDone(View(), f, i)
        invariant |userPool| == |old(userPool)| - PagesUpTo(f, i) && |kernelPool| >= |old(kernelPool)| - PagesUpTo(f, i)
      {
        PagesGrow(f, i + 1, PhdrCount(f));
        ok := LoadAt(f, i, fileOfs);
        if !ok { return; }
        fileOfs := fileOfs + PHDR_SIZE;
        i := i + 1;
      }
      ok := true;
    }

    /** load, on a process with no user mappings yet: the executable's entry point and the initial stack pointer.
        When there are pages enough it succeeds exactly on the files whose bytes are acceptable, and then every segment
        is in memory as the file says. */
    method Load(f: seq<Byte>) returns (ok: bool, entry: nat, esp: nat)
      requires Valid() && |f| < TWO31 && Unmapped(View(), 0, USER_END)
      modifies this`memory, this`userPool, this`kernelPool, dir`tables, dir.pd
      ensures Valid() && |userPool| + |memory| == |old(userPool)| + |old(memory)|
      ensures ok ==> Accepted(f) && AsFileSays(View(), f)
      ensures ok ==> entry == U32(f, 24) && esp == 0xc000_0000 && StackReady(View())
      ensures ok ==> |userPool| == |old(userPool)| - PagesNeeded(f, U16(f, 44)) - 1
      ensures Accepted(f) ==> (var pages := PagesNeeded(f, U16(f, 44));
                               |old(userPool)| > pages && |old(kernelPool)| > pages ==> ok)
      ensures Unmapped(View(), 0, PGSIZE)
    {
      LoadMeans(f);
      ok, entry, esp := LoadImage(f);
      if ok { LoadedMeans(View(), f); }
    }

    /** What load does, in terms of the headers as it reads them. */
    method LoadImage(f: seq<Byte>) returns (ok: bool, entry: nat, esp: nat)
      requires Valid() && |f| < TWO31 && Unmapped(View(), 0, USER_END)
      modifies this`memory, this`userPool, this`kernelPool, dir`tables, dir.pd
      ensures Valid() && |userPool| + |memory| == |old(userPool)| + |old(memory)|
      ensures ok ==> Loadable(f) && Loaded(View(), f, PhdrCount(f))
      ensures ok ==> entry == Full(f, 24) && esp == USER_END && StackReady(View())
      ensures ok ==> |userPool| == |old(userPool)| - PagesUpTo(f, PhdrCount(f)) - 1
      ensures Loadable(f) ==> (var pages := PagesUpTo(f, PhdrCount(f));
                               |old(userPool)| > pages && |old(kernelPool)| > pages ==> ok)
      ensures Unmapped(View(), 0, PGSIZE)
    {
      ok, entry, esp := false, 0, 0;
      if !HeaderOk(f) { return; }
      var loaded := LoadHeaders(f);
      if !loaded { return; }
      ghost var s := View();
      var stack := SetupStack();
      if !stack {
        if Mapped(s.dir, USER_END - PGSIZE) != None { StackClash(s, f, PhdrCount(f)); }
        return;
      }
      DoneIsLoadable(s, f);
      LoadedStays(s, View(), f, PhdrCount(f));
      ok, entry, esp := true, Full(f, 24), USER_END;
    }
  }

  /** Free pages, each listed once. */
  ghost predicate Stock(pool: seq<Kpage>) { NoDup(pool) && forall k :: k in pool ==> KernelPage(k.addr) }

  /** Free pages that are not page tables. */
  ghost predicate TablePages(pool: seq<Kpage>, tables: map<Kpage, seq<Word>>)
  {
    Stock(pool) && forall k :: k in pool ==> k !in tables
  }

  lemma FirstOfStock(pool: seq<Kpage>)
    requires Stock(pool)
    ensures pool != [] ==> Stock(pool[1..]) && KernelPage(pool[0].addr) && pool[0] !in pool[1..]
    ensures pool != [] ==> forall k :: k in pool[1..] ==> k in pool
  {
    if pool != [] { assert pool == [pool[0]] + pool[1..]; }
  }

  /** The page is mapped to the frame and nothing else has changed. */
  ghost predicate MapsOnly(d: Dir, d': Dir, upage: Addr, kpage: Kpage, writable: bool)
  {
    && DirOk(d) && DirOk(d')
    && (forall a: Addr :: PgNo(a) != PgNo(upage) ==> Mapped(d', a) == Mapped(d, a))
    && (forall a: Addr :: PgNo(a) == PgNo(upage) ==>
      Mapped(d', a) == Some(Mapping(kpage, writable, true, false, false)))
  }

  lemma SetPageMapsOnly(d: Dir, upage: Addr, kpage: Kpage, writable: bool, pt: Option<Kpage>)
    requires DirOk(d) && (pt.Some? ==> pt.value !in d.tables) && KernelPage(kpage.addr)
    ensures var r := Pagedir.SetPage(d, upage, kpage, writable, pt);
            && (r.ok <==> d.dir[PdNo(upage)].Some? || pt.Some?) && (!r.ok ==> r.d == d)
            && (r.ok ==> MapsOnly(d, r.d, upage, kpage, writable))
            && r.d.tables.Keys == (if r.ok && d.dir[PdNo(upage)].None? then d.tables.Keys + {pt.value}
              else d.tables.Keys)
  {
    var r := Pagedir.SetPage(d, upage, kpage, writable, pt);
    SetPageMaps(d, upage, kpage, writable, pt, upage);
    forall a: Addr | r.ok && PgNo(a) != PgNo(upage) ensures Mapped(r.d, a) == Mapped(d, a) {
      SameIndexes(a, upage);
      SetPageMaps(d, upage, kpage, writable, pt, a);
    }
    forall a: Addr | r.ok && PgNo(a) == PgNo(upage)
      ensures Mapped(r.d, a) == Some(Mapping(kpage, writable, true, false, false))
    {
      SameIndexes(a, upage);
      SetPageMaps(d, upage, kpage, writable, pt, a);
    }
  }

  lemma UnmappedPage(d: Dir, upage: Addr)
    requires DirOk(d) && Pagedir.GetPage(d, upage) == None
    ensures forall a: Addr :: PgNo(a) == PgNo(upage) ==> Mapped(d, a) == None
  {
    forall a: Addr | PgNo(a) == PgNo(upage) ensures Mapped(d, a) == None { SameIndexes(a, upage); }
  }
}
