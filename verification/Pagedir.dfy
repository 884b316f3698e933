/** Two-level page tables (threads/pte.h, threads/vaddr.h, userprog/pagedir.c). */
module Pagedir {
  import opened Common
  import opened TwoLevel

  /** A directory or table entry, or a page-aligned kernel address: bit operations matter. */
  type Word = bv32

  /** A virtual address: shifts and masks are division and remainder. */
  type Addr = a: int | 0 <= a < TWO32

  const PGSIZE: nat := 4096
  const USER_END: nat := 0xc000_0000      // PHYS_BASE as a number
  const PHYS_BASE: Word := 0xc000_0000
  const PTE_ADDR: Word := 0xffff_f000
  const PTE_P: Word := 0x1
  const PTE_W: Word := 0x2
  const PTE_U: Word := 0x4
  const PTE_A: Word := 0x20
  const PTE_D: Word := 0x40
  const ENTRIES: nat := 1024
  const USER_TABLES: nat := 768           // pd_no (PHYS_BASE)

  // ---------------------------------------------------------------- addresses

  function PgOfs(va: Addr): nat { va % PGSIZE }

  function PgNo(va: Addr): nat { va / PGSIZE }

  function PdNo(va: Addr): (i: nat)
    ensures i < ENTRIES && (va < USER_END <==> i < USER_TABLES)
  {
    va / 0x40_0000
  }

  function PtNo(va: Addr): (i: nat)
    ensures i < ENTRIES
  {
    va / PGSIZE % ENTRIES
  }

  predicate IsUser(va: Addr) { va < USER_END }

  predicate SamePage(va: Addr, vb: Addr) { PdNo(va) == PdNo(vb) && PtNo(va) == PtNo(vb) }

  /** Addresses with the same directory and table index are on the same page. */
  lemma SameIndexes(va: Addr, vb: Addr)
    ensures SamePage(va, vb) <==> PgNo(va) == PgNo(vb)
  {
    PageIndexes(va);
    PageIndexes(vb);
  }

  lemma PageIndexes(va: Addr)
    ensures PgNo(va) == PdNo(va) * ENTRIES + PtNo(va)
  {
    DivDiv(va, PGSIZE, ENTRIES);
  }

  // ---------------------------------------------------------------- entries

  function Ptov(pa: Word): Word { pa + PHYS_BASE }

  function Vtop(va: Word): Word { va - PHYS_BASE }

  /** Pages the page allocator hands out: aligned, above PHYS_BASE. */
  predicate KernelPage(page: Word) { page >= PHYS_BASE && page & !PTE_ADDR == 0 }

  function PdeCreate(pt: Word): Word { Vtop(pt) | PTE_U | PTE_P | PTE_W }

  function PteCreateUser(page: Word, writable: bool): Word
  {
    Vtop(page) | PTE_P | (if writable then PTE_W else 0) | PTE_U
  }

  function PageOf(e: Word): Word { Ptov(e & PTE_ADDR) }

  predicate Has(e: Word, flag: Word) { e & flag != 0 }

  /** ptov's assertion holds of the address in the entry. */
  predicate Physical(e: Word) { e & PTE_ADDR < PHYS_BASE }

  /** Entries decode to what they were made from. */
  lemma EntryRoundTrip(page: Word, writable: bool)
    requires KernelPage(page)
    ensures var e := PteCreateUser(page, writable);
            PageOf(e) == page && Has(e, PTE_P) && Has(e, PTE_U) && (Has(e, PTE_W) <==> writable) && !Has(e, PTE_D) &&
              !Has(e, PTE_A) && Physical(e)
    ensures var e := PdeCreate(page); PageOf(e) == page && Has(e, PTE_P) && e != 0 && Physical(e)
  {
  }

  /** What the processor reads: bits 12 to 31 are the physical page, bit 0 says present, bit 1 writable, bit 2 user,
      bit 5 accessed and bit 6 dirty. */
  lemma EntryMeans(page: Word, writable: bool)
    requires KernelPage(page)
    ensures PteCreateUser(page, writable) == (page - 0xc000_0000) + (if writable then 7 else 5)
    ensures PdeCreate(page) == (page - 0xc000_0000) + 7
  {
  }

  lemma PresentBit(e: Word)
    ensures Has(e, PTE_P) <==> e & 1 == 1
  {
  }

  lemma WritableBit(e: Word)
    ensures Has(e, PTE_W) <==> (e >> 1) & 1 == 1
  {
  }

  lemma UserBit(e: Word)
    ensures Has(e, PTE_U) <==> (e >> 2) & 1 == 1
  {
  }

  lemma AccessedBit(e: Word)
    ensures Has(e, PTE_A) <==> (e >> 5) & 1 == 1
  {
  }

  lemma DirtyBit(e: Word)
    ensures Has(e, PTE_D) <==> (e >> 6) & 1 == 1
  {
  }

  // ---------------------------------------------------------------- page directories

  /** A page directory as lookup_page reads it: the page tables by the addresses of their pages, and where
      each directory entry points (a zero entry nowhere). */
  type Dir = Tables<Kpage, Word>

  /** A page of physical memory, by its kernel virtual address. */
  datatype Kpage = Kpage(addr: Word)

  function Pointer(pde: Word): Option<Kpage> { if pde == 0 then None else Some(Kpage(PageOf(pde))) }

  ghost predicate DirOk(d: Dir) { |d.dir| == ENTRIES && TablesOk(d, ENTRIES) }

  /** lookup_page without create: the entry of the page va is on, if there is a table for it. */
  function Lookup(d: Dir, va: Addr): Option<Word>
    requires DirOk(d)
  {
    EntryOf(d, ENTRIES, PdNo(va), PtNo(va))
  }

  /** Two addresses whose entry is in the same slot of the same table are on the same page. */
  lemma NoSharedEntry(d: Dir, va: Addr, vb: Addr)
    requires DirOk(d) && d.dir[PdNo(va)].Some? && d.dir[PdNo(va)] == d.dir[PdNo(vb)] && PtNo(va) == PtNo(vb)
    ensures PgNo(va) == PgNo(vb)
  {
    SameIndexes(va, vb);
  }

  datatype Answer = Answer(d: Dir, ok: bool)

  function ZeroTable(): (t: seq<Word>)
    ensures |t| == ENTRIES && forall j :: 0 <= j < ENTRIES ==> t[j] == 0
  {
    seq(ENTRIES, _ => 0)
  }

  /** pagedir_set_page; pt is the page table that palloc_get_page returns if one is asked for. */
  function SetPage(d: Dir, upage: Addr, kpage: Kpage, writable: bool, pt: Option<Kpage>): Answer
    requires DirOk(d) && (pt.Some? ==> pt.value !in d.tables)
  {
    SetEntry(d, PdNo(upage), PtNo(upage), PteCreateUser(kpage.addr, writable), pt)
  }

  function SetEntry(d: Dir, i: nat, j: nat, e: Word, pt: Option<Kpage>): Answer
    requires DirOk(d) && i < ENTRIES && j < ENTRIES && (pt.Some? ==> pt.value !in d.tables)
  {
    if d.dir[i].Some? then Answer(Put(d, ENTRIES, i, j, e), true)
    else if pt.None? then Answer(d, false)
    else
      AddIs(d, ENTRIES, i, pt.value, ZeroTable(), 0);
      Answer(Put(Add(d, i, pt.value, ZeroTable()), ENTRIES, i, j, e), true)
  }

  lemma SetEntryIs(d: Dir, i: nat, j: nat, e: Word, pt: Option<Kpage>, i': nat, j': nat)
    requires DirOk(d) && i < ENTRIES && j < ENTRIES && (pt.Some? ==> pt.value !in d.tables)
    requires i' < ENTRIES && j' < ENTRIES
    ensures var r := SetEntry(d, i, j, e, pt);
            && DirOk(r.d) && (r.ok <==> d.dir[i].Some? || pt.Some?) && (!r.ok ==> r.d == d)
            && EntryOf(r.d, ENTRIES, i', j') ==
               if !r.ok then EntryOf(d, ENTRIES, i', j')
               else if i' == i && j' == j then Some(e)
               else if i' == i && d.dir[i].None? then Some(0)
               else EntryOf(d, ENTRIES, i', j')
  {
    if d.dir[i].Some? {
      PutIs(d, ENTRIES, i, j, e);
    } else if pt.Some? {
      AddIs(d, ENTRIES, i, pt.value, ZeroTable(), 0);
      PutIs(Add(d, i, pt.value, ZeroTable()), ENTRIES, i, j, e);
    }
  }

  /** pagedir_get_page */
  function GetPage(d: Dir, ua: Addr): Option<Kaddr>
    requires DirOk(d)
  {
    Translate(Lookup(d, ua), ua)
  }

  /** A byte of physical memory, by its page and its offset there. */
  datatype Kaddr = Kaddr(page: Kpage, ofs: nat)

  function Translate(e: Option<Word>, ua: Addr): Option<Kaddr>
  {
    if e.Some? && Has(e.value, PTE_P) then Some(Kaddr(Kpage(PageOf(e.value)), PgOfs(ua))) else None
  }

  /** An entry that has a table is replaced. */
  function Change(d: Dir, va: Addr, e: Word): Dir
    requires DirOk(d)
  {
    if d.dir[PdNo(va)].Some? then Put(d, ENTRIES, PdNo(va), PtNo(va), e) else d
  }

  /** pagedir_clear_page */
  function ClearPage(d: Dir, upage: Addr): Dir
    requires DirOk(d)
  {
    var e := Lookup(d, upage);
    if e.Some? then Change(d, upage, Cleared(e.value)) else d
  }

  function Cleared(e: Word): Word { if Has(e, PTE_P) then e & !PTE_P else e }

  /** pagedir_set_dirty and pagedir_set_accessed, by flag. */
  function SetFlag(d: Dir, vpage: Addr, flag: Word, value: bool): Dir
    requires DirOk(d)
  {
    var e := Lookup(d, vpage);
    if e.Some? then Change(d, vpage, Flagged(e.value, flag, value)) else d
  }

  function Flagged(e: Word, flag: Word, value: bool): Word { if value then e | flag else e & !flag }

  // ---------------------------------------------------------------- the map they implement

  /** What the hardware sees of a page: frame, access rights, and what it has recorded. */
  datatype Mapping = Mapping(frame: Kpage, writable: bool, user: bool, dirty: bool, accessed: bool)

  function MappingOf(e: Option<Word>): Option<Mapping>
  {
    if e.Some? && Has(e.value, PTE_P) then
      Some(Mapping(Kpage(PageOf(e.value)), Has(e.value, PTE_W), Has(e.value, PTE_U), Has(e.value, PTE_D),
        Has(e.value, PTE_A)))
    else None
  }

  function Mapped(d: Dir, va: Addr): Option<Mapping>
    requires DirOk(d)
  {
    MappingOf(Lookup(d, va))
  }

  lemma EmptyEntry(ua: Addr)
    ensures MappingOf(Some(0)) == None == MappingOf(None) && Translate(Some(0), ua) == None == Translate(None, ua)
  {
  }

  lemma UserEntry(page: Word, writable: bool, ua: Addr)
    requires KernelPage(page)
    ensures MappingOf(Some(PteCreateUser(page, writable))) == Some(Mapping(Kpage(page), writable, true, false, false))
    ensures Translate(Some(PteCreateUser(page, writable)), ua) == Some(Kaddr(Kpage(page), PgOfs(ua)))
  {
    EntryRoundTrip(page, writable);
  }

  /** A mapping, once set, is what every address of the page translates to; no other page is affected,
      not even by a new page table.  The call fails only for want of a page table, and then changes nothing. */
  lemma SetPageMaps(d: Dir, upage: Addr, kpage: Kpage, writable: bool, pt: Option<Kpage>, ua: Addr)
    requires DirOk(d) && (pt.Some? ==> pt.value !in d.tables) && KernelPage(kpage.addr)
    ensures var r := SetPage(d, upage, kpage, writable, pt);
            && DirOk(r.d) && (r.ok <==> d.dir[PdNo(upage)].Some? || pt.Some?) && (!r.ok ==> r.d == d)
            && (r.ok && SamePage(ua, upage) ==>
                  Mapped(r.d, ua) == Some(Mapping(kpage, writable, true, false, false)) &&
                    GetPage(r.d, ua) == Some(Kaddr(kpage, PgOfs(ua))))
            && (!SamePage(ua, upage) ==> Mapped(r.d, ua) == Mapped(d, ua) && GetPage(r.d, ua) == GetPage(d, ua))
  {
    SetEntryIs(d, PdNo(upage), PtNo(upage), PteCreateUser(kpage.addr, writable), pt, PdNo(ua), PtNo(ua));
    UserEntry(kpage.addr, writable, ua);
    EmptyEntry(ua);
  }

  lemma ChangeIs(d: Dir, va: Addr, e: Word, ua: Addr)
    requires DirOk(d) && Lookup(d, va).Some?
    ensures DirOk(Change(d, va, e)) && Lookup(Change(d, va, e), ua) ==
              if SamePage(ua, va) then Some(e) else Lookup(d, ua)
  {
    PutIs(d, ENTRIES, PdNo(va), PtNo(va), e);
  }

  /** Only the present bit goes; the rest of the entry is kept. */
  lemma ClearedBits(e: Word)
    ensures !Has(Cleared(e), PTE_P) && Cleared(e) | PTE_P == e | PTE_P && (!Has(e, PTE_P) ==> Cleared(e) == e)
  {
  }

  lemma ClearedEntry(e: Word, ua: Addr)
    ensures MappingOf(Some(Cleared(e))) == None && Translate(Some(Cleared(e)), ua) == None
  {
    ClearedBits(e);
  }

  /** Clearing a page unmaps it, keeps the rest of its entry, and touches no other page. */
  lemma ClearPageUnmaps(d: Dir, upage: Addr, ua: Addr)
    requires DirOk(d)
    ensures var d' := ClearPage(d, upage);
            && DirOk(d')
            && (SamePage(ua, upage) ==>
                  && Mapped(d', ua) == None && GetPage(d', ua) == None
                  && Lookup(d', ua) == if Lookup(d, ua).Some? then Some(Cleared(Lookup(d, ua).value)) else None)
            && (!SamePage(ua, upage) ==> Lookup(d', ua) == Lookup(d, ua))
  {
    var e := Lookup(d, upage);
    if e.Some? {
      ClearedEntry(e.value, ua);
      ChangeIs(d, upage, Cleared(e.value), ua);
    }
  }

  lemma FlaggedEntry(e: Word, flag: Word, value: bool)
    requires flag == PTE_D || flag == PTE_A
    ensures (Has(Flagged(e, flag, value), flag) <==> value)
    ensures MappingOf(Some(Flagged(e, flag, value))) == WithFlag(MappingOf(Some(e)), flag, value)
  {
  }

  function WithFlag(m: Option<Mapping>, flag: Word, value: bool): Option<Mapping>
  {
    if m.None? then None else Some(if flag == PTE_D then m.value.(dirty := value) else m.value.(accessed := value))
  }

  /** The dirty and accessed bits are set and cleared without disturbing the mapping, each other, or other pages. */
  lemma SetFlagOnly(d: Dir, vpage: Addr, flag: Word, value: bool, ua: Addr)
    requires DirOk(d) && (flag == PTE_D || flag == PTE_A)
    ensures var d' := SetFlag(d, vpage, flag, value);
            && DirOk(d')
            && (SamePage(ua, vpage) ==>
                  && Mapped(d', ua) == WithFlag(Mapped(d, ua), flag, value)
                  && Lookup(d', ua).Some? == Lookup(d, ua).Some? &&
                    (Lookup(d', ua).Some? ==> (Has(Lookup(d', ua).value, flag) <==> value)))
            && (!SamePage(ua, vpage) ==> Lookup(d', ua) == Lookup(d, ua))
  {
    var e := Lookup(d, vpage);
    if e.Some? {
      FlaggedEntry(e.value, flag, value);
      ChangeIs(d, vpage, Flagged(e.value, flag, value), ua);
    }
  }
}
