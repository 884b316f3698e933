/** Page directories updated in place (userprog/pagedir.c), proved against Pagedir. */
module PageTable {
  import opened Common
  import opened TwoLevel
  import opened Pagedir

  function Pointers(pd: seq<Word>): (r: seq<Option<Kpage>>)
    ensures |r| == |pd| && forall i :: 0 <= i < |pd| ==> r[i] == Pointer(pd[i])
  {
    seq(|pd|, i requires 0 <= i < |pd| => Pointer(pd[i]))
  }

  function Frame(e: Word): Option<Kpage> { if Has(e, PTE_P) then Some(Kpage(PageOf(e))) else None }

  function Frames(table: seq<Word>): (r: seq<Option<Kpage>>)
    ensures |r| == |table| && forall j :: 0 <= j < |table| ==> r[j] == Frame(table[j])
  {
    seq(|table|, j requires 0 <= j < |table| => Frame(table[j]))
  }

  function Leaves(tables: map<Kpage, seq<Word>>): map<Kpage, seq<Option<Kpage>>>
  {
    map k | k in tables :: Frames(tables[k])
  }

  lemma TableExists(d: Dir, i: nat)
    requires DirOk(d) && i < ENTRIES && d.dir[i].Some?
    ensures d.dir[i].value in d.tables && |d.tables[d.dir[i].value]| == ENTRIES
  {
  }

  lemma AlreadyClear(d: Dir, upage: Addr, e: Word)
    requires DirOk(d) && Lookup(d, upage) == Some(e) && !Has(e, PTE_P)
    ensures Pagedir.ClearPage(d, upage) == d
  {
    ClearedBits(e);
    PutSame(d, ENTRIES, PdNo(upage), PtNo(upage));
  }

  class PageDirectory {
    const pd: array<Word>
    const page: Kpage                // where the directory itself is stored
    var tables: map<Kpage, seq<Word>>

    ghost function View(): Dir
      reads this, pd
    {
      Tables(Pointers(pd[..]), tables)
    }

    /** Every directory entry that is not zero is present. */
    ghost predicate Valid()
      reads this, pd
    {
      DirOk(View()) && pd.Length == ENTRIES && forall i :: 0 <= i < ENTRIES && pd[i] != 0 ==> Has(pd[i], PTE_P)
    }

    /** pagedir_create, on a page: a copy of the kernel's directory, which has no user mappings. */
    constructor (page: Kpage, init: seq<Word>, kernelTables: map<Kpage, seq<Word>>)
      requires |init| == ENTRIES && DirOk(Tables(Pointers(init), kernelTables))
      requires forall i :: 0 <= i < ENTRIES && init[i] != 0 ==> Has(init[i], PTE_P)
      ensures Valid() && fresh(pd) && this.page == page && View() == Tables(Pointers(init), kernelTables)
    {
      this.page := page;
      pd := new Word[ENTRIES](i requires 0 <= i < ENTRIES => init[i]);
      tables := kernelTables;
      new;
      assert pd[..] == init;
    }

    /** lookup_page: the table and slot of the entry for va. */
    method LookupPage(va: Addr, create: bool, pt: Option<Kpage>) returns (found: bool, table: Kpage, j: nat)
      requires Valid() && (create ==> IsUser(va))
      requires pt.Some? ==> KernelPage(pt.value.addr) && pt.value !in tables
      modifies this`tables, pd
      ensures Valid()
      ensures var d, i := old(View()), PdNo(va);
              if d.dir[i].None? && create && pt.Some? then View() == Add(d, i, pt.value, ZeroTable()) else View() == d
      ensures found == View().dir[PdNo(va)].Some? && j == PtNo(va)
      ensures found ==> table == View().dir[PdNo(va)].value && table in tables && |tables[table]| == ENTRIES
    {
      var i := PdNo(va);
      j := PtNo(va);
      if pd[i] == 0 {
        if !create || pt.None? { return false, Kpage(0), j; }
        InstallTable(i, pt.value);
      }
      found, table := true, Kpage(PageOf(pd[i]));
      TableExists(View(), i);
    }

    method InstallTable(i: nat, pt: Kpage)
      requires Valid() && i < ENTRIES && pd[i] == 0 && KernelPage(pt.addr) && pt !in tables
      modifies this`tables, pd
      ensures Valid() && View() == Add(old(View()), i, pt, ZeroTable()) && pd[i] != 0 && Kpage(PageOf(pd[i])) == pt
    {
      AddIs(View(), ENTRIES, i, pt, ZeroTable(), 0);
      EntryRoundTrip(pt.addr, true);
      pd[i] := PdeCreate(pt.addr);
      tables := tables[pt := ZeroTable()];
      assert Pointers(pd[..]) == old(Pointers(pd[..]))[i := Some(pt)];
    }

    /** pagedir_set_page: the page must not be mapped already. */
    method SetPage(upage: Addr, kpage: Kpage, writable: bool, pt: Option<Kpage>) returns (ok: bool)
      requires Valid() && IsUser(upage) && PgOfs(upage) == 0 && KernelPage(kpage.addr) && Mapped(View(), upage) == None
      requires pt.Some? ==> KernelPage(pt.value.addr) && pt.value !in tables
      modifies this`tables, pd
      ensures Valid() && Answer(View(), ok) == Pagedir.SetPage(old(View()), upage, kpage, writable, pt)
    {
      SetEntryIs(View(), PdNo(upage), PtNo(upage), PteCreateUser(kpage.addr, writable), pt, 0, 0);
      var found, table, j := LookupPage(upage, true, pt);
      ok := found;
      if ok {
        tables := tables[table := tables[table][j := PteCreateUser(kpage.addr, writable)]];
      }
    }

    /** pagedir_get_page */
    method GetPage(ua: Addr) returns (kernel: Option<Kaddr>)
      requires Valid() && IsUser(ua)
      modifies this`tables, pd
      ensures Valid() && View() == old(View()) && kernel == Pagedir.GetPage(View(), ua)
    {
      kernel := None;
      var found, table, j := LookupPage(ua, false, None);
      if found {
        var pte := tables[table][j];
        if pte & PTE_P != 0 { kernel := Some(Kaddr(Kpage(PageOf(pte)), PgOfs(ua))); }
      }
    }

    /** An entry that LookupPage found is overwritten. */
    method StoreEntry(va: Addr, table: Kpage, j: nat, e: Word)
      requires Valid() && View().dir[PdNo(va)] == Some(table) && j == PtNo(va)
      requires table in tables && |tables[table]| == ENTRIES
      modifies this`tables
      ensures Valid() && View() == Change(old(View()), va, e)
    {
      ChangeIs(View(), va, e, va);
      tables := tables[table := tables[table][j := e]];
    }

    /** pagedir_clear_page */
    method ClearPage(upage: Addr)
      requires Valid() && IsUser(upage) && PgOfs(upage) == 0
      modifies this`tables, pd
      ensures Valid() && View() == Pagedir.ClearPage(old(View()), upage)
    {
      var found, table, j := LookupPage(upage, false, None);
      if found {
        var pte := tables[table][j];
        if Has(pte, PTE_P) {
          StoreEntry(upage, table, j, Cleared(pte));
        } else {
          AlreadyClear(View(), upage, pte);
        }
      }
    }

    /** pagedir_is_dirty and pagedir_is_accessed */
    method IsSet(vpage: Addr, flag: Word) returns (set_: bool)
      requires Valid()
      modifies this`tables, pd
      ensures Valid() && View() == old(View())
      ensures set_ == (Lookup(View(), vpage).Some? && Has(Lookup(View(), vpage).value, flag))
    {
      var found, table, j := LookupPage(vpage, false, None);
      set_ := found && tables[table][j] & flag != 0;
    }

    /** pagedir_set_dirty and pagedir_set_accessed */
    method SetFlag(vpage: Addr, flag: Word, value: bool)
      requires Valid()
      modifies this`tables, pd
      ensures Valid() && View() == Pagedir.SetFlag(old(View()), vpage, flag, value)
    {
      var found, table, j := LookupPage(vpage, false, None);
      if found {
        var pte := tables[table][j];
        StoreEntry(vpage, table, j, Flagged(pte, flag, value));
      }
    }

    /** pagedir_destroy: the pages freed, in order. */
    method Destroy() returns (freed: seq<Kpage>)
      requires Valid()
      ensures freed == Contents(View().dir, Leaves(tables), USER_TABLES) + [page]
    {
      freed := [];
      var i := 0;
      while i < USER_TABLES
        invariant i <= USER_TABLES && freed == Contents(View().dir, Leaves(tables), i)
      {
        if pd[i] & PTE_P != 0 {
          var pages := DestroyTable(i);
          freed := freed + pages;
        }
        i := i + 1;
      }
      freed := freed + [page];
    }

    method DestroyTable(i: nat) returns (freed: seq<Kpage>)
      requires Valid() && i < ENTRIES && pd[i] != 0
      ensures freed == Named(Leaves(tables)[Kpage(PageOf(pd[i]))], ENTRIES) + [Kpage(PageOf(pd[i]))]
    {
      var pt := Kpage(PageOf(pd[i]));
      freed := [];
      var j := 0;
      while j < ENTRIES
        invariant j <= ENTRIES && freed == Named(Leaves(tables)[pt], j)
      {
        var pte := tables[pt][j];
        if pte & PTE_P != 0 { freed := freed + [Kpage(PageOf(pte))]; }
        j := j + 1;
      }
      freed := freed + [pt];
    }
  }

  // ---------------------------------------------------------------- destruction

  /** The user part of the directory: its page tables, the frames they map and the directory's own page are all
      different pages. */
  ghost predicate OwnsApart(d: Dir, page: Kpage)
    requires DirOk(d)
  {
    Apart(d.dir[..USER_TABLES], Leaves(d.tables)) && !Holds(d.dir[..USER_TABLES], Leaves(d.tables), USER_TABLES, page)
  }

  /** pagedir_destroy frees each present user frame, each user page table and the directory, once each. */
  lemma DestroyFreesOnce(d: Dir, page: Kpage, x: Kpage)
    requires DirOk(d) && OwnsApart(d, page)
    ensures var freed := Contents(d.dir, Leaves(d.tables), USER_TABLES) + [page];
            NoDup(freed) &&
            (x in freed <==>
               || x == page
               || (exists i :: 0 <= i < USER_TABLES && d.dir[i] == Some(x))
               || (exists i: nat, j: nat :: i < USER_TABLES && Leaf(d.dir, Leaves(d.tables), i, j) == Some(x)))
  {
    var dir, leaves := d.dir[..USER_TABLES], Leaves(d.tables);
    PrefixContents(d.dir, leaves, USER_TABLES, USER_TABLES);
    ContentsOnce(dir, leaves, USER_TABLES);
    ContentsAre(dir, leaves, USER_TABLES, page);
    ContentsAre(d.dir, leaves, USER_TABLES, x);
    JoinOnce(Contents(dir, leaves, USER_TABLES), [page]);
  }

  lemma {:induction false} PrefixContents(dir: seq<Option<Kpage>>, leaves: map<Kpage, seq<Option<Kpage>>>, m: nat,
                                          n: nat)
    requires n <= m <= |dir| && forall i :: 0 <= i < |dir| && dir[i].Some? ==> dir[i].value in leaves
    ensures Contents(dir[..m], leaves, n) == Contents(dir, leaves, n)
  {
    if n > 0 { PrefixContents(dir, leaves, m, n - 1); }
  }
}
