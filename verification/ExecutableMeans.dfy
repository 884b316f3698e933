/** The loader's reading of an executable agrees with what the file says. */
module ExecutableMeans {
  import opened Common
  import opened Pagedir
  import opened LoaderModel
  import opened Executable
  import opened ElfSpec

  // ---------------------------------------------------------------- headers

  lemma WordIs(f: seq<Byte>, i: nat)
    requires i + 4 <= |f|
    ensures Full(f, i) == U32(f, i) < TWO32
  {
  }

  lemma FileIs(f: seq<Byte>)
    ensures HeaderOk(f) <==> GoodFile(f)
    ensures HeaderOk(f) ==> PhdrCount(f) == U16(f, 44)
  {
    if 52 <= |f| {
      IdentIs(f);
      WordIs(f, 20);
    }
  }

  lemma IdentIs(f: seq<Byte>)
    requires 52 <= |f|
    ensures f[..7] == ELF_IDENT <==>
              f[0] == 0x7f && f[1] == 0x45 && f[2] == 0x4c && f[3] == 0x46 && f[4] == 1 && f[5] == 1 && f[6] == 1
  {
    var s := f[..7];
    assert s == ELF_IDENT <==> forall k :: 0 <= k < 7 ==> s[k] == ELF_IDENT[k];
    assert s[0] == f[0] && s[1] == f[1] && s[2] == f[2] && s[3] == f[3] && s[4] == f[4] && s[5] == f[5] && s[6] == f[6];
  }

  lemma EntryAt(f: seq<Byte>, i: nat)
    requires HeaderOk(f) && |f| < TWO31
    ensures HasPhdr(f, i) <==> At(f, i) + 32 <= |f|
    ensures HasPhdr(f, i) ==> PhdrStart(f) + i * PHDR_SIZE == At(f, i)
  {
    WordIs(f, 28);
  }

  lemma LowBit(b: nat, rest: nat)
    ensures (b + 0x100 * rest) / 2 % 2 == b / 2 % 2
  {
    assert b + 0x100 * rest == b + 4 * (64 * rest);
    FourTimes(b, 64 * rest);
  }

  lemma FourTimes(b: nat, k: nat)
    ensures (b + 4 * k) / 2 % 2 == b / 2 % 2
  {
    assert (b + 4 * k) / 2 == b / 2 + 2 * k;
  }

  lemma HeaderReads(f: seq<Byte>, i: nat)
    requires HeaderOk(f) && |f| < TWO31 && HasPhdr(f, i)
    ensures var p, h := Header(f, i), At(f, i);
            && h + 32 <= |f| && Words(p) && p.kind == U32(f, h) && p.offset == U32(f, h + 4) && p.vaddr == U32(f, h + 8)
            && p.filesz == U32(f, h + 16) && p.memsz == U32(f, h + 20) && (Writable(p) <==> MayWrite(f, h))
  {
    EntryAt(f, i);
    var h := At(f, i);
    WordIs(f, h);
    WordIs(f, h + 4);
    WordIs(f, h + 8);
    WordIs(f, h + 16);
    WordIs(f, h + 20);
    WordIs(f, h + 24);
    LowBit(f[h + 24] as int, f[h + 25] as int + 0x100 * f[h + 26] as int + 0x1_0000 * f[h + 27] as int);
  }

  // ---------------------------------------------------------------- segments

  lemma EndIs(p: Phdr, fileLength: nat)
    requires Words(p) && ValidateSegment(p, fileLength)
    ensures SegmentEnd(p) == ((p.vaddr + p.memsz - 1) / 4096 + 1) * 4096 && MemPage(p) == p.vaddr / 4096 * 4096
    ensures Pages(p) == (p.vaddr + p.memsz - 1) / 4096 - p.vaddr / 4096 + 1 >= 1
    ensures SegmentEnd(p) <= USER_END - PGSIZE <==> p.vaddr + p.memsz <= 0xbfff_f000
  {
    WholePagesOf(p, fileLength);
    EndOf(p.vaddr, p.memsz, SegmentEnd(p));
  }

  lemma WholePagesOf(p: Phdr, fileLength: nat)
    requires Words(p) && ValidateSegment(p, fileLength)
    ensures SegmentEnd(p) % 4096 == 0 && p.vaddr + p.memsz <= SegmentEnd(p) < p.vaddr + p.memsz + 4096 && p.memsz > 0
    ensures MemPage(p) == p.vaddr - p.vaddr % 4096 && ReadBytes(p) + ZeroBytes(p) == SegmentEnd(p) - MemPage(p)
  {
    SegmentCounts(p, fileLength);
    SegmentIsValid(p, fileLength);
    RoundUpIs(p.vaddr % PGSIZE + p.memsz);
  }

  lemma EndOf(vaddr: nat, memsz: nat, end: nat)
    requires memsz > 0 && end % 4096 == 0 && vaddr + memsz <= end < vaddr + memsz + 4096
    ensures end == ((vaddr + memsz - 1) / 4096 + 1) * 4096
    ensures (end - (vaddr - vaddr % 4096)) / 4096 == (vaddr + memsz - 1) / 4096 - vaddr / 4096 + 1
    ensures end <= USER_END - PGSIZE <==> vaddr + memsz <= 0xbfff_f000
  {
    var k := end / 4096;
    assert end == 4096 * k;
    assert (vaddr + memsz - 1) / 4096 == k - 1;
  }

  lemma SegmentIs(f: seq<Byte>, i: nat)
    requires HeaderOk(f) && |f| < TWO31 && HasPhdr(f, i)
    ensures var p := Header(f, i);
            ValidateSegment(p, |f|) && Complete(p, |f|) && SegmentEnd(p) <= USER_END - PGSIZE <==>
              GoodSegment(f, At(f, i))
  {
    HeaderReads(f, i);
    var p := Header(f, i);
    SegmentIsValid(p, |f|);
    if ValidateSegment(p, |f|) { EndIs(p, |f|); }
  }

  lemma EntryIs(f: seq<Byte>, i: nat)
    requires HeaderOk(f) && |f| < TWO31
    ensures GoodHeader(f, i) <==> GoodEntry(f, i)
    ensures IsLoad(f, i) <==> IsSegment(f, i)
  {
    EntryAt(f, i);
    if HasPhdr(f, i) {
      HeaderReads(f, i);
      SegmentIs(f, i);
    }
  }

  lemma ApartIs(f: seq<Byte>, i: nat, j: nat)
    requires HeaderOk(f) && |f| < TWO31 && HasPhdr(f, i) && HasPhdr(f, j)
    requires ValidateSegment(Header(f, i), |f|) && ValidateSegment(Header(f, j), |f|)
    ensures At(f, i) + 32 <= |f| && At(f, j) + 32 <= |f|
    ensures ClearOf(Header(f, i), Header(f, j)) <==>
              LastPage(f, At(f, i)) < FirstPage(f, At(f, j)) || LastPage(f, At(f, j)) < FirstPage(f, At(f, i))
  {
    PagesOf(f, i);
    PagesOf(f, j);
  }

  /** The pages of a valid segment are those from its first to its last. */
  lemma PagesOf(f: seq<Byte>, i: nat)
    requires HeaderOk(f) && |f| < TWO31 && HasPhdr(f, i) && ValidateSegment(Header(f, i), |f|)
    ensures At(f, i) + 32 <= |f|
    ensures SegmentEnd(Header(f, i)) == (LastPage(f, At(f, i)) + 1) * 4096
    ensures MemPage(Header(f, i)) == FirstPage(f, At(f, i)) * 4096
    ensures Pages(Header(f, i)) == LastPage(f, At(f, i)) - FirstPage(f, At(f, i)) + 1 >= 1
  {
    HeaderReads(f, i);
    EndIs(Header(f, i), |f|);
  }

  // ---------------------------------------------------------------- files

  ghost predicate Separate(f: seq<Byte>, i: nat, j: nat)
    requires 52 <= |f|
  {
    IsSegment(f, i) && IsSegment(f, j) ==>
      LastPage(f, At(f, i)) < FirstPage(f, At(f, j)) || LastPage(f, At(f, j)) < FirstPage(f, At(f, i))
  }

  lemma SeparateIs(f: seq<Byte>, i: nat, j: nat)
    requires HeaderOk(f) && |f| < TWO31 && GoodHeader(f, i) && GoodHeader(f, j)
    ensures (IsLoad(f, i) && IsLoad(f, j) ==> ClearOf(Header(f, i), Header(f, j))) <==> Separate(f, i, j)
  {
    EntryIs(f, i);
    EntryIs(f, j);
    if IsLoad(f, i) && IsLoad(f, j) { ApartIs(f, i, j); }
  }

  lemma EntriesAre(f: seq<Byte>)
    requires HeaderOk(f) && |f| < TWO31
    ensures (forall i: nat :: i < PhdrCount(f) ==> GoodHeader(f, i)) <==>
            (forall i: nat :: i < U16(f, 44) ==> GoodEntry(f, i))
  {
    FileIs(f);
    forall i: nat ensures GoodHeader(f, i) <==> GoodEntry(f, i) { EntryIs(f, i); }
  }

  /** The files that load takes are those whose bytes are acceptable. */
  lemma LoadableIs(f: seq<Byte>)
    requires |f| < TWO31
    ensures Loadable(f) <==> Accepted(f)
  {
    FileIs(f);
    if HeaderOk(f) {
      EntriesAre(f);
      if forall i: nat :: i < PhdrCount(f) ==> GoodHeader(f, i) { AllApart(f); }
    }
  }

  lemma AllApart(f: seq<Byte>)
    requires HeaderOk(f) && |f| < TWO31 && forall i: nat :: i < PhdrCount(f) ==> GoodHeader(f, i)
    ensures PhdrCount(f) == U16(f, 44)
    ensures SegmentsApart(f, PhdrCount(f)) <==>
            forall i: nat, j: nat :: i < j < U16(f, 44) && IsSegment(f, i) && IsSegment(f, j) ==>
              LastPage(f, At(f, i)) < FirstPage(f, At(f, j)) || LastPage(f, At(f, j)) < FirstPage(f, At(f, i))
  {
    FileIs(f);
    forall i: nat, j: nat | i < j < PhdrCount(f)
      ensures (IsLoad(f, i) && IsLoad(f, j) ==> ClearOf(Header(f, i), Header(f, j))) <==> Separate(f, i, j)
      ensures IsLoad(f, i) <==> IsSegment(f, i)
      ensures IsLoad(f, j) <==> IsSegment(f, j)
    {
      SeparateIs(f, i, j);
      EntryIs(f, i);
      EntryIs(f, j);
    }
  }

  lemma SegmentMeans(s: Space, f: seq<Byte>, i: nat)
    requires DirOk(s.dir) && HeaderOk(f) && |f| < TWO31 && IsLoad(f, i) && SegmentLoaded(s, f, Header(f, i))
    ensures At(f, i) + 32 <= |f| && SegmentAsSaid(s, f, At(f, i))
  {
    HeaderReads(f, i);
  }

  /** An image with every segment in memory is the one the file describes, rights included. */
  lemma LoadedMeans(s: Space, f: seq<Byte>)
    requires DirOk(s.dir) && HeaderOk(f) && |f| < TWO31 && Loaded(s, f, PhdrCount(f))
    ensures AsFileSays(s, f)
  {
    FileIs(f);
    forall i: nat | i < U16(f, 44) && IsSegment(f, i) ensures SegmentAsSaid(s, f, At(f, i)) {
      EntryIs(f, i);
      SegmentMeans(s, f, i);
    }
  }

  lemma OwnPages(f: seq<Byte>, i: nat)
    requires HeaderOk(f) && |f| < TWO31 && GoodHeader(f, i)
    ensures IsLoad(f, i) <==> IsSegment(f, i)
    ensures IsLoad(f, i) ==> Pages(Header(f, i)) == LastPage(f, At(f, i)) - FirstPage(f, At(f, i)) + 1
  {
    EntryIs(f, i);
    if IsLoad(f, i) { PagesOf(f, i); }
  }

  lemma {:induction false} PagesAre(f: seq<Byte>, n: nat)
    requires HeaderOk(f) && |f| < TWO31 && forall i: nat :: i < n ==> GoodHeader(f, i)
    ensures PagesUpTo(f, n) == PagesNeeded(f, n)
  {
    if n > 0 {
      PagesAre(f, n - 1);
      OwnPages(f, n - 1);
    }
  }

  /** Which files load, what they take and where they start. */
  lemma LoadMeans(f: seq<Byte>)
    requires |f| < TWO31
    ensures Loadable(f) <==> Accepted(f)
    ensures Loadable(f) ==> PagesUpTo(f, PhdrCount(f)) == PagesNeeded(f, U16(f, 44)) && Full(f, 24) == U32(f, 24)
  {
    LoadableIs(f);
    if Loadable(f) {
      FileIs(f);
      PagesAre(f, PhdrCount(f));
      WordIs(f, 24);
    }
  }
}
