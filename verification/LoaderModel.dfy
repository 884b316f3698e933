/** Program headers and user memory images (userprog/process.c). */
module LoaderModel {
  import opened Common
  import opened Pagedir

  // ---------------------------------------------------------------- program headers

  const PT_LOAD: nat := 1
  const PT_DYNAMIC: nat := 2
  const PT_INTERP: nat := 3
  const PT_SHLIB: nat := 5
  const EHDR_SIZE: nat := 52
  const PHDR_SIZE: nat := 32

  datatype Phdr = Phdr(kind: nat, offset: nat, vaddr: nat, filesz: nat, memsz: nat, flags: nat)

  ghost predicate Words(p: Phdr) { p.offset < TWO32 && p.vaddr < TWO32 && p.filesz < TWO32 && p.memsz < TWO32 }

  /** validate_segment, in 32-bit arithmetic. */
  predicate ValidateSegment(p: Phdr, fileLength: nat)
  {
    var end := (p.vaddr + p.memsz) % TWO32;
    && p.offset % PGSIZE == p.vaddr % PGSIZE
    && p.offset <= fileLength
    && p.memsz >= p.filesz
    && p.memsz != 0
    && p.vaddr < USER_END
    && end < USER_END
    && end >= p.vaddr
    && p.vaddr >= PGSIZE
  }

  /** What the checks add up to: none of them is fooled by an address that wraps. */
  lemma SegmentIsValid(p: Phdr, fileLength: nat)
    requires Words(p)
    ensures ValidateSegment(p, fileLength) <==>
      && p.offset % PGSIZE == p.vaddr % PGSIZE && p.offset <= fileLength
      && p.filesz <= p.memsz && 0 < p.memsz && PGSIZE <= p.vaddr && p.vaddr + p.memsz < USER_END
  {
    if p.vaddr + p.memsz >= TWO32 { assert (p.vaddr + p.memsz) % TWO32 == p.vaddr + p.memsz - TWO32; }
  }

  /** A segment whose last byte is the last of user memory is refused; one byte less and it is accepted. */
  lemma TopByteRefused()
    ensures var p := Phdr(PT_LOAD, 0, USER_END - PGSIZE, 0, PGSIZE, 0);
            && p.vaddr + p.memsz == USER_END && !ValidateSegment(p, 0)
            && ValidateSegment(p.(memsz := PGSIZE - 1), 0)
  {
  }

  /** ROUND_UP (x, PGSIZE) */
  function RoundUp(x: nat): nat { (x + PGSIZE - 1) / PGSIZE * PGSIZE }

  function MemPage(p: Phdr): nat { p.vaddr - p.vaddr % PGSIZE }

  function FilePage(p: Phdr): nat { p.offset - p.offset % PGSIZE }

  function ReadBytes(p: Phdr): int
  {
    if p.filesz > 0 then (p.vaddr % PGSIZE + p.filesz) % TWO32 else 0
  }

  function ZeroBytes(p: Phdr): int
  {
    if p.filesz > 0 then (RoundUp(p.vaddr % PGSIZE + p.memsz) - ReadBytes(p)) % TWO32
      else RoundUp(p.vaddr % PGSIZE + p.memsz) % TWO32
  }

  /** For a valid segment nothing wraps: the counts cover whole pages that hold the segment and stay in user space. */
  lemma SegmentCounts(p: Phdr, fileLength: nat)
    requires Words(p) && ValidateSegment(p, fileLength)
    ensures ReadBytes(p) == (if p.filesz > 0 then p.vaddr % PGSIZE + p.filesz else 0)
    ensures ReadBytes(p) >= 0 && ZeroBytes(p) >= 0 && (ReadBytes(p) + ZeroBytes(p)) % PGSIZE == 0
    ensures p.vaddr + p.memsz <= MemPage(p) + ReadBytes(p) + ZeroBytes(p) <= USER_END
    ensures MemPage(p) % PGSIZE == 0 && FilePage(p) % PGSIZE == 0 && MemPage(p) >= PGSIZE
    ensures p.offset - FilePage(p) == p.vaddr - MemPage(p)
  {
    SegmentIsValid(p, fileLength);
    var po := p.vaddr % PGSIZE;
    RoundUpIs(po + p.memsz);
    RoundUpEnds(MemPage(p), po + p.memsz);
  }

  lemma RoundUpIs(x: nat)
    ensures x <= RoundUp(x) < x + PGSIZE && RoundUp(x) % PGSIZE == 0
  {
  }

  lemma RoundUpEnds(base: nat, x: nat)
    requires base % PGSIZE == 0 && base + x <= USER_END
    ensures base + RoundUp(x) <= USER_END
  {
  }

  // ---------------------------------------------------------------- user memory

  /** The mappings of a process and the contents of its frames. */
  datatype Space = Space(dir: Dir, memory: map<Kpage, seq<Byte>>)

  /** Every mapped user page has a frame of its own. */
  ghost predicate SpaceOk(s: Space)
  {
    && DirOk(s.dir)
    && (forall k :: k in s.memory ==> |s.memory[k]| == PGSIZE)
    && (forall a: Addr :: IsUser(a) && Mapped(s.dir, a).Some? ==> Mapped(s.dir, a).value.frame in s.memory)
    && (forall a: Addr, b: Addr ::
          (IsUser(a) && IsUser(b) && Mapped(s.dir, a).Some? && Mapped(s.dir, b).Some? &&
            Mapped(s.dir, a).value.frame == Mapped(s.dir, b).value.frame)
          ==> PgNo(a) == PgNo(b))
  }

  /** What a user program reads at an address. */
  function ByteAt(s: Space, a: Addr): Option<Byte>
    requires DirOk(s.dir)
  {
    match Mapped(s.dir, a)
    case None => None
    case Some(m) => if m.frame in s.memory && PgOfs(a) < |s.memory[m.frame]| then Some(s.memory[m.frame][PgOfs(a)])
      else None
  }

  /** What was mapped is still mapped, with the same rights and the same bytes. */
  ghost predicate Keeps(s: Space, t: Space)
    requires DirOk(s.dir) && DirOk(t.dir)
  {
    forall a: Addr :: IsUser(a) && Mapped(s.dir, a).Some? ==>
      Mapped(t.dir, a) == Mapped(s.dir, a) && ByteAt(t, a) == ByteAt(s, a)
  }

  /** Nothing was mapped outside those addresses. */
  ghost predicate AddsOnly(s: Space, t: Space, from: nat, upto: nat)
    requires DirOk(s.dir) && DirOk(t.dir)
  {
    forall a: Addr :: IsUser(a) && !(from <= a < upto) ==> Mapped(t.dir, a) == Mapped(s.dir, a)
  }

  /** Whole pages from address from hold read bytes of the file, from position ofs, and then zeros. */
  ghost predicate Image(s: Space, file: seq<Byte>, ofs: nat, from: nat, read: nat, upto: nat, writable: bool)
    requires DirOk(s.dir)
  {
    forall a: Addr :: from <= a < upto ==>
      && Mapped(s.dir, a).Some? && Mapped(s.dir, a).value.writable == writable && Mapped(s.dir, a).value.user
      && (if a - from < read
          then ofs + (a - from) < |file| && ByteAt(s, a) == Some(file[ofs + (a - from)])
          else ByteAt(s, a) == Some(0))
  }

  /** No address of the range is mapped. */
  ghost predicate Unmapped(s: Space, from: nat, upto: nat)
    requires DirOk(s.dir)
  {
    forall a: Addr :: from <= a < upto ==> Mapped(s.dir, a) == None
  }

  /** A page mapped to a new frame. */
  ghost predicate OnePage(s: Space, t: Space, upage: Addr, kpage: Kpage, content: seq<Byte>, writable: bool)
    requires DirOk(s.dir) && DirOk(t.dir)
  {
    && |content| == PGSIZE && kpage !in s.memory && t.memory == s.memory[kpage := content]
    && (forall a: Addr :: PgNo(a) != PgNo(upage) ==> Mapped(t.dir, a) == Mapped(s.dir, a))
    && (forall a: Addr :: PgNo(a) == PgNo(upage) ==>
      Mapped(s.dir, a) == None && Mapped(t.dir, a) == Some(Mapping(kpage, writable, true, false, false)))
  }

  lemma PageAdded(s: Space, t: Space, upage: Addr, kpage: Kpage, content: seq<Byte>, writable: bool)
    requires SpaceOk(s) && DirOk(t.dir) && OnePage(s, t, upage, kpage, content, writable) && PgOfs(upage) == 0
    ensures SpaceOk(t) && Keeps(s, t) && AddsOnly(s, t, upage, upage + PGSIZE)
    ensures forall a: Addr :: upage <= a < upage + PGSIZE ==>
      Mapped(s.dir, a) == None && Mapped(t.dir, a) == Some(Mapping(kpage, writable, true, false, false)) &&
        ByteAt(t, a) == Some(content[a - upage])
  {
    forall a: Addr ensures PgNo(a) == PgNo(upage) <==> upage <= a < upage + PGSIZE { PageSpan(a, upage); }
    forall a: Addr | upage <= a < upage + PGSIZE
      ensures ByteAt(t, a) == Some(content[a - upage])
    {
      PageSpan(a, upage);
    }
  }

  lemma PageSpan(a: Addr, upage: Addr)
    requires PgOfs(upage) == 0
    ensures PgNo(a) == PgNo(upage) <==> upage <= a < upage + PGSIZE
    ensures upage <= a < upage + PGSIZE ==> PgOfs(a) == a - upage
  {
  }

  lemma KeepsTrans(s: Space, t: Space, u: Space)
    requires DirOk(s.dir) && DirOk(t.dir) && DirOk(u.dir) && Keeps(s, t) && Keeps(t, u)
    ensures Keeps(s, u)
  {
  }

  lemma ImageStays(s: Space, t: Space, file: seq<Byte>, ofs: nat, from: nat, read: nat, upto: nat, writable: bool)
    requires DirOk(s.dir) && DirOk(t.dir) && Keeps(s, t) && upto <= USER_END
    requires Image(s, file, ofs, from, read, upto, writable)
    ensures Image(t, file, ofs, from, read, upto, writable)
  {
  }

  /** What a page holds after the bytes read into it and the memset of the rest. */
  function Padded(data: seq<Byte>): (r: seq<Byte>)
    requires |data| <= PGSIZE
    ensures |r| == PGSIZE && forall i :: 0 <= i < PGSIZE ==> r[i] == if i < |data| then data[i] else 0
  {
    data + seq(PGSIZE - |data|, _ => 0)
  }

  /** The bytes that file_read returns. */
  function FileRead(file: seq<Byte>, pos: nat, n: nat): (data: seq<Byte>)
    ensures |data| == Min(n, Max(|file| - pos, 0)) && forall i :: 0 <= i < |data| ==> data[i] == file[pos + i]
  {
    if pos >= |file| then [] else file[pos..Min(pos + n, |file|)]
  }

  /** A page after the image so far makes the image one page longer. */
  lemma ImageGrows(s: Space, t: Space, file: seq<Byte>, ofs: nat, from: nat, read: nat, upage: Addr, kpage: Kpage,
                   data: seq<Byte>, writable: bool)
    requires SpaceOk(s) && DirOk(t.dir) && |data| <= PGSIZE && OnePage(s, t, upage, kpage, Padded(data), writable)
    requires PgOfs(upage) == 0 && from <= upage < USER_END && upage + PGSIZE <= USER_END
    requires Image(s, file, ofs, from, read, upage, writable)
    requires PageData(file, ofs, read, upage - from, data)
    ensures Image(t, file, ofs, from, read, upage + PGSIZE, writable)
  {
    PageAdded(s, t, upage, kpage, Padded(data), writable);
    ImageStays(s, t, file, ofs, from, read, upage, writable);
    forall a: Addr | upage <= a < upage + PGSIZE
      ensures if a - from < read then ofs + (a - from) < |file| && ByteAt(t, a) == Some(file[ofs + (a - from)])
              else ByteAt(t, a) == Some(0)
    {
      assert Padded(data)[a - upage] == if a - upage < |data| then data[a - upage] else 0;
    }
  }

  /** The bytes of the file for the page that starts done bytes into the segment. */
  ghost predicate PageData(file: seq<Byte>, ofs: nat, read: nat, done: nat, data: seq<Byte>)
  {
    |data| == Min(Max(read - done, 0), PGSIZE) &&
    forall i :: 0 <= i < |data| ==> ofs + done + i < |file| && data[i] == file[ofs + done + i]
  }

  /** A read that is not short delivers them. */
  lemma FullRead(file: seq<Byte>, ofs: nat, read: nat, done: nat, pos: nat, n: nat)
    requires n == Min(Max(read - done, 0), PGSIZE) && pos == ofs + Min(read, done) && |FileRead(file, pos, n)| == n
    ensures PageData(file, ofs, read, done, FileRead(file, pos, n))
  {
    var data := FileRead(file, pos, n);
    forall i | 0 <= i < |data| ensures ofs + done + i < |file| && data[i] == file[ofs + done + i] {
      assert pos == ofs + done && data[i] == file[pos + i];
    }
  }

  /** The pages of a segment below address page are done: s is the space before the segment, t the present one. */
  ghost predicate Progress(s: Space, t: Space, file: seq<Byte>, ofs: nat, from: nat, read: nat, page: nat,
                           writable: bool)
    requires DirOk(s.dir) && DirOk(t.dir)
  {
    Keeps(s, t) && AddsOnly(s, t, from, page) && Unmapped(s, from, page) &&
      Image(t, file, ofs, from, read, page, writable)
  }

  /** One more page: s is the space before the segment, b before the page, t after it. */
  lemma SegmentGrows(s: Space, b: Space, t: Space, file: seq<Byte>, ofs: nat, from: nat, read: nat, upage: Addr,
                     kpage: Kpage,
                     data: seq<Byte>, writable: bool)
    requires DirOk(s.dir) && SpaceOk(b) && DirOk(t.dir) && |data| <= PGSIZE
    requires OnePage(b, t, upage, kpage, Padded(data), writable)
    requires PgOfs(upage) == 0 && from <= upage < USER_END && upage + PGSIZE <= USER_END
    requires Progress(s, b, file, ofs, from, read, upage, writable) && PageData(file, ofs, read, upage - from, data)
    ensures Progress(s, t, file, ofs, from, read, upage + PGSIZE, writable)
  {
    ImageGrows(b, t, file, ofs, from, read, upage, kpage, data, writable);
    PageAdded(b, t, upage, kpage, Padded(data), writable);
    KeepsTrans(s, b, t);
  }

  /** A segment given up part way has still mapped nothing outside its pages; a page found mapped was so before. */
  lemma SegmentStops(s: Space, t: Space, from: nat, page: Addr, upto: nat)
    requires DirOk(s.dir) && DirOk(t.dir) && AddsOnly(s, t, from, page) && from <= page < upto && IsUser(page)
    ensures AddsOnly(s, t, from, upto)
    ensures Mapped(t.dir, page) != None ==> !Unmapped(s, from, upto)
  {
    assert Mapped(t.dir, page) == Mapped(s.dir, page);
  }

  // ---------------------------------------------------------------- counters

  /** Where the loop in load_segment stands after n pages: read and zero bytes to go, file position, next page. */
  ghost predicate Counters(readBytes: nat, zeroBytes: nat, ofs: nat, from: nat, n: nat, read: int, zero: int, pos: int,
                           page: int)
  {
    && page == from + n * PGSIZE && pos == ofs + Min(readBytes, n * PGSIZE)
    && read == Max(readBytes - n * PGSIZE, 0) && zero == readBytes + zeroBytes - n * PGSIZE - read
    && n * PGSIZE <= readBytes + zeroBytes
  }

  lemma CountersStart(readBytes: nat, zeroBytes: nat, ofs: nat, from: nat)
    ensures Counters(readBytes, zeroBytes, ofs, from, 0, readBytes, zeroBytes, ofs, from)
  {
  }

  /** A page reads at most what is left and zeroes the rest of itself: neither counter underflows. */
  lemma CountersStep(readBytes: nat, zeroBytes: nat, ofs: nat, from: nat, n: nat, read: int, zero: int, pos: int,
                     page: int)
    requires Counters(readBytes, zeroBytes, ofs, from, n, read, zero, pos, page)
    requires (readBytes + zeroBytes) % PGSIZE == 0
    requires read > 0 || zero > 0
    ensures var pageRead := Min(read, PGSIZE);
            && Counters(readBytes, zeroBytes, ofs, from, n + 1, read - pageRead, zero - (PGSIZE - pageRead),
              pos + pageRead, page + PGSIZE)
            && 0 <= read - pageRead && 0 <= zero - (PGSIZE - pageRead)
            && pageRead == Min(Max(readBytes - (page - from), 0), PGSIZE) && pos == ofs + Min(readBytes, page - from)
    ensures page + PGSIZE <= from + readBytes + zeroBytes && n < (readBytes + zeroBytes) / PGSIZE
    ensures pos <= ofs + readBytes
    ensures pos + Min(read, PGSIZE) <= ofs + readBytes
  {
    WholePages(readBytes + zeroBytes, n);
  }

  lemma WholePages(total: nat, n: nat)
    requires total % PGSIZE == 0 && n * PGSIZE < total
    ensures n * PGSIZE + PGSIZE <= total && n < total / PGSIZE
  {
  }

  lemma CountersPage(readBytes: nat, zeroBytes: nat, ofs: nat, from: Addr, n: nat, read: int, zero: int, pos: int,
                     page: int)
    requires Counters(readBytes, zeroBytes, ofs, from, n, read, zero, pos, page) && PgOfs(from) == 0
    ensures page >= from >= 0 && page % PGSIZE == 0 && read >= 0 && pos >= ofs
  {
  }

  /** When both counters are used up every page has been done. */
  lemma CountersEnd(readBytes: nat, zeroBytes: nat, ofs: nat, from: nat, n: nat, pos: int, page: int)
    requires Counters(readBytes, zeroBytes, ofs, from, n, 0, 0, pos, page)
    ensures page == from + readBytes + zeroBytes && n == (readBytes + zeroBytes) / PGSIZE
  {
  }
}
