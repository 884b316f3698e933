/** The headers of an executable, and the image its loadable segments add up to (userprog/process.c). */
module Executable {
  import opened Common
  import opened Pagedir
  import opened LoaderModel

  // ---------------------------------------------------------------- the file's headers

  /** Little-endian halfword and word at a position of the file. */
  function Half(f: seq<Byte>, i: nat): nat
    requires i + 2 <= |f|
  {
    f[i] as nat + 0x100 * f[i + 1] as nat
  }

  function Full(f: seq<Byte>, i: nat): nat
    requires i + 4 <= |f|
  {
    Half(f, i) + 0x1_0000 * Half(f, i + 2)
  }

  function PhdrAt(f: seq<Byte>, i: nat): (p: Phdr)
    requires i + PHDR_SIZE <= |f|
    ensures Words(p)
  {
    Phdr(Full(f, i), Full(f, i + 4), Full(f, i + 8), Full(f, i + 16), Full(f, i + 20), Full(f, i + 24))
  }

  const ELF_IDENT: seq<Byte> := [0x7f, 0x45, 0x4c, 0x46, 1, 1, 1]

  /** The executable header names a 32-bit little-endian 80386 executable with program headers of the right size. */
  predicate HeaderOk(f: seq<Byte>)
  {
    && EHDR_SIZE <= |f| && f[..7] == ELF_IDENT
    && Half(f, 16) == 2 && Half(f, 18) == 3 && Full(f, 20) == 1 && Half(f, 42) == PHDR_SIZE && Half(f, 44) <= 1024
  }

  /** Where the program headers start; a position with the top bit set is negative. */
  function PhdrStart(f: seq<Byte>): int
    requires HeaderOk(f)
  {
    if Full(f, 28) >= TWO31 then Full(f, 28) - TWO32 else Full(f, 28)
  }

  function PhdrCount(f: seq<Byte>): nat
    requires HeaderOk(f)
  {
    Half(f, 44)
  }

  /** Program header i lies in the file. */
  predicate HasPhdr(f: seq<Byte>, i: nat)
    requires HeaderOk(f)
  {
    0 <= PhdrStart(f) && PhdrStart(f) + (i + 1) * PHDR_SIZE <= |f|
  }

  function Header(f: seq<Byte>, i: nat): Phdr
    requires HeaderOk(f) && HasPhdr(f, i)
  {
    PhdrAt(f, PhdrStart(f) + i * PHDR_SIZE)
  }

  predicate Writable(p: Phdr) { p.flags / 2 % 2 == 1 }

  // ---------------------------------------------------------------- what loading promises

  /** Every byte of the segment is in memory: from the file as far as the file goes, then zero. */
  ghost predicate SegmentLoaded(s: Space, f: seq<Byte>, p: Phdr)
    requires DirOk(s.dir)
  {
    forall a: Addr :: p.vaddr <= a < p.vaddr + p.memsz ==>
      && Mapped(s.dir, a).Some? && Mapped(s.dir, a).value.writable == Writable(p) && Mapped(s.dir, a).value.user
      && (if a - p.vaddr < p.filesz
          then p.offset + (a - p.vaddr) < |f| && ByteAt(s, a) == Some(f[p.offset + (a - p.vaddr)])
          else ByteAt(s, a) == Some(0))
  }

  /** Bytes of the page before the segment's first may be anything in the file; those after the file's part read as
      zero. */
  lemma ImageHasSegment(s: Space, f: seq<Byte>, p: Phdr, fileLength: nat)
    requires DirOk(s.dir) && Words(p) && ValidateSegment(p, fileLength) && ReadBytes(p) >= 0 && ZeroBytes(p) >= 0
    requires Image(s, f, FilePage(p), MemPage(p), ReadBytes(p), MemPage(p) + ReadBytes(p) + ZeroBytes(p), Writable(p))
    ensures SegmentLoaded(s, f, p)
  {
    SegmentCounts(p, fileLength);
  }

  lemma SegmentStays(s: Space, t: Space, f: seq<Byte>, p: Phdr)
    requires DirOk(s.dir) && DirOk(t.dir) && Keeps(s, t) && p.vaddr + p.memsz <= USER_END && SegmentLoaded(s, f, p)
    ensures SegmentLoaded(t, f, p)
  {
  }

  /** A program header that load accepts. */
  ghost predicate Acceptable(f: seq<Byte>, i: nat)
    requires HeaderOk(f)
  {
    && HasPhdr(f, i)
    && Header(f, i).kind != PT_DYNAMIC && Header(f, i).kind != PT_INTERP && Header(f, i).kind != PT_SHLIB
    && (Header(f, i).kind == PT_LOAD ==> ValidateSegment(Header(f, i), |f|))
  }

  /** The loadable segments among the first n headers are all in memory. */
  ghost predicate Loaded(s: Space, f: seq<Byte>, n: nat)
    requires DirOk(s.dir) && HeaderOk(f)
  {
    forall i: nat :: i < n ==> Acceptable(f, i) && (Header(f, i).kind == PT_LOAD ==> SegmentLoaded(s, f, Header(f, i)))
  }

  lemma LoadedStays(s: Space, t: Space, f: seq<Byte>, n: nat)
    requires DirOk(s.dir) && DirOk(t.dir) && HeaderOk(f) && Keeps(s, t) && Loaded(s, f, n)
    ensures Loaded(t, f, n)
  {
    forall i: nat | i < n
      ensures Acceptable(f, i) && (Header(f, i).kind == PT_LOAD ==> SegmentLoaded(t, f, Header(f, i)))
    {
      assert Acceptable(f, i);
      if Header(f, i).kind == PT_LOAD {
        SegmentIsValid(Header(f, i), |f|);
        SegmentStays(s, t, f, Header(f, i));
      }
    }
  }

  /** The end of a segment's last page. */
  function SegmentEnd(p: Phdr): int { MemPage(p) + ReadBytes(p) + ZeroBytes(p) }

  /** A segment's pages are above page 0 and in user space. */
  ghost predicate Within(p: Phdr) { PGSIZE <= MemPage(p) <= p.vaddr && p.vaddr + p.memsz <= SegmentEnd(p) <= USER_END }

  /** Two segments that share no page. */
  ghost predicate ClearOf(p: Phdr, q: Phdr) { SegmentEnd(p) <= MemPage(q) || SegmentEnd(q) <= MemPage(p) }

  predicate IsLoad(f: seq<Byte>, i: nat)
    requires HeaderOk(f)
  {
    HasPhdr(f, i) && Header(f, i).kind == PT_LOAD
  }

  /** No two loadable segments among the first n share a page. */
  ghost predicate SegmentsApart(f: seq<Byte>, n: nat)
    requires HeaderOk(f)
  {
    forall i: nat, j: nat :: i < j < n && IsLoad(f, i) && IsLoad(f, j) ==>
      ClearOf(Header(f, i), Header(f, j))
  }

  /** The address is on a page of a loadable segment among the first n. */
  ghost predicate SomeSegment(f: seq<Byte>, n: nat, a: Addr)
    requires HeaderOk(f)
  {
    exists i: nat :: i < n && IsLoad(f, i) && MemPage(Header(f, i)) <= a < SegmentEnd(Header(f, i))
  }

  /** The pages of the loadable segments among the first n are mapped, and no others. */
  ghost predicate Covers(s: Space, f: seq<Byte>, n: nat)
    requires DirOk(s.dir) && HeaderOk(f)
  {
    forall a: Addr :: IsUser(a) ==> (Mapped(s.dir, a).Some? <==> SomeSegment(f, n, a))
  }

  ghost predicate StackReady(s: Space)
    requires DirOk(s.dir)
  {
    forall a: Addr :: USER_END - PGSIZE <= a < USER_END ==>
      Mapped(s.dir, a).Some? && Mapped(s.dir, a).value.writable && Mapped(s.dir, a).value.user &&
        ByteAt(s, a) == Some(0)
  }

  /** The first n program headers have been dealt with. */
  ghost predicate HeadersDone(s: Space, f: seq<Byte>, n: nat)
    requires DirOk(s.dir) && HeaderOk(f)
  {
    Loaded(s, f, n) && SegmentsApart(f, n) && Covers(s, f, n) && Unmapped(s, 0, PGSIZE)
  }

  /** What one call of load_segment that succeeds leaves behind. */
  ghost predicate HeaderLoaded(s: Space, t: Space, f: seq<Byte>, p: Phdr)
    requires DirOk(s.dir) && DirOk(t.dir)
  {
    && ValidateSegment(p, |f|) && SegmentLoaded(t, f, p) && Within(p) && Keeps(s, t)
    && AddsOnly(s, t, MemPage(p), SegmentEnd(p)) && Unmapped(s, MemPage(p), SegmentEnd(p))
    && (forall a: Addr :: MemPage(p) <= a < SegmentEnd(p) ==> Mapped(t.dir, a).Some?)
  }

  lemma LoadedMore(s: Space, f: seq<Byte>, n: nat)
    requires DirOk(s.dir) && HeaderOk(f) && Loaded(s, f, n)
    requires Acceptable(f, n) && (Header(f, n).kind == PT_LOAD ==> SegmentLoaded(s, f, Header(f, n)))
    ensures Loaded(s, f, n + 1)
  {
    forall i: nat | i < n + 1
      ensures Acceptable(f, i) && (Header(f, i).kind == PT_LOAD ==> SegmentLoaded(s, f, Header(f, i)))
    {
      assert i < n ==> Acceptable(f, i);
    }
  }

  lemma SkipHeader(s: Space, f: seq<Byte>, n: nat)
    requires DirOk(s.dir) && HeaderOk(f) && HeadersDone(s, f, n) && Acceptable(f, n) && !IsLoad(f, n)
    ensures HeadersDone(s, f, n + 1)
  {
    LoadedMore(s, f, n);
    SkipApart(f, n);
    SkipCovered(s, f, n);
  }

  lemma SkipApart(f: seq<Byte>, n: nat)
    requires HeaderOk(f) && SegmentsApart(f, n) && !IsLoad(f, n)
    ensures SegmentsApart(f, n + 1)
  {
  }

  lemma SkipCovered(s: Space, f: seq<Byte>, n: nat)
    requires DirOk(s.dir) && HeaderOk(f) && Covers(s, f, n) && !IsLoad(f, n)
    ensures Covers(s, f, n + 1)
  {
    forall a: Addr | IsUser(a) ensures SomeSegment(f, n, a) <==> SomeSegment(f, n + 1, a) {}
  }

  /** A page of an earlier segment is mapped. */
  lemma Collision(s: Space, f: seq<Byte>, n: nat, i: nat, a: Addr)
    requires DirOk(s.dir) && HeaderOk(f) && Covers(s, f, n) && i < n && IsLoad(f, i) && IsUser(a)
    requires MemPage(Header(f, i)) <= a < SegmentEnd(Header(f, i))
    ensures Mapped(s.dir, a) != None
  {
    assert SomeSegment(f, n, a);
  }

  /** The segment's pages were unmapped, the earlier segments' were not: so they differ. */
  lemma NewSegmentApart(s: Space, f: seq<Byte>, n: nat, i: nat)
    requires DirOk(s.dir) && HeaderOk(f) && Covers(s, f, n) && i < n && IsLoad(f, i) && IsLoad(f, n)
    requires Within(Header(f, n)) && Within(Header(f, i))
    requires Unmapped(s, MemPage(Header(f, n)), SegmentEnd(Header(f, n)))
    requires Header(f, i).memsz > 0 && Header(f, n).memsz > 0
    ensures ClearOf(Header(f, i), Header(f, n))
  {
    var p, q := Header(f, i), Header(f, n);
    if MemPage(q) < SegmentEnd(p) && MemPage(p) < SegmentEnd(q) {
      var a: Addr := Max(MemPage(p), MemPage(q));
      assert MemPage(p) <= a < SegmentEnd(p) && MemPage(q) <= a < SegmentEnd(q);
      Collision(s, f, n, i, a);
    }
  }

  lemma ValidWithin(p: Phdr, fileLength: nat)
    requires Words(p) && ValidateSegment(p, fileLength)
    ensures Within(p) && p.memsz > 0
  {
    SegmentCounts(p, fileLength);
  }

  lemma ApartFrom(s: Space, t: Space, f: seq<Byte>, n: nat, i: nat)
    requires DirOk(s.dir) && DirOk(t.dir) && HeaderOk(f) && HeadersDone(s, f, n)
    requires IsLoad(f, n) && HeaderLoaded(s, t, f, Header(f, n))
    requires i < n && IsLoad(f, i)
    ensures ClearOf(Header(f, i), Header(f, n))
  {
    assert Acceptable(f, i);
    ValidWithin(Header(f, i), |f|);
    ValidWithin(Header(f, n), |f|);
    NewSegmentApart(s, f, n, i);
  }

  lemma MoreApart(s: Space, t: Space, f: seq<Byte>, n: nat)
    requires DirOk(s.dir) && DirOk(t.dir) && HeaderOk(f) && HeadersDone(s, f, n)
    requires IsLoad(f, n) && HeaderLoaded(s, t, f, Header(f, n))
    ensures SegmentsApart(f, n + 1)
  {
    forall i: nat, j: nat | i < j < n + 1 && IsLoad(f, i) && IsLoad(f, j) ensures ClearOf(Header(f, i), Header(f, j)) {
      if j == n { ApartFrom(s, t, f, n, i); }
    }
  }

  lemma MoreCovered(s: Space, t: Space, f: seq<Byte>, n: nat)
    requires DirOk(s.dir) && DirOk(t.dir) && HeaderOk(f) && HeadersDone(s, f, n)
    requires IsLoad(f, n) && HeaderLoaded(s, t, f, Header(f, n))
    ensures Covers(t, f, n + 1)
  {
    var p := Header(f, n);
    forall a: Addr | IsUser(a) ensures Mapped(t.dir, a).Some? <==> SomeSegment(f, n + 1, a) {
      OneMore(f, n, a);
      assert Mapped(s.dir, a).Some? <==> SomeSegment(f, n, a);
      if !(MemPage(p) <= a < SegmentEnd(p)) { assert Mapped(t.dir, a) == Mapped(s.dir, a); }
    }
  }

  lemma OneMore(f: seq<Byte>, n: nat, a: Addr)
    requires HeaderOk(f) && IsLoad(f, n)
    ensures SomeSegment(f, n + 1, a) <==> SomeSegment(f, n, a) || MemPage(Header(f, n)) <= a < SegmentEnd(Header(f, n))
  {
    if SomeSegment(f, n + 1, a) {
      var i: nat :| i < n + 1 && IsLoad(f, i) && MemPage(Header(f, i)) <= a < SegmentEnd(Header(f, i));
      assert i < n ==> SomeSegment(f, n, a);
    }
  }

  lemma NextHeader(s: Space, t: Space, f: seq<Byte>, n: nat)
    requires DirOk(s.dir) && DirOk(t.dir) && HeaderOk(f) && HeadersDone(s, f, n)
    requires IsLoad(f, n) && HeaderLoaded(s, t, f, Header(f, n))
    ensures HeadersDone(t, f, n + 1)
  {
    MoreApart(s, t, f, n);
    MoreCovered(s, t, f, n);
    LoadedStays(s, t, f, n);
    LoadedMore(t, f, n);
  }

  // ---------------------------------------------------------------- which executables load

  /** The file holds all the bytes of the segment that it should. */
  ghost predicate Complete(p: Phdr, fileLength: nat) { p.filesz > 0 ==> p.offset + p.filesz <= fileLength }

  /** What load asks of a file: a valid header and table, loadable segments that are complete, on pages of
      their own, and leave the stack's page free. */
  ghost predicate Loadable(f: seq<Byte>)
  {
    && HeaderOk(f) && SegmentsApart(f, PhdrCount(f))
    && forall i: nat :: i < PhdrCount(f) ==> GoodHeader(f, i)
  }

  ghost predicate GoodHeader(f: seq<Byte>, i: nat)
    requires HeaderOk(f)
  {
    Acceptable(f, i) && (IsLoad(f, i) ==> Complete(Header(f, i), |f|) && SegmentEnd(Header(f, i)) <= USER_END - PGSIZE)
  }

  function Pages(p: Phdr): int { (ReadBytes(p) + ZeroBytes(p)) / PGSIZE }

  /** How many pages the loadable segments among the first n take. */
  ghost function PagesUpTo(f: seq<Byte>, n: nat): nat
    requires HeaderOk(f)
  {
    if n == 0 then 0
    else PagesUpTo(f, n - 1) + if IsLoad(f, n - 1) then Max(Pages(Header(f, n - 1)), 0) else 0
  }

  lemma {:induction false} PagesGrow(f: seq<Byte>, m: nat, n: nat)
    requires HeaderOk(f) && m <= n
    ensures PagesUpTo(f, m) <= PagesUpTo(f, n)
  {
    if m < n { PagesGrow(f, m, n - 1); }
  }

  /** A segment in memory was complete in the file. */
  lemma LoadedIsComplete(s: Space, f: seq<Byte>, p: Phdr)
    requires DirOk(s.dir) && Words(p) && ValidateSegment(p, |f|) && SegmentLoaded(s, f, p)
    ensures Complete(p, |f|)
  {
    SegmentIsValid(p, |f|);
    if p.filesz > 0 {
      var a: Addr := p.vaddr + p.filesz - 1;
      assert a - p.vaddr < p.filesz && Mapped(s.dir, a).Some?;
    }
  }

  /** A segment that finds one of its pages mapped shares it with an earlier one. */
  lemma Clash(s: Space, f: seq<Byte>, n: nat, m: nat)
    requires DirOk(s.dir) && HeaderOk(f) && HeadersDone(s, f, n) && n < m && IsLoad(f, n) && Within(Header(f, n))
    requires !Unmapped(s, MemPage(Header(f, n)), SegmentEnd(Header(f, n)))
    ensures !SegmentsApart(f, m)
  {
    var a: Addr :| MemPage(Header(f, n)) <= a < SegmentEnd(Header(f, n)) && Mapped(s.dir, a) != None;
    assert SomeSegment(f, n, a);
    var i: nat :| i < n && IsLoad(f, i) && MemPage(Header(f, i)) <= a < SegmentEnd(Header(f, i));
    assert !ClearOf(Header(f, i), Header(f, n));
  }

  /** The stack's page is mapped only by a segment that reaches it. */
  lemma StackClash(s: Space, f: seq<Byte>, n: nat)
    requires DirOk(s.dir) && HeaderOk(f) && Covers(s, f, n) && Mapped(s.dir, USER_END - PGSIZE) != None
    ensures exists i: nat :: i < n && !GoodHeader(f, i)
  {
    assert SomeSegment(f, n, USER_END - PGSIZE);
    var i: nat :| i < n && IsLoad(f, i) && MemPage(Header(f, i)) <= USER_END - PGSIZE < SegmentEnd(Header(f, i));
    assert !GoodHeader(f, i);
  }

  /** With its segments in memory and its stack ready a file is one that load accepts. */
  lemma DoneIsLoadable(s: Space, f: seq<Byte>)
    requires DirOk(s.dir) && HeaderOk(f) && HeadersDone(s, f, PhdrCount(f)) && Unmapped(s, USER_END - PGSIZE, USER_END)
    ensures Loadable(f)
  {
    forall i: nat | i < PhdrCount(f) ensures GoodHeader(f, i) {
      assert Acceptable(f, i);
      if IsLoad(f, i) { StackClear(s, f, i); }
    }
  }

  lemma StackClear(s: Space, f: seq<Byte>, i: nat)
    requires DirOk(s.dir) && HeaderOk(f) && HeadersDone(s, f, PhdrCount(f)) && Unmapped(s, USER_END - PGSIZE, USER_END)
    requires i < PhdrCount(f) && Acceptable(f, i) && IsLoad(f, i)
    ensures Complete(Header(f, i), |f|) && SegmentEnd(Header(f, i)) <= USER_END - PGSIZE
  {
    var p := Header(f, i);
    LoadedIsComplete(s, f, p);
    ValidWithin(p, |f|);
    SegmentCounts(p, |f|);
    TopPageFrom(MemPage(p), SegmentEnd(p));
    if SegmentEnd(p) > USER_END - PGSIZE { Collision(s, f, PhdrCount(f), i, USER_END - PGSIZE); }
  }

  /** Whole pages that reach the top page of user space begin at or below it. */
  lemma TopPageFrom(from: nat, upto: int)
    requires from % PGSIZE == 0 && from < upto <= USER_END
    ensures from <= USER_END - PGSIZE
  {
  }

  lemma NoHeaders(s: Space, f: seq<Byte>)
    requires DirOk(s.dir) && HeaderOk(f) && Unmapped(s, 0, USER_END)
    ensures HeadersDone(s, f, 0)
  {
    assert forall a: Addr :: !SomeSegment(f, 0, a);
  }

  lemma BadHeader(f: seq<Byte>, i: nat)
    requires HeaderOk(f) && i < PhdrCount(f) && !Acceptable(f, i)
    ensures !Loadable(f)
  {
    assert !GoodHeader(f, i);
  }

  /** The bytes that a valid segment reads end where the segment's bytes in the file do. */
  lemma SegmentReach(p: Phdr, fileLength: nat)
    requires Words(p) && ValidateSegment(p, fileLength)
    ensures Complete(p, fileLength) ==> FilePage(p) + ReadBytes(p) <= fileLength
    ensures Within(p) && Pages(p) >= 0
  {
    SegmentCounts(p, fileLength);
    ValidWithin(p, fileLength);
  }

  /** A loadable header that could not be loaded: bad, clashing with an earlier one, or too big for the pages left. */
  lemma HeaderFailed(s: Space, f: seq<Byte>, i: nat)
    requires DirOk(s.dir) && HeaderOk(f) && IsLoad(f, i) && i < PhdrCount(f) && HeadersDone(s, f, i)
    requires !ValidateSegment(Header(f, i), |f|) || !Complete(Header(f, i), |f|)
      || (Within(Header(f, i)) && !Unmapped(s, MemPage(Header(f, i)), SegmentEnd(Header(f, i))))
    ensures !Loadable(f)
  {
    if !ValidateSegment(Header(f, i), |f|) || !Complete(Header(f, i), |f|) {
      assert !GoodHeader(f, i);
    } else {
      Clash(s, f, i, PhdrCount(f));
    }
  }
}
