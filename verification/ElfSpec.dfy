/** What an executable file says, byte by byte, and when load takes it (the ELF specification, userprog/process.c). */
module ElfSpec {
  import opened Common
  import opened Pagedir
  import opened LoaderModel

  /** Little-endian numbers of two and four bytes at a position of the file. */
  function U16(f: seq<Byte>, i: nat): nat
    requires i + 2 <= |f|
  {
    f[i] as int + 0x100 * f[i + 1] as int
  }

  function U32(f: seq<Byte>, i: nat): nat
    requires i + 4 <= |f|
  {
    f[i] as int + 0x100 * f[i + 1] as int + 0x1_0000 * f[i + 2] as int + 0x100_0000 * f[i + 3] as int
  }

  /** An executable for the 80386 whose program headers have 32 bytes. */
  ghost predicate GoodFile(f: seq<Byte>)
  {
    && 52 <= |f| && f[0] == 0x7f && f[1] == 0x45 && f[2] == 0x4c && f[3] == 0x46 && f[4] == 1 && f[5] == 1 && f[6] == 1
    && U16(f, 16) == 2 && U16(f, 18) == 3 && U32(f, 20) == 1 && U16(f, 42) == 32 && U16(f, 44) <= 1024
  }

  /** Where program header i begins. */
  function At(f: seq<Byte>, i: nat): nat
    requires 52 <= |f|
  {
    U32(f, 28) + 32 * i
  }

  /** Program header i is there and is for a loadable segment. */
  ghost predicate IsSegment(f: seq<Byte>, i: nat)
    requires 52 <= |f|
  {
    At(f, i) + 32 <= |f| && U32(f, At(f, i)) == 1
  }

  /** A segment's bytes lie in the file at offset and belong at vaddr; filesz of them are in
      the file, memsz in memory. */
  ghost predicate GoodSegment(f: seq<Byte>, h: nat)
    requires h + 32 <= |f|
  {
    var offset, vaddr, filesz, memsz := U32(f, h + 4), U32(f, h + 8), U32(f, h + 16), U32(f, h + 20);
    && offset % 4096 == vaddr % 4096 && offset <= |f| && filesz <= memsz && 0 < memsz
    && 4096 <= vaddr && vaddr + memsz <= 0xbfff_f000 && (filesz > 0 ==> offset + filesz <= |f|)
  }

  /** First and last page of a segment. */
  function FirstPage(f: seq<Byte>, h: nat): nat
    requires h + 32 <= |f|
  {
    U32(f, h + 8) / 4096
  }

  function LastPage(f: seq<Byte>, h: nat): int
    requires h + 32 <= |f|
  {
    (U32(f, h + 8) + U32(f, h + 20) - 1) / 4096
  }

  ghost predicate GoodEntry(f: seq<Byte>, i: nat)
    requires 52 <= |f|
  {
    && At(f, i) + 32 <= |f| && U32(f, At(f, i)) != 2 && U32(f, At(f, i)) != 3 && U32(f, At(f, i)) != 5
    && (U32(f, At(f, i)) == 1 ==> GoodSegment(f, At(f, i)))
  }

  /** Every program header is good, and no two segments share a page. */
  ghost predicate Accepted(f: seq<Byte>)
  {
    && GoodFile(f)
    && (forall i: nat :: i < U16(f, 44) ==> GoodEntry(f, i))
    && (forall i: nat, j: nat :: i < j < U16(f, 44) && IsSegment(f, i) && IsSegment(f, j) ==>
          LastPage(f, At(f, i)) < FirstPage(f, At(f, j)) || LastPage(f, At(f, j)) < FirstPage(f, At(f, i)))
  }

  /** PF_W, bit 1 of the segment's flags. */
  ghost predicate MayWrite(f: seq<Byte>, h: nat)
    requires h + 32 <= |f|
  {
    f[h + 24] / 2 % 2 == 1
  }

  /** Each byte of the segment is mapped for the user, with the rights the flags give, and reads as the file's byte or,
      beyond those, as zero. */
  ghost predicate SegmentAsSaid(s: Space, f: seq<Byte>, h: nat)
    requires DirOk(s.dir) && h + 32 <= |f|
  {
    var offset, vaddr, filesz, memsz := U32(f, h + 4), U32(f, h + 8), U32(f, h + 16), U32(f, h + 20);
    forall a: Addr :: vaddr <= a < vaddr + memsz ==>
      && Mapped(s.dir, a).Some? && Mapped(s.dir, a).value.user && (Mapped(s.dir, a).value.writable <==> MayWrite(f, h))
      && (if a < vaddr + filesz
          then offset + (a - vaddr) < |f| && ByteAt(s, a) == Some(f[offset + (a - vaddr)])
          else ByteAt(s, a) == Some(0))
  }

  ghost predicate AsFileSays(s: Space, f: seq<Byte>)
    requires DirOk(s.dir)
  {
    52 <= |f| && forall i: nat :: i < U16(f, 44) && IsSegment(f, i) ==> SegmentAsSaid(s, f, At(f, i))
  }

  /** The pages that the segments among the first n program headers take. */
  ghost function PagesNeeded(f: seq<Byte>, n: nat): nat
    requires 52 <= |f|
  {
    if n == 0 then 0
    else PagesNeeded(f, n - 1) +
         if IsSegment(f, n - 1) then Max(LastPage(f, At(f, n - 1)) - FirstPage(f, At(f, n - 1)) + 1, 0) else 0
  }
}
