/** Byte-granular reads and writes over a sector device (filesys/inode.c). */
module InodeIO {
  import opened Common

  /** File names are byte strings. */
  type Name = seq<Byte>

  const SECTOR: int := 512

  /** inode_disk: the data of a file occupies consecutive sectors. */
  datatype Extent = Extent(start: nat, length: nat)

  /** DIV_ROUND_UP (size, BLOCK_SECTOR_SIZE) */
  function BytesToSectors(size: nat): nat { (size + SECTOR - 1) / SECTOR }

  ghost predicate Formatted(sectors: seq<seq<Byte>>) { forall s :: 0 <= s < |sectors| ==> |sectors[s]| == SECTOR }

  ghost predicate Fits(e: Extent, sectors: seq<seq<Byte>>) { e.start + BytesToSectors(e.length) <= |sectors| }

  lemma InRange(e: Extent, p: nat)
    requires p < e.length
    ensures p / SECTOR < BytesToSectors(e.length) && 0 <= p % SECTOR < SECTOR
  {
  }

  ghost function ByteOf(sectors: seq<seq<Byte>>, e: Extent, p: nat): Byte
    requires Formatted(sectors) && Fits(e, sectors) && p < e.length
  {
    InRange(e, p);
    sectors[e.start + p / SECTOR][p % SECTOR]
  }

  /** The file as one flat array of bytes. */
  ghost function Flat(sectors: seq<seq<Byte>>, e: Extent): (f: seq<Byte>)
    requires Formatted(sectors) && Fits(e, sectors)
    ensures |f| == e.length
    ensures forall p :: 0 <= p < e.length ==> f[p] == ByteOf(sectors, e, p)
  {
    seq(e.length, p requires 0 <= p < e.length => ByteOf(sectors, e, p))
  }

  /** How many bytes a transfer of size bytes at offset moves. */
  function Transfer(length: nat, size: int, offset: nat): (n: nat)
    ensures n <= length && (n > 0 ==> offset + n <= length)
  {
    Max(0, Min(size, length - offset))
  }

  /** A transfer that stops for want of bytes to move or of file has moved as many as it should. */
  lemma TransferEnds(length: nat, size: int, offset: nat, n: nat)
    requires n <= Max(0, size) && (n > 0 ==> offset + n <= length) && (n >= size || offset + n >= length)
    ensures n == Transfer(length, size, offset)
    ensures n == if size <= 0 || offset >= length then 0 else if size < length - offset then size else length - offset
  {
  }

  /** A chunk that does not reach the end of its sector stays in it. */
  lemma SameSector(offset: nat, j: nat)
    requires j < SECTOR - offset % SECTOR
    ensures (offset + j) / SECTOR == offset / SECTOR && (offset + j) % SECTOR == offset % SECTOR + j
  {
  }

  /** The bytes to move within the current sector. */
  function Chunk(length: nat, size: int, offset: nat): int
  {
    var sectorLeft := SECTOR - offset % SECTOR;
    var minLeft := if length - offset < sectorLeft then length - offset else sectorLeft;
    if size < minLeft then size else minLeft
  }

  lemma ChunkStops(length: nat, size: int, offset: nat)
    requires size > 0
    ensures Chunk(length, size, offset) <= 0 <==> offset >= length
    ensures Chunk(length, size, offset) <= size && Chunk(length, size, offset) <= length - offset
    ensures Chunk(length, size, offset) <= SECTOR - offset % SECTOR
  {
  }

  // ---------------------------------------------------------------- what a write does to the device

  /** Position of byte i of sector s within the file, negative if the sector lies before it. */
  function Position(e: Extent, s: int, i: int): int { (s - e.start) * SECTOR + i }

  /** A byte of the device after the first n bytes of data were written at offset. */
  ghost function ByteAfter(sectors: seq<seq<Byte>>, e: Extent, data: seq<Byte>, offset: nat, n: nat, s: nat,
                           i: nat): Byte
    requires Formatted(sectors) && s < |sectors| && i < SECTOR && n <= |data|
  {
    var p := Position(e, s, i);
    if offset <= p < offset + n then data[p - offset] else sectors[s][i]
  }

  ghost predicate Written(before: seq<seq<Byte>>, after: seq<seq<Byte>>, e: Extent, data: seq<Byte>, offset: nat,
                          n: nat)
    requires Formatted(before) && n <= |data|
  {
    && Formatted(after) && |after| == |before|
    && forall s, i :: 0 <= s < |before| && 0 <= i < SECTOR ==>
      after[s][i] == ByteAfter(before, e, data, offset, n, s, i)
  }

  /** The bytes at positions at to at + chunk are the bytes of one sector from at % SECTOR on. */
  lemma ChunkPositions(e: Extent, at: nat, chunk: nat, s: nat, i: nat)
    requires chunk <= SECTOR - at % SECTOR && i < SECTOR
    ensures at <= Position(e, s, i) < at + chunk <==>
            s == e.start + at / SECTOR && at % SECTOR <= i < at % SECTOR + chunk
    ensures s == e.start + at / SECTOR ==> Position(e, s, i) == at + (i - at % SECTOR)
  {
    assert at == at / SECTOR * SECTOR + at % SECTOR;
  }

  /** Overwriting part of one sector extends the written stretch by one chunk. */
  lemma WriteChunk(before: seq<seq<Byte>>, now: seq<seq<Byte>>, e: Extent, data: seq<Byte>, offset: nat, n: nat,
                   chunk: nat)
    requires Formatted(before) && n + chunk <= |data| && Written(before, now, e, data, offset, n)
    requires var at := offset + n; chunk <= SECTOR - at % SECTOR && e.start + at / SECTOR < |now|
    ensures var at := offset + n;
            var s, o := e.start + at / SECTOR, at % SECTOR;
            Written(before, now[s := now[s][..o] + data[n..n + chunk] + now[s][o + chunk..]], e, data, offset,
              n + chunk)
  {
    var at := offset + n;
    var s, o := e.start + at / SECTOR, at % SECTOR;
    var after := now[s := now[s][..o] + data[n..n + chunk] + now[s][o + chunk..]];
    forall r, i | 0 <= r < |before| && 0 <= i < SECTOR
      ensures after[r][i] == ByteAfter(before, e, data, offset, n + chunk, r, i)
    {
      ChunkPositions(e, at, chunk, r, i);
      assert now[r][i] == ByteAfter(before, e, data, offset, n, r, i);
    }
  }

  lemma PositionOf(e: Extent, p: nat)
    ensures Position(e, e.start + p / SECTOR, p % SECTOR) == p
  {
  }

  /** On the flat file a write replaces exactly the written stretch. */
  lemma WriteFlat(before: seq<seq<Byte>>, after: seq<seq<Byte>>, e: Extent, data: seq<Byte>, offset: nat, n: nat)
    requires Formatted(before) && Fits(e, before) && n <= |data| && Written(before, after, e, data, offset, n)
    requires n > 0 ==> offset + n <= e.length
    ensures forall p :: 0 <= p < e.length ==>
              Flat(after, e)[p] == if offset <= p < offset + n then data[p - offset] else Flat(before, e)[p]
    ensures n > 0 ==> Flat(after, e) == Flat(before, e)[..offset] + data[..n] + Flat(before, e)[offset + n..]
  {
    forall p | 0 <= p < e.length
      ensures Flat(after, e)[p] == if offset <= p < offset + n then data[p - offset] else Flat(before, e)[p]
    {
      InRange(e, p);
      PositionOf(e, p);
    }
  }

  ghost predicate Apart(e: Extent, f: Extent)
  {
    e.start + BytesToSectors(e.length) <= f.start || f.start + BytesToSectors(f.length) <= e.start
  }

  lemma BeyondFile(e: Extent, s: nat, i: nat, offset: nat, n: nat)
    requires (s < e.start || e.start + BytesToSectors(e.length) <= s) && i < SECTOR && offset + n <= e.length
    ensures !(offset <= Position(e, s, i) < offset + n)
  {
  }

  /** A write to one file changes no byte of a file in other sectors. */
  lemma WriteElsewhere(before: seq<seq<Byte>>, after: seq<seq<Byte>>, e: Extent, f: Extent, data: seq<Byte>,
                       offset: nat, n: nat)
    requires Formatted(before) && Fits(f, before) && n <= |data| && Written(before, after, e, data, offset, n)
    requires (n > 0 ==> offset + n <= e.length) && Apart(e, f)
    ensures Flat(after, f) == Flat(before, f)
  {
    forall p | 0 <= p < f.length ensures Flat(after, f)[p] == Flat(before, f)[p] {
      InRange(f, p);
      if n > 0 { BeyondFile(e, f.start + p / SECTOR, p % SECTOR, offset, n); }
    }
  }

  /** What was written is what is read back. */
  lemma ReadAfterWrite(before: seq<seq<Byte>>, after: seq<seq<Byte>>, e: Extent, data: seq<Byte>, size: int,
                       offset: nat)
    requires Formatted(before) && Fits(e, before) && size <= |data|
    requires var n := Transfer(e.length, size, offset); n <= |data| && Written(before, after, e, data, offset, n)
    ensures var n := Transfer(e.length, size, offset); n > 0 ==> Flat(after, e)[offset..offset + n] == data[..n]
  {
    WriteFlat(before, after, e, data, offset, Transfer(e.length, size, offset));
  }

  class Disk {
    var sectors: seq<seq<Byte>>

    ghost predicate Valid()
      reads this
    {
      Formatted(sectors)
    }

    method BlockRead(s: nat) returns (data: seq<Byte>)
      requires Valid() && s < |sectors|
      ensures data == sectors[s] && |data| == SECTOR
    {
      data := sectors[s];
    }

    method BlockWrite(s: nat, data: seq<Byte>)
      requires Valid() && s < |sectors| && |data| == SECTOR
      modifies this
      ensures Valid() && sectors == old(sectors)[s := data]
    {
      sectors := sectors[s := data];
    }

    /** The part of a read that one sector holds: straight into the buffer if it is a whole sector. */
    method ReadChunk(e: Extent, buffer: array<Byte>, n: nat, at: nat, chunk: nat)
      requires Valid() && Fits(e, sectors) && 0 < chunk <= SECTOR - at % SECTOR && at + chunk <= e.length
      requires n + chunk <= buffer.Length
      modifies buffer
      ensures forall k :: n <= k < n + chunk ==> buffer[k] == Flat(sectors, e)[at + (k - n)]
      ensures forall k :: 0 <= k < n || n + chunk <= k < buffer.Length ==> buffer[k] == old(buffer[k])
    {
      InRange(e, at);
      var data := BlockRead(e.start + at / SECTOR);
      if at % SECTOR == 0 && chunk == SECTOR {
        Copy(buffer, n, data, 0, SECTOR);
      } else {
        Copy(buffer, n, data, at % SECTOR, chunk);
      }
      forall k | n <= k < n + chunk ensures buffer[k] == Flat(sectors, e)[at + (k - n)] {
        SameSector(at, k - n);
      }
    }

    /** Reads up to size bytes at offset into the front of buffer and leaves the rest of it alone. */
    method ReadAt(e: Extent, buffer: array<Byte>, size: int, offset: nat) returns (n: nat)
      requires Valid() && Fits(e, sectors) && size <= buffer.Length
      modifies buffer
      ensures n == if size <= 0 || offset >= e.length then 0
                   else if size < e.length - offset then size else e.length - offset
      ensures n > 0 ==> buffer[..n] == Flat(sectors, e)[offset..offset + n]
      ensures buffer[n..] == old(buffer[n..])
    {
      n := 0;
      var left, at := size, offset;
      while left > 0
        invariant left == size - n && at == offset + n && n <= Max(0, size)
        invariant n > 0 ==> at <= e.length
        invariant forall k :: 0 <= k < n ==> buffer[k] == Flat(sectors, e)[offset + k]
        invariant forall k :: n <= k < buffer.Length ==> buffer[k] == old(buffer[k])
        decreases left
      {
        var chunk := Chunk(e.length, left, at);
        ChunkStops(e.length, left, at);
        if chunk <= 0 { break; }
        ReadChunk(e, buffer, n, at, chunk);
        left, at, n := left - chunk, at + chunk, n + chunk;
      }
      TransferEnds(e.length, size, offset, n);
    }

    /** Part of a sector, or all of it, is replaced; a partial sector always keeps bytes around the part, so it is
        read in first. */
    method PatchSector(s: nat, o: nat, bytes: seq<Byte>)
      requires Valid() && s < |sectors| && o + |bytes| <= SECTOR
      modifies this
      ensures Valid() && sectors == old(sectors)[s := old(sectors)[s][..o] + bytes + old(sectors)[s][o + |bytes|..]]
    {
      var bounce := bytes;
      if o != 0 || |bytes| != SECTOR {
        var data := BlockRead(s);
        bounce := data[..o] + bytes + data[o + |bytes|..];
      } else {
        assert bounce == sectors[s][..o] + bytes + sectors[s][o + |bytes|..];
      }
      BlockWrite(s, bounce);
    }

    /** Writes up to size bytes of buffer at offset; denied while deny_write_cnt is not zero. */
    method WriteAt(e: Extent, denyCount: nat, buffer: seq<Byte>, size: int, offset: nat) returns (n: nat)
      requires Valid() && Fits(e, sectors) && size <= |buffer|
      modifies this
      ensures n == if denyCount > 0 || size <= 0 || offset >= e.length then 0
                   else if size < e.length - offset then size else e.length - offset
      ensures n <= |buffer| && Written(old(sectors), sectors, e, buffer, offset, n)
      ensures denyCount > 0 ==> sectors == old(sectors)
    {
      n := 0;
      if denyCount != 0 { return; }
      var left, at := size, offset;
      while left > 0
        invariant left == size - n && at == offset + n && n <= Max(0, size)
        invariant n > 0 ==> at <= e.length
        invariant Written(old(sectors), sectors, e, buffer, offset, n)
        decreases left
      {
        var chunk := Chunk(e.length, left, at);
        ChunkStops(e.length, left, at);
        if chunk <= 0 { break; }
        InRange(e, at);
        WriteChunk(old(sectors), sectors, e, buffer, offset, n, chunk);
        PatchSector(e.start + at / SECTOR, at % SECTOR, buffer[n..n + chunk]);
        left, at, n := left - chunk, at + chunk, n + chunk;
      }
      TransferEnds(e.length, size, offset, n);
    }

    /** The loop in inode_create that clears the data sectors of a new file. */
    method ZeroData(e: Extent)
      requires Valid() && Fits(e, sectors)
      modifies this
      ensures Valid() && Zeroed(old(sectors), sectors, e)
    {
      var zeros := seq(SECTOR, _ => 0);
      var i := 0;
      while i < BytesToSectors(e.length)
        invariant 0 <= i <= BytesToSectors(e.length) && Valid() && |sectors| == |old(sectors)|
        invariant forall s :: 0 <= s < |sectors| ==>
          if e.start <= s < e.start + i then sectors[s] == zeros else sectors[s] == old(sectors)[s]
      {
        BlockWrite(e.start + i, zeros);
        i := i + 1;
      }
    }
  }

  /** The sectors of the extent are all zero and the others are as they were. */
  ghost predicate Zeroed(before: seq<seq<Byte>>, after: seq<seq<Byte>>, e: Extent)
  {
    && |after| == |before|
    && (forall s :: 0 <= s < |after| && e.start <= s < e.start + BytesToSectors(e.length) ==>
      |after[s]| == SECTOR && forall i :: 0 <= i < SECTOR ==> after[s][i] == 0)
    && (forall s :: 0 <= s < |after| && !(e.start <= s < e.start + BytesToSectors(e.length)) ==> after[s] == before[s])
  }

  /** A file whose sectors were cleared reads as zeros; a file in other sectors keeps its bytes. */
  lemma ZeroedFlat(before: seq<seq<Byte>>, after: seq<seq<Byte>>, e: Extent, f: Extent)
    requires Formatted(before) && Formatted(after) && Zeroed(before, after, e) && Fits(e, before) && Fits(f, before)
    ensures forall p :: 0 <= p < e.length ==> Flat(after, e)[p] == 0
    ensures Apart(e, f) ==> Flat(after, f) == Flat(before, f)
  {
    forall p | 0 <= p < e.length ensures Flat(after, e)[p] == 0 { InRange(e, p); }
    if Apart(e, f) {
      forall p | 0 <= p < f.length ensures Flat(after, f)[p] == Flat(before, f)[p] { InRange(f, p); }
    }
  }

  /** memcpy of count bytes of data, from position from, to position at of buffer. */
  method Copy(buffer: array<Byte>, at: nat, data: seq<Byte>, from: nat, count: nat)
    requires at + count <= buffer.Length && from + count <= |data|
    modifies buffer
    ensures forall k :: at <= k < at + count ==> buffer[k] == data[from + (k - at)]
    ensures forall k :: 0 <= k < buffer.Length && !(at <= k < at + count) ==> buffer[k] == old(buffer[k])
  {
    for i := 0 to count
      invariant forall k :: at <= k < at + i ==> buffer[k] == data[from + (k - at)]
      invariant forall k :: 0 <= k < buffer.Length && !(at <= k < at + i) ==> buffer[k] == old(buffer[k])
    {
      buffer[at + i] := data[from + i];
    }
  }
}
