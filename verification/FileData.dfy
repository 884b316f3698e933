/** What a write to one file leaves alone, in every reachable state of the file system (filesys/inode.c). */
module FileData {
  import opened Common
  import opened InodeIO
  import opened FileSys
  import opened FileSysRuns

  /** The device after n bytes of data were written at offset through the inode in sector s. */
  ghost predicate WriteTo(st: Fs, s: nat, before: seq<seq<Byte>>, after: seq<seq<Byte>>, data: seq<Byte>, offset: nat,
                          n: nat)
  {
    && s in st.inodes && |before| == |st.used| && InodeIO.Formatted(before) && n <= |data|
    && Written(before, after, st.inodes[s], data, offset, n) && (n > 0 ==> offset + n <= st.inodes[s].length)
  }

  /** The device after the data sectors of the inode in sector s were cleared. */
  ghost predicate ClearOf(st: Fs, s: nat, before: seq<seq<Byte>>, after: seq<seq<Byte>>)
  {
    && s in st.inodes && |before| == |st.used| && InodeIO.Formatted(before) && InodeIO.Formatted(after)
    && Zeroed(before, after, st.inodes[s])
  }

  /** The file of the inode in sector t reads the same. */
  ghost predicate SameFile(st: Fs, t: nat, before: seq<seq<Byte>>, after: seq<seq<Byte>>)
    requires t in st.inodes && InodeIO.Formatted(before) && InodeIO.Formatted(after)
  {
    Fits(st.inodes[t], before) && Fits(st.inodes[t], after) && Flat(after, st.inodes[t]) == Flat(before, st.inodes[t])
  }

  /** The sectors that hold live inodes are the same. */
  ghost predicate SameInodes(st: Fs, before: seq<seq<Byte>>, after: seq<seq<Byte>>)
  {
    |after| == |before| && forall u :: u in Live(st) ==> u < |before| && after[u] == before[u]
  }

  /** A sector outside the file is left alone. */
  lemma SectorKept(st: Fs, s: nat, before: seq<seq<Byte>>, after: seq<seq<Byte>>, data: seq<Byte>, offset: nat, n: nat,
                   k: nat)
    requires WriteTo(st, s, before, after, data, offset, n) && k < |before|
    requires !Within(k, st.inodes[s].start, End(st.inodes[s]))
    ensures after[k] == before[k]
  {
    forall i | 0 <= i < SECTOR ensures after[k][i] == before[k][i] {
      if n > 0 { BeyondFile(st.inodes[s], k, i, offset, n); }
      assert after[k][i] == ByteAfter(before, st.inodes[s], data, offset, n, k, i);
    }
  }

  /** A file none of whose sectors changed reads the same. */
  lemma FileKept(st: Fs, t: nat, before: seq<seq<Byte>>, after: seq<seq<Byte>>)
    requires FsInv(st) && t in Live(st) && |before| == |st.used| == |after| && InodeIO.Formatted(before)
    requires InodeIO.Formatted(after)
    requires forall k: nat :: Within(k, st.inodes[t].start, End(st.inodes[t])) ==> after[k] == before[k]
    ensures SameFile(st, t, before, after)
  {
    var f := st.inodes[t];
    forall p | 0 <= p < f.length ensures Flat(after, f)[p] == Flat(before, f)[p] {
      InRange(f, p);
      assert Within(f.start + p / SECTOR, f.start, End(f));
    }
  }

  /** The sectors of a live inode's file are those of no other live inode, nor the sector of any live inode. */
  lemma DataIsOwn(st: Fs, s: nat, u: nat, k: nat)
    requires FsInv(st) && s in Live(st) && u in Live(st) && Within(k, st.inodes[s].start, End(st.inodes[s]))
    ensures k != u && (u != s ==> !Within(k, st.inodes[u].start, End(st.inodes[u])))
  {
    assert InFoot(st.inodes, s, k);
    assert InFoot(st.inodes, u, u);
    assert Within(k, st.inodes[u].start, End(st.inodes[u])) ==> InFoot(st.inodes, u, k);
  }

  /** A write to one file changes no byte of any other live file, those without data included, and no live inode. */
  lemma WriteIsLocal(states: seq<Fs>, events: seq<Event>, i: nat, s: nat, t: nat,
                     before: seq<seq<Byte>>, after: seq<seq<Byte>>, data: seq<Byte>, offset: nat, n: nat)
    requires IsRun(states, events) && i < |states| && s in Live(states[i]) && t in Live(states[i]) && s != t
    requires WriteTo(states[i], s, before, after, data, offset, n)
    ensures t in states[i].inodes && SameFile(states[i], t, before, after) && SameInodes(states[i], before, after)
  {
    Reachable(states, events, i);
    var st := states[i];
    forall k: nat | Within(k, st.inodes[t].start, End(st.inodes[t])) ensures after[k] == before[k] {
      DataIsOwn(st, t, s, k);
      SectorKept(st, s, before, after, data, offset, n, k);
    }
    FileKept(st, t, before, after);
    forall u | u in Live(st) ensures u < |before| && after[u] == before[u] {
      if Within(u, st.inodes[s].start, End(st.inodes[s])) { DataIsOwn(st, s, u, u); }
      SectorKept(st, s, before, after, data, offset, n, u);
    }
  }

  /** Clearing a new file's data makes it read as zeros, and changes no other live file and no live inode. */
  lemma ClearIsLocal(states: seq<Fs>, events: seq<Event>, i: nat, s: nat, t: nat, before: seq<seq<Byte>>,
                     after: seq<seq<Byte>>)
    requires IsRun(states, events) && i < |states| && s in Live(states[i]) && t in Live(states[i]) && s != t
    requires ClearOf(states[i], s, before, after)
    ensures var e := states[i].inodes[s];
            Fits(e, after) && forall p :: 0 <= p < e.length ==> Flat(after, e)[p] == 0
    ensures t in states[i].inodes && SameFile(states[i], t, before, after) && SameInodes(states[i], before, after)
  {
    Reachable(states, events, i);
    var st := states[i];
    ZeroedFlat(before, after, st.inodes[s], st.inodes[s]);
    forall k: nat | Within(k, st.inodes[t].start, End(st.inodes[t])) ensures after[k] == before[k] {
      DataIsOwn(st, t, s, k);
    }
    FileKept(st, t, before, after);
    forall u | u in Live(st) ensures u < |before| && after[u] == before[u] {
      if Within(u, st.inodes[s].start, End(st.inodes[s])) { DataIsOwn(st, s, u, u); }
    }
  }
}
