/** What each file system call does, field by field (filesys/filesys.c, filesys/file.c, filesys/inode.c). */
module FileSysCalls {
  import opened Common
  import opened FreeMap
  import opened InodeIO
  import opened FileSys
  import opened FileSysRuns

  /** As many sectors as hold the bytes, and no more. */
  lemma SectorsHold(size: nat)
    ensures size <= 512 * BytesToSectors(size) < size + 512
  {
  }

  /** Only what is in memory has changed. */
  ghost predicate DiskSame(st: Fs, st': Fs)
  {
    && st'.used == st.used && st'.inodes == st.inodes && st'.names == st.names && st'.slots == st.slots
    && st'.leaked == st.leaked
  }

  // ---------------------------------------------------------------- open and reopen

  /** h is a new opener of the inode in sector s, which denies nothing; nothing else has changed. */
  ghost predicate OpenedOn(st: Fs, st': Fs, h: nat, s: nat)
  {
    && DiskSame(st, st') && st'.handles == st.handles[h := Handle(s, false)]
    && (set g | g in st'.handles && st'.handles[g].sector == s) ==
      (set g | g in st.handles && st.handles[g].sector == s) + {h}
    && s in st.inodes && s in st'.open && (forall t :: t != s ==> (t in st'.open <==> t in st.open))
    && (forall t :: t in st.open && t != s ==> st'.open[t] == st.open[t])
    && (if s in st.open
        then st'.open[s].openCnt == st.open[s].openCnt + 1 && st'.open[s].removed == st.open[s].removed &&
             st'.open[s].denyCnt == st.open[s].denyCnt && st'.open[s].data == st.open[s].data
        else st'.open[s] == OpenInode(1, false, 0, st.inodes[s]))
  }

  lemma OpenedIs(st: Fs, h: nat, s: nat)
    requires h !in st.handles && s in st.inodes
    ensures OpenedOn(st, OpenInodeAt(st, h, s), h, s)
  {
    var st' := OpenInodeAt(st, h, s);
    assert (set g | g in st'.handles && st'.handles[g].sector == s) ==
      (set g | g in st.handles && st.handles[g].sector == s) + {h};
  }

  /** filesys_open gives an opener of the inode the name stands for, or changes nothing when there is no such name. */
  lemma OpenMeans(st: Fs, name: Name, h: nat)
    requires FsInv(st) && h !in st.handles
    ensures Enabled(st, OpenFile(name, h))
    ensures if name in st.names then OpenedOn(st, Next(st, OpenFile(name, h)), h, st.names[name])
            else Next(st, OpenFile(name, h)) == st
  {
    if name in st.names {
      NamedIsStored(st, name);
      OpenedIs(st, h, st.names[name]);
    }
  }

  lemma NamedIsStored(st: Fs, name: Name)
    requires InodesOk(st) && name in st.names
    ensures st.names[name] in st.inodes && st.names[name] in Live(st)
  {
    assert st.names[name] in st.names.Values;
  }

  /** file_reopen gives an opener of the same inode. */
  lemma ReopenMeans(st: Fs, g: nat, h: nat)
    requires FsInv(st) && g in st.handles && h !in st.handles
    ensures Enabled(st, ReopenFile(g, h))
    ensures OpenedOn(st, Next(st, ReopenFile(g, h)), h, st.handles[g].sector)
  {
    assert InodeOk(st.open[st.handles[g].sector], st.inodes, st.names, st.handles[g].sector);
    OpenedIs(st, h, st.handles[g].sector);
  }

  /** The root directory opened for the look-up and closed again leaves no trace but the new opener. */
  lemma LookedUp(st: Fs, d: nat, h: nat, s: nat)
    requires OpenOk(st) && d !in st.handles && h !in st.handles && d != h
    requires ROOT_DIR_SECTOR in st.inodes && s in st.inodes && s != ROOT_DIR_SECTOR
    ensures var held := OpenInodeAt(OpenInodeAt(st, d, ROOT_DIR_SECTOR), h, s);
            && d in held.handles && held.handles[d] == Handle(ROOT_DIR_SECTOR, false)
            && ROOT_DIR_SECTOR in held.open && held.open[ROOT_DIR_SECTOR].openCnt > 0
            && (held.open[ROOT_DIR_SECTOR].openCnt == 1 ==> !held.open[ROOT_DIR_SECTOR].removed)
            && CloseInode(held, d) == OpenInodeAt(st, h, s)
  {
    RootHeld(st, d);
    OtherInode(st, d, h, s);
  }

  lemma RootHeld(st: Fs, d: nat)
    requires OpenOk(st) && d !in st.handles && ROOT_DIR_SECTOR in st.inodes
    ensures ROOT_DIR_SECTOR in st.open ==> st.open[ROOT_DIR_SECTOR].openCnt > 0
  {
    if ROOT_DIR_SECTOR in st.open { assert CountsOk(st.open[ROOT_DIR_SECTOR], st.handles, ROOT_DIR_SECTOR); }
  }

  lemma OtherInode(st: Fs, d: nat, h: nat, s: nat)
    requires d !in st.handles && h !in st.handles && d != h
    requires ROOT_DIR_SECTOR in st.inodes && s in st.inodes && s != ROOT_DIR_SECTOR
    requires ROOT_DIR_SECTOR in st.open ==> st.open[ROOT_DIR_SECTOR].openCnt > 0
    ensures var held := OpenInodeAt(OpenInodeAt(st, d, ROOT_DIR_SECTOR), h, s);
            && held.handles[d] == Handle(ROOT_DIR_SECTOR, false) && ROOT_DIR_SECTOR in held.open
            && held.open[ROOT_DIR_SECTOR].openCnt > 0 && CloseInode(held, d) == OpenInodeAt(st, h, s)
  {
    var held := OpenInodeAt(OpenInodeAt(st, d, ROOT_DIR_SECTOR), h, s);
    assert CloseInode(held, d).open == OpenInodeAt(st, h, s).open;
    assert CloseInode(held, d).handles == OpenInodeAt(st, h, s).handles;
  }

  lemma LookedInVain(st: Fs, d: nat)
    requires OpenOk(st) && d !in st.handles && ROOT_DIR_SECTOR in st.inodes
    ensures var held := OpenInodeAt(st, d, ROOT_DIR_SECTOR);
            && d in held.handles && held.handles[d] == Handle(ROOT_DIR_SECTOR, false)
            && ROOT_DIR_SECTOR in held.open && held.open[ROOT_DIR_SECTOR].openCnt > 0
            && (held.open[ROOT_DIR_SECTOR].openCnt == 1 ==> !held.open[ROOT_DIR_SECTOR].removed)
            && CloseInode(held, d) == st
  {
    var held := OpenInodeAt(st, d, ROOT_DIR_SECTOR);
    RootHeld(st, d);
    assert CloseInode(held, d).open == st.open && CloseInode(held, d).handles == st.handles;
  }

  // ---------------------------------------------------------------- deny and allow

  /** The opener's mind is as said, the inode counts it accordingly, and nothing else has changed. */
  ghost predicate DenySet(st: Fs, st': Fs, h: nat, deny: bool)
    requires h in st.handles
  {
    var s := st.handles[h].sector;
    && DiskSame(st, st') && st'.handles == st.handles[h := Handle(s, deny)]
    && s in st.open && s in st'.open && st'.open == st.open[s := st.open[s].(denyCnt := st'.open[s].denyCnt)]
    && st'.open[s].denyCnt - st.open[s].denyCnt == (if deny then 1 else 0) - (if st.handles[h].denies then 1 else 0)
    && (deny ==> st'.open[s].denyCnt > 0)
  }

  lemma DenySetIs(st: Fs, h: nat, deny: bool)
    requires h in st.handles && st.handles[h].sector in st.open
    requires st.handles[h].denies ==> st.open[st.handles[h].sector].denyCnt > 0
    ensures DenySet(st, SetDeny(st, h, deny), h, deny)
  {
    assert st.handles[h] == Handle(st.handles[h].sector, st.handles[h].denies);
  }

  /** After file_deny_write the opener denies, and as long as one does the inode refuses writes. */
  lemma DenyMeans(st: Fs, h: nat)
    requires FsInv(st) && h in st.handles && h != MAP_HANDLE
    ensures Enabled(st, DenyWrite(h))
    ensures DenySet(st, Next(st, DenyWrite(h)), h, true)
  {
    DenyCounts(st, h);
    DenySetIs(st, h, true);
  }

  lemma AllowMeans(st: Fs, h: nat)
    requires FsInv(st) && h in st.handles
    ensures Enabled(st, AllowWrite(h))
    ensures DenySet(st, Next(st, AllowWrite(h)), h, false)
  {
    DenyCounts(st, h);
    DenySetIs(st, h, false);
  }

  /** A write through an inode that some opener denies moves no byte. */
  lemma DeniedWrites(st: Fs, h: nat)
    requires FsInv(st) && h in st.handles && st.handles[h].denies
    ensures st.handles[h].sector in st.open && st.open[st.handles[h].sector].denyCnt > 0
  {
    DenyCounts(st, h);
  }

  // ---------------------------------------------------------------- close

  lemma CloseInodeIs(st: Fs, h: nat)
    requires h in st.handles && st.handles[h].sector in st.open && st.open[st.handles[h].sector].openCnt > 0
    ensures var st', s := CloseInode(st, h), st.handles[h].sector;
            && st'.handles == st.handles - {h} && st'.inodes == st.inodes && st'.names == st.names
            && (forall t :: t != s ==> (t in st'.open <==> t in st.open))
            && (forall t :: t in st.open && t != s ==> st'.open[t] == st.open[t])
            && (s in st'.open <==> st.open[s].openCnt > 1)
            && (s in st'.open ==> st'.open[s] == st.open[s].(openCnt := st.open[s].openCnt - 1))
  {
  }

  /** The opener is gone, with its denial; the inode stays in memory as long as anybody has it open. */
  lemma CloseMeans(st: Fs, h: nat)
    requires FsInv(st) && h in st.handles && h != MAP_HANDLE
    ensures Enabled(st, CloseHandle(h))
    ensures var st', s := Next(st, CloseHandle(h)), st.handles[h].sector;
            && s in st.open && st'.handles == st.handles - {h} && st'.inodes == st.inodes && st'.names == st.names
            && (forall t :: t != s ==> (t in st'.open <==> t in st.open))
            && (forall t :: t in st.open && t != s ==> st'.open[t] == st.open[t])
            && (s in st'.open <==> exists g :: g in st.handles && g != h && st.handles[g].sector == s)
            && (s in st'.open ==> st'.open[s].openCnt == st.open[s].openCnt - 1)
            && (s in st'.open ==> st'.open[s].removed == st.open[s].removed)
            && (s in st'.open ==> st'.open[s].denyCnt == st.open[s].denyCnt - (if st.handles[h].denies then 1 else 0))
  {
    AnotherOpener(st, h, st.handles[h].sector);
    DenyCounts(st, h);
    AllowedThenClosed(st, h);
  }

  lemma AllowedThenClosed(st: Fs, h: nat)
    requires h in st.handles && st.handles[h].sector in st.open && st.open[st.handles[h].sector].openCnt > 0
    requires st.handles[h].denies ==> st.open[st.handles[h].sector].denyCnt > 0
    ensures var st', s := CloseFile(st, h), st.handles[h].sector;
            && st'.handles == st.handles - {h} && st'.inodes == st.inodes && st'.names == st.names
            && (forall t :: t != s ==> (t in st'.open <==> t in st.open))
            && (forall t :: t in st.open && t != s ==> st'.open[t] == st.open[t])
            && (s in st'.open <==> st.open[s].openCnt > 1)
            && (s in st'.open ==> st'.open[s].openCnt == st.open[s].openCnt - 1)
            && (s in st'.open ==> st'.open[s].removed == st.open[s].removed)
            && (s in st'.open ==> st'.open[s].denyCnt == st.open[s].denyCnt - (if st.handles[h].denies then 1 else 0))
  {
    DenySetIs(st, h, false);
    var st1, s := SetDeny(st, h, false), st.handles[h].sector;
    CloseInodeIs(st1, h);
    assert st1.handles - {h} == st.handles - {h};
  }

  lemma AnotherOpener(st: Fs, h: nat, s: nat)
    requires OpenOk(st) && h in st.handles && st.handles[h].sector == s
    ensures s in st.open && st.open[s].openCnt > 0
    ensures st.open[s].openCnt > 1 <==> exists g :: g in st.handles && g != h && st.handles[g].sector == s
  {
    assert CountsOk(st.open[s], st.handles, s);
    var all := Openers(st.handles, s);
    assert h in all;
    if g :| g in st.handles && g != h && st.handles[g].sector == s {
      SubsetSize({h, g}, all);
    } else {
      assert all == {h};
    }
  }

  // ---------------------------------------------------------------- create

  /** k is the lowest free sector. */
  ghost predicate LowestFree(used: seq<bool>, k: nat)
  {
    k < |used| && !used[k] && forall i :: 0 <= i < k ==> used[i]
  }

  /** A free sector, and as many consecutive free sectors besides as the data needs. */
  ghost predicate HasRoom(used: seq<bool>, size: nat)
  {
    exists a: nat, b: nat :: LowestFree(used, a) && FreeFor(used, a, b, size)
  }

  ghost predicate FreeFor(used: seq<bool>, a: nat, b: nat, size: nat)
  {
    b + BytesToSectors(size) <= |used| && forall i :: b <= i < b + BytesToSectors(size) ==> !used[i] && i != a
  }

  lemma LowestIs(used: seq<bool>, k: nat)
    ensures LowestFree(used, k) <==> FirstFit(used, 0, 1, false) == Some(k)
  {
    var r := FirstFit(used, 0, 1, false);
    if LowestFree(used, k) { FirstFree(used, k); }
    if r == Some(k) {
      assert Run(used, k, 1, false) && !used[k];
      forall i | 0 <= i < k ensures used[i] { assert !Run(used, i, 1, false); }
    }
  }

  lemma RoomIs(st: Fs, size: nat, w1: bool, w2: bool)
    ensures Room(st, size, w1, w2) <==> w1 && w2 && HasRoom(st.used, size)
  {
    var a := FirstFit(st.used, 0, 1, false);
    if a.Some? {
      LowestIs(st.used, a.value);
      RunIs(st.used, a.value, size);
    }
    if HasRoom(st.used, size) {
      var x: nat, y: nat :| LowestFree(st.used, x) && FreeFor(st.used, x, y, size);
      LowestIs(st.used, x);
      RunIs(st.used, x, size);
    }
  }

  lemma RunIs(used: seq<bool>, a: nat, size: nat)
    requires LowestFree(used, a)
    ensures FirstFit(SetRun(used, a, 1, true), 0, BytesToSectors(size), false).Some? <==>
            exists b: nat :: FreeFor(used, a, b, size)
  {
    var used1, n := SetRun(used, a, 1, true), BytesToSectors(size);
    var r := FirstFit(used1, 0, n, false);
    forall b: nat ensures Run(used1, b, n, false) <==> FreeFor(used, a, b, size) {}
    if r.Some? { assert Run(used1, r.value, n, false) && FreeFor(used, a, r.value, size); }
    if b: nat :| FreeFor(used, a, b, size) { assert Run(used1, b, n, false); }
  }

  /** The new file: its inode is in the lowest free sector and its data, of the size asked for, in free sectors; those
      sectors are used now, the name stands for the inode, and nothing else has changed. */
  ghost predicate NewFile(st: Fs, st': Fs, name: Name, size: nat)
  {
    name in st'.names && var s := st'.names[name];
    && LowestFree(st.used, s) && s in st'.inodes
    && var e := st'.inodes[s];
       && e.length == size && FreeFor(st.used, s, e.start, size)
       && st'.names == st.names[name := s] && st'.inodes == st.inodes[s := e]
       && |st'.used| == |st.used|
       && (forall i :: 0 <= i < |st.used| ==>
             st'.used[i] == (st.used[i] || i == s || e.start <= i < e.start + BytesToSectors(size)))
       && st'.open == st.open && st'.handles == st.handles && st'.slots == st.slots && st'.leaked == st.leaked
  }

  /** filesys_create makes the file exactly when there is room, the name is new and valid, and the directory has a
      slot. */
  lemma CreateMeans(st: Fs, name: Name, size: nat, w1: bool, w2: bool, h: nat)
    requires FsInv(st) && h !in st.handles
    ensures var r := Create(st, name, size, w1, w2, h);
            && (r.success <==>
                  w1 && w2 && HasRoom(st.used, size) && 0 < |name| <= 14 && name !in st.names && |st.names| < st.slots)
            && (r.success ==> NewFile(st, r.st, name, size))
    ensures Enabled(st, CreateFile(name, size, w1, w2, h))
    ensures Next(st, CreateFile(name, size, w1, w2, h)) == Create(st, name, size, w1, w2, h).st
  {
    CreateFails(st, name, size, w1, w2, h);
    RoomIs(st, size, w1, w2);
    CreateOutcome(st, name, size, w1, w2, h);
    if Create(st, name, size, w1, w2, h).success { BodyMakes(st, name, size, w1, w2); }
  }

  lemma BodyMakes(st: Fs, name: Name, size: nat, w1: bool, w2: bool)
    requires CreateBody(st, name, size, w1, w2).success
    ensures NewFile(st, CreateBody(st, name, size, w1, w2).st, name, size)
  {
    var a := Allocate(st.used, 1, w1).value;
    LowestIs(st.used, a);
    var b := Allocate(SetRun(st.used, a, 1, true), BytesToSectors(size), w2).value;
    TakenRun(st.used, a, b, size);
  }

  lemma TakenRun(used: seq<bool>, a: nat, b: nat, size: nat)
    requires LowestFree(used, a) && Run(SetRun(used, a, 1, true), b, BytesToSectors(size), false)
    ensures FreeFor(used, a, b, size)
  {
    forall i | b <= i < b + BytesToSectors(size) ensures !used[i] && i != a { assert !SetRun(used, a, 1, true)[i]; }
  }

  // ---------------------------------------------------------------- remove

  /** With the same openers the same inodes are in memory, with the same counts. */
  ghost predicate SameOpeners(st: Fs, st': Fs)
  {
    && st'.handles == st.handles && st'.open.Keys == st.open.Keys
    && forall t :: t in st.open ==>
         st'.open[t].openCnt == st.open[t].openCnt && st'.open[t].denyCnt == st.open[t].denyCnt &&
           st'.open[t].data == st.open[t].data
  }

  lemma OpenersDecide(st: Fs, st': Fs)
    requires OpenOk(st) && OpenOk(st') && st'.handles == st.handles && st'.inodes == st.inodes
    ensures SameOpeners(st, st')
  {
    forall t ensures t in st.open <==> t in st'.open { OpenIfOpeners(st, t); OpenIfOpeners(st', t); }
    forall t | t in st.open
      ensures st'.open[t].openCnt == st.open[t].openCnt && st'.open[t].denyCnt == st.open[t].denyCnt
      ensures st'.open[t].data == st.open[t].data
    {
      assert CountsOk(st.open[t], st.handles, t) && CountsOk(st'.open[t], st'.handles, t);
      assert InodeOk(st.open[t], st.inodes, st.names, t) && InodeOk(st'.open[t], st'.inodes, st'.names, t);
    }
  }

  lemma OpenIfOpeners(st: Fs, t: nat)
    requires OpenOk(st)
    ensures t in st.open <==> Openers(st.handles, t) != {}
  {
    if t in st.open { assert CountsOk(st.open[t], st.handles, t); }
    if h :| h in Openers(st.handles, t) { assert st.handles[h].sector in st.open; }
  }

  /** filesys_remove takes the name away exactly when it is there; the file stays live as
      long as somebody has it open. */
  lemma RemoveMeans(st: Fs, name: Name, h: nat, f: nat)
    requires FsInv(st) && h !in st.handles && f !in st.handles && f != h
    ensures var r := Remove(st, name, h, f);
            && r.success == (name in st.names) && r.st.names == st.names - {name} && r.st.handles == st.handles
            && r.st.inodes == st.inodes && r.st.slots == st.slots && r.st.leaked == st.leaked
            && Live(r.st) ==
                 (if name in st.names && st.names[name] !in st.open then Live(st) - {st.names[name]} else Live(st))
  {
    if name !in st.names { assert st.names - {name} == st.names; }
    RemoveLive(st, name, h, f);
  }

  /** Removing a name, in whatever consistent way, keeps what is in memory and its counts, and marks that file alone. */
  lemma RemovalMarks(st: Fs, st': Fs, name: Name)
    requires OpenOk(st) && OpenOk(st') && NamesOk(st)
    requires st'.names == st.names - {name} && st'.handles == st.handles && st'.inodes == st.inodes
    ensures SameOpeners(st, st') && forall t :: t in st.open ==> MarkedBy(st, st', name, t)
  {
    OpenersDecide(st, st');
    RemovedMarks(st, st', name);
  }

  lemma RemoveEvent(st: Fs, name: Name, h: nat, f: nat)
    requires FsInv(st) && h !in st.handles && f !in st.handles && f != h
    ensures Enabled(st, RemoveFile(name, h, f)) && Next(st, RemoveFile(name, h, f)) == Remove(st, name, h, f).st
  {
  }

  /** The inode in sector t is marked removed if it was or if it was the one with that name. */
  ghost predicate MarkedBy(st: Fs, st': Fs, name: Name, t: nat)
    requires t in st.open
  {
    t in st'.open && (st'.open[t].removed <==> st.open[t].removed || (name in st.names && t == st.names[name]))
  }

  lemma RemovedMarks(st: Fs, st': Fs, name: Name)
    requires OpenOk(st) && OpenOk(st') && NamesOk(st) && st'.names == st.names - {name} && st'.open.Keys == st.open.Keys
    ensures forall t :: t in st.open ==> MarkedBy(st, st', name, t)
  {
    OtherNames(st, name);
    forall t | t in st.open ensures MarkedBy(st, st', name, t) {
      assert InodeOk(st.open[t], st.inodes, st.names, t) && InodeOk(st'.open[t], st'.inodes, st'.names, t);
    }
  }

  lemma OtherNames(st: Fs, name: Name)
    requires NamesOk(st)
    ensures forall t :: t in (st.names - {name}).Values <==>
            t in st.names.Values && !(name in st.names && t == st.names[name])
    ensures name in st.names ==> st.names[name] != FREE_MAP_SECTOR && st.names[name] != ROOT_DIR_SECTOR
    ensures name in st.names ==> st.names[name] in st.names.Values
  {
    if name in st.names { ErasedNames(st.names, name); } else { assert st.names - {name} == st.names; }
  }

  // ---------------------------------------------------------------- format and mount

  /** Mounting the device again finds it as it was left, with nobody but the free map's own opener. */
  lemma MountMeans(st: Fs)
    requires FsInv(st) && forall s :: s in st.open ==> !st.open[s].removed
    ensures Enabled(st, Remount) && DiskSame(st, Next(st, Remount))
    ensures Next(st, Remount).handles == map[0 := Handle(0, false)] && 0 in st.inodes
    ensures Next(st, Remount).open == map[0 := OpenInode(1, false, 0, st.inodes[0])]
  {
    assert FREE_MAP_SECTOR in Live(st);
  }

  /** do_format leaves an empty directory of the size asked for, a free map file, and no other sector in use. */
  lemma FormatMeans(size: nat, mapLen: nat, dirLen: nat, slots: nat)
    requires size >= 2 && Format(size, mapLen, dirLen, slots).Some?
    ensures var st := Format(size, mapLen, dirLen, slots).value;
            && st.names == map[] && st.slots == slots && st.inodes.Keys == {0, 1} && |st.used| == size
            && st.inodes[0].length == mapLen && st.inodes[1].length == dirLen && st.open.Keys == {0} && st.leaked == {}
            && (forall i :: 0 <= i < size ==>
                  (st.used[i] <==> i < 2
                                   || Within(i, st.inodes[0].start, End(st.inodes[0]))
                                   || Within(i, st.inodes[1].start, End(st.inodes[1]))))
  {
    FormatExtents(size, mapLen, dirLen, slots);
  }
}
