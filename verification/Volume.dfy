/** The mounted file system updated in place, proved against FileSys. */
module Volume {
  import opened FreeMap
  import opened InodeIO
  import opened FileSys
  import FileSysRuns
  import opened FileSysCalls

  class FileSystem {
    const freeMap: Bitmap
    var inodes: map<nat, Extent>
    var names: map<Name, nat>
    const slots: nat
    var open: map<nat, OpenInode>
    var handles: map<nat, Handle>
    ghost var leaked: set<nat>

    ghost function View(): Fs
      reads this, freeMap.bits
    {
      Fs(freeMap.bits[..], inodes, names, slots, open, handles, leaked)
    }

    /** free_map_init and inode_init */
    constructor (size: nat, slots: nat)
      requires size >= 2
      ensures fresh(freeMap) && fresh(freeMap.bits)
      ensures View() == Fs(SetRun(seq(size, _ => false), 0, 2, true), map[], map[], slots, map[], map[], {})
    {
      freeMap := new Bitmap(size);
      inodes, names, open, handles := map[], map[], map[], map[];
      this.slots := slots;
      leaked := {};
      new;
      freeMap.SetMultiple(0, 2, true);
    }

    /** do_format and free_map_open; failure is a kernel panic. */
    method Format(mapLen: nat, dirLen: nat) returns (ok: bool)
      requires View() ==
                 Fs(SetRun(seq(freeMap.bits.Length, _ => false), 0, 2, true), map[], map[], slots, map[], map[], {})
      requires freeMap.bits.Length >= 2
      modifies this`inodes, this`open, this`handles, freeMap.bits
      ensures var f := FileSysRuns.Format(freeMap.bits.Length, mapLen, dirLen, slots);
              ok == f.Some? && (ok ==> View() == f.value && FsInv(View()))
    {
      ok := InodeCreate(FREE_MAP_SECTOR, mapLen, true);
      if !ok { return; }
      ok := InodeCreate(ROOT_DIR_SECTOR, dirLen, true);
      if !ok { return; }
      InodeOpen(FileSysRuns.MAP_HANDLE, FREE_MAP_SECTOR);
      FileSysRuns.FormatInv(freeMap.bits.Length, mapLen, dirLen, slots);
    }

    /** inode_open: one in-memory inode however often it is opened. */
    method InodeOpen(h: nat, s: nat)
      requires s in inodes
      modifies this`open, this`handles
      ensures View() == OpenInodeAt(old(View()), h, s)
    {
      if s in open {
        open := open[s := open[s].(openCnt := open[s].openCnt + 1)];
      } else {
        open := open[s := OpenInode(1, false, 0, inodes[s])];
      }
      handles := handles[h := Handle(s, false)];
    }

    /** inode_close */
    method InodeClose(h: nat)
      requires h in handles && handles[h].sector in open && open[handles[h].sector].openCnt > 0
      requires var s := handles[h].sector;
               open[s].openCnt == 1 && open[s].removed ==>
                 && Run(freeMap.bits[..], s, 1, true)
                 && Run(SetRun(freeMap.bits[..], s, 1, false),
                        open[s].data.start, BytesToSectors(open[s].data.length), true)
      modifies this`open, this`handles, freeMap.bits
      ensures View() == CloseInode(old(View()), h)
    {
      var s := handles[h].sector;
      var inode := open[s];
      handles := handles - {h};
      if inode.openCnt - 1 == 0 {
        open := open - {s};
        if inode.removed {
          freeMap.Release(s, 1);
          freeMap.Release(inode.data.start, BytesToSectors(inode.data.length));
        }
      } else {
        open := open[s := inode.(openCnt := inode.openCnt - 1)];
      }
    }

    /** file_deny_write */
    method FileDenyWrite(h: nat)
      requires h in handles && handles[h].sector in open
      requires handles[h].denies ==> open[handles[h].sector].denyCnt > 0
      modifies this`open, this`handles
      ensures View() == SetDeny(old(View()), h, true)
    {
      var f := handles[h];
      if !f.denies {
        handles := handles[h := f.(denies := true)];
        open := open[f.sector := open[f.sector].(denyCnt := open[f.sector].denyCnt + 1)];
      }
    }

    /** file_allow_write */
    method FileAllowWrite(h: nat)
      requires h in handles && handles[h].sector in open
      requires handles[h].denies ==> open[handles[h].sector].denyCnt > 0
      modifies this`open, this`handles
      ensures View() == SetDeny(old(View()), h, false)
    {
      var f := handles[h];
      if f.denies {
        handles := handles[h := f.(denies := false)];
        open := open[f.sector := open[f.sector].(denyCnt := open[f.sector].denyCnt - 1)];
      }
    }

    /** file_close: the invariant meets the assertions of free_map_release. */
    method FileClose(h: nat)
      requires FsInv(View()) && h in handles
      modifies this`open, this`handles, freeMap.bits
      ensures old(handles[h].sector in open && open[handles[h].sector].openCnt > 0)
      ensures old(handles[h].denies) ==> old(open[handles[h].sector].denyCnt > 0)
      ensures View() == CloseFile(old(View()), h) && FsInv(View())
    {
      CloseFileKeeps(View(), h);
      ghost var s := handles[h].sector;
      ReleaseAssertions(View(), s);
      DenyKeeps(View(), h, false);
      FileAllowWrite(h);
      SameInode(View(), s);
      InodeClose(h);
    }

    /** inode_create: allocate the data sectors, then store the inode (and zero the data). */
    method InodeCreate(s: nat, length: nat, mapWritten: bool) returns (ok: bool)
      modifies this`inodes, freeMap.bits
      ensures var b := Allocate(old(freeMap.bits[..]), BytesToSectors(length), mapWritten);
              && ok == b.Some?
              && (ok ==> View() == old(View()).(
                    used := SetRun(old(freeMap.bits[..]), b.value, BytesToSectors(length), true),
                    inodes := old(inodes)[s := Extent(b.value, length)]))
              && (!ok ==> View() == old(View()))
    {
      var start := freeMap.Allocate(BytesToSectors(length), mapWritten);
      ok := start.Some?;
      if ok { inodes := inodes[s := Extent(start.value, length)]; }
    }

    /** The body of filesys_create, under an opener of the root directory. */
    method CreateEntry(name: Name, size: nat, w1: bool, w2: bool) returns (success: bool)
      modifies this`inodes, this`names, this`leaked, freeMap.bits
      ensures var r := CreateBody(old(View()), name, size, w1, w2); success == r.success && View() == r.st
    {
      var sector := freeMap.Allocate(1, w1);
      if sector.None? { return false; }
      var s := sector.value;
      var made := InodeCreate(s, size, w2);
      if !made {
        freeMap.Release(s, 1);
        return false;
      }
      success := ValidName(name) && name !in names && |names| < slots;
      if success {
        names := names[name := s];
      } else {
        StillMarked(old(freeMap.bits[..]), s, inodes[s].start, BytesToSectors(size));
        freeMap.Release(s, 1);
        leaked := leaked + Sectors(inodes[s].start, BytesToSectors(size));
      }
    }

    method FilesysCreate(name: Name, size: nat, w1: bool, w2: bool, h: nat) returns (success: bool)
      requires FsInv(View()) && h !in handles
      modifies this`inodes, this`names, this`open, this`handles, this`leaked, freeMap.bits
      ensures var r := Create(old(View()), name, size, w1, w2, h); success == r.success && View() == r.st
      ensures FsInv(View())
      ensures success <==> w1 && w2 && HasRoom(old(freeMap.bits[..]), size) &&
                           0 < |name| <= 14 && name !in old(names) && |old(names)| < slots
      ensures success ==> NewFile(old(View()), View(), name, size)
    {
      CreateMeans(View(), name, size, w1, w2, h);
      RootIsLive(View(), h);
      CreateInv(View(), name, size, w1, w2, h);
      InodeOpen(h, ROOT_DIR_SECTOR);
      CreateKeeps(View(), name, size, w1, w2);
      success := CreateEntry(name, size, w1, w2);
      ReleaseAssertions(View(), ROOT_DIR_SECTOR);
      SameInode(View(), ROOT_DIR_SECTOR);
      InodeClose(h);
    }

    /** filesys_open: the directory is open, as d, for the look-up only. */
    method FilesysOpen(name: Name, h: nat, d: nat) returns (ok: bool)
      requires FsInv(View()) && h !in handles && d !in handles && d != h
      modifies this`open, this`handles, freeMap.bits
      ensures ok <==> name in old(names)
      ensures if ok then OpenedOn(old(View()), View(), h, old(names)[name]) else View() == old(View())
      ensures FsInv(View())
    {
      ghost var st := View();
      FileSysRuns.RootIsStored(st);
      ok := name in names;
      FileSysRuns.InvKeeps(st, FileSysRuns.OpenFile(name, h));
      InodeOpen(d, ROOT_DIR_SECTOR);
      if ok {
        NamedIsStored(st, name);
        LookedUp(st, d, h, names[name]);
        OpenedIs(st, h, names[name]);
        InodeOpen(h, names[name]);
      } else {
        LookedInVain(st, d);
      }
      InodeClose(d);
    }

    /** file_reopen */
    method FileReopen(g: nat, h: nat)
      requires FsInv(View()) && g in handles && h !in handles
      modifies this`open, this`handles
      ensures OpenedOn(old(View()), View(), h, old(handles)[g].sector) && FsInv(View())
    {
      FileSysRuns.InvKeeps(View(), FileSysRuns.ReopenFile(g, h));
      ReopenMeans(View(), g, h);
      InodeOpen(h, handles[g].sector);
    }

    /** dir_remove under an opener of the root directory. */
    method RemoveEntry(name: Name, f: nat) returns (success: bool)
      requires FsInv(View()) && f !in handles
      modifies this`names, this`open, this`handles, freeMap.bits
      ensures var r := RemoveBody(old(View()), name, f); success == r.success && View() == r.st
    {
      if name !in names { return false; }
      HeldBriefly(View(), name, f);
      var s := names[name];
      InodeOpen(f, s);
      EraseEntry(name);
      ReleaseAssertions(View(), s);
      SameInode(View(), s);
      InodeClose(f);
      success := true;
    }

    /** The entry is erased, then inode_remove. */
    method EraseEntry(name: Name)
      requires name in names && names[name] in open
      modifies this`names, this`open
      ensures View() == EraseName(old(View()), name)
    {
      var s := names[name];
      names := names - {name};
      open := open[s := open[s].(removed := true)];
    }

    method FilesysRemove(name: Name, h: nat, f: nat) returns (success: bool)
      requires FsInv(View()) && h !in handles && f !in handles && f != h
      modifies this`names, this`open, this`handles, freeMap.bits
      ensures var r := Remove(old(View()), name, h, f); success == r.success && View() == r.st && FsInv(View())
    {
      RootIsLive(View(), h);
      RemoveInv(View(), name, h, f);
      InodeOpen(h, ROOT_DIR_SECTOR);
      RemoveBodyKeeps(View(), name, f);
      success := RemoveEntry(name, f);
      ReleaseAssertions(View(), ROOT_DIR_SECTOR);
      SameInode(View(), ROOT_DIR_SECTOR);
      InodeClose(h);
    }
  }

  /** The copy of an inode in memory is the one on the disk. */
  lemma SameInode(st: Fs, s: nat)
    requires FsInv(st) && s in st.open
    ensures s in st.inodes && st.open[s].data == st.inodes[s] && st.open[s].openCnt > 0
  {
    assert InodeOk(st.open[s], st.inodes, st.names, s) && CountsOk(st.open[s], st.handles, s);
  }

  lemma StillMarked(used: seq<bool>, a: nat, b: nat, n: nat)
    requires Run(used, a, 1, false)
    ensures Run(SetRun(SetRun(used, a, 1, true), b, n, true), a, 1, true)
  {
  }
}
