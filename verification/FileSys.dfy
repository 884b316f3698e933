/** Files, their openers and their sectors: the state of the file system and its operations
    (filesys/inode.c, filesys/file.c, filesys/filesys.c, filesys/free-map.c). */
module FileSys {
  import opened Common
  import opened FreeMap
  import opened InodeIO

  const FREE_MAP_SECTOR: nat := 0
  const ROOT_DIR_SECTOR: nat := 1
  const NAME_MAX: nat := 14

  /** struct inode: what is kept in memory once per open inode. */
  datatype OpenInode = OpenInode(openCnt: nat, removed: bool, denyCnt: nat, data: Extent)

  /** struct file or struct dir: one opener of an inode. */
  datatype Handle = Handle(sector: nat, denies: bool)

  /** inodes: the inode stored in each inode sector of the disk.  names: the root directory, which has
      room for slots entries.  leaked: the sectors that no inode will ever release. */
  datatype Fs = Fs(used: seq<bool>, inodes: map<nat, Extent>, names: map<Name, nat>, slots: nat,
                   open: map<nat, OpenInode>, handles: map<nat, Handle>, leaked: set<nat>)

  predicate ValidName(name: Name) { 0 < |name| <= NAME_MAX }

  // ---------------------------------------------------------------- inodes

  /** inode_open, or inode_reopen if the inode is in memory already. */
  function OpenInodeAt(st: Fs, h: nat, s: nat): (r: Fs)
    requires s in st.inodes
    ensures r == st.(open := r.open, handles := r.handles)
  {
    var inode := if s in st.open then st.open[s].(openCnt := st.open[s].openCnt + 1)
                 else OpenInode(1, false, 0, st.inodes[s]);
    st.(open := st.open[s := inode], handles := st.handles[h := Handle(s, false)])
  }

  /** file_deny_write and file_allow_write: the inode counts each opener at most once. */
  function SetDeny(st: Fs, h: nat, deny: bool): (r: Fs)
    ensures r == st.(open := r.open, handles := r.handles)
    requires h in st.handles && st.handles[h].sector in st.open
    requires st.handles[h].denies ==> st.open[st.handles[h].sector].denyCnt > 0
  {
    var f := st.handles[h];
    if f.denies == deny then st
    else
      var inode := st.open[f.sector];
      var cnt := if deny then inode.denyCnt + 1 else inode.denyCnt - 1;
      st.(handles := st.handles[h := f.(denies := deny)], open := st.open[f.sector := inode.(denyCnt := cnt)])
  }

  /** inode_remove */
  function MarkRemoved(st: Fs, s: nat): Fs
    requires s in st.open
  {
    st.(open := st.open[s := st.open[s].(removed := true)])
  }

  function ReleaseInode(used: seq<bool>, s: nat, e: Extent): seq<bool>
  {
    SetRun(SetRun(used, s, 1, false), e.start, BytesToSectors(e.length), false)
  }

  /** inode_close on an opener that denies no writes. */
  function CloseInode(st: Fs, h: nat): (r: Fs)
    ensures r == st.(open := r.open, handles := st.handles - {h}, used := r.used) && |r.used| == |st.used|
    requires h in st.handles && st.handles[h].sector in st.open && st.open[st.handles[h].sector].openCnt > 0
  {
    var s := st.handles[h].sector;
    var inode := st.open[s];
    var rest := st.(handles := st.handles - {h});
    if inode.openCnt > 1 then rest.(open := st.open[s := inode.(openCnt := inode.openCnt - 1)])
    else rest.(open := st.open - {s}, used := if inode.removed then ReleaseInode(st.used, s, inode.data) else st.used)
  }

  /** file_close */
  function CloseFile(st: Fs, h: nat): (r: Fs)
    ensures r == st.(open := r.open, handles := r.handles, used := r.used) && |r.used| == |st.used|
    requires h in st.handles && st.handles[h].sector in st.open && st.open[st.handles[h].sector].openCnt > 0
    requires st.handles[h].denies ==> st.open[st.handles[h].sector].denyCnt > 0
  {
    CloseInode(SetDeny(st, h, false), h)
  }

  // ---------------------------------------------------------------- creation

  function Allocate(used: seq<bool>, cnt: nat, written: bool): Option<nat>
  {
    if written then FirstFit(used, 0, cnt, false) else None
  }

  predicate Within(i: int, lo: int, hi: int) { lo <= i < hi }

  function Sectors(start: nat, cnt: nat): (r: set<nat>)
    ensures forall i :: i in r <==> Within(i, start, start + cnt)
    decreases cnt
  {
    if cnt == 0 then {} else {start} + Sectors(start + 1, cnt - 1)
  }

  function End(e: Extent): nat { e.start + BytesToSectors(e.length) }

  /** What dir_add needs: a valid name that is not in use, and a free slot. */
  predicate CanAdd(st: Fs, name: Name) { ValidName(name) && name !in st.names && |st.names| < st.slots }

  /** Both allocations were made and the directory entry written. */
  function Enter(st: Fs, name: Name, a: nat, e: Extent): Fs
  {
    st.(used := SetRun(SetRun(st.used, a, 1, true), e.start, BytesToSectors(e.length), true),
        inodes := st.inodes[a := e], names := st.names[name := a])
  }

  /** Both allocations were made but there is no directory entry: only the inode sector is given back. */
  function Leak(st: Fs, a: nat, e: Extent): Fs
  {
    st.(used := SetRun(SetRun(SetRun(st.used, a, 1, true), e.start, BytesToSectors(e.length), true), a, 1, false),
        inodes := st.inodes[a := e], leaked := st.leaked + Sectors(e.start, BytesToSectors(e.length)))
  }

  datatype Created = Created(st: Fs, success: bool)

  /** The body of filesys_create: an inode sector, the data sectors, the directory entry.  w1 and w2 tell
      whether the free map file took the map after each allocation. */
  function CreateBody(st: Fs, name: Name, size: nat, w1: bool, w2: bool): (r: Created)
    ensures |r.st.used| == |st.used| && r.st.open == st.open && r.st.handles == st.handles
  {
    var a := Allocate(st.used, 1, w1);
    if a.None? then Created(st, false)
    else
      var used1 := SetRun(st.used, a.value, 1, true);
      var b := Allocate(used1, BytesToSectors(size), w2);
      if b.None? then Created(st.(used := SetRun(used1, a.value, 1, false)), false)
      else if CanAdd(st, name) then Created(Enter(st, name, a.value, Extent(b.value, size)), true)
      else Created(Leak(st, a.value, Extent(b.value, size)), false)
  }

  // ---------------------------------------------------------------- invariant

  /** Sector i belongs to the inode in sector s. */
  ghost predicate InFoot(inodes: map<nat, Extent>, s: nat, i: nat)
    requires s in inodes
  {
    i == s || Within(i, inodes[s].start, End(inodes[s]))
  }

  /** The inodes that are named, open, or part of the file system itself. */
  ghost function Live(st: Fs): set<nat> { {FREE_MAP_SECTOR, ROOT_DIR_SECTOR} + st.names.Values + st.open.Keys }

  ghost predicate InodesOk(st: Fs)
  {
    forall s :: s in Live(st) ==>
      (s in st.inodes && s < |st.used| && End(st.inodes[s]) <= |st.used| &&
        !Within(s, st.inodes[s].start, End(st.inodes[s])))
  }

  /** No sector belongs to two live inodes. */
  ghost predicate Disjoint(st: Fs)
    requires InodesOk(st)
  {
    forall s, t, i: nat :: s in Live(st) && t in Live(st) && InFoot(st.inodes, s, i) && InFoot(st.inodes, t, i) ==>
      s == t
  }

  ghost predicate Owned(st: Fs, i: nat)
    requires InodesOk(st)
  {
    exists s :: s in Live(st) && InFoot(st.inodes, s, i)
  }

  /** The used sectors are those of the live inodes and the leaked ones. */
  ghost predicate Accounted(st: Fs)
    requires InodesOk(st)
  {
    && (forall s, i: nat :: s in Live(st) && InFoot(st.inodes, s, i) ==> st.used[i] && i !in st.leaked)
    && (forall i :: 0 <= i < |st.used| && st.used[i] && i !in st.leaked ==> Owned(st, i))
    && (forall i :: i in st.leaked ==> i < |st.used| && st.used[i])
  }

  ghost predicate Injective<K>(m: map<K, nat>) { forall n, k :: n in m && k in m && m[n] == m[k] ==> n == k }

  ghost predicate NamesOk(st: Fs)
  {
    && |st.names| <= st.slots
    && (forall n :: n in st.names ==> ValidName(n) && st.names[n] != FREE_MAP_SECTOR && st.names[n] != ROOT_DIR_SECTOR)
    && Injective(st.names)
  }

  function Openers(handles: map<nat, Handle>, s: nat): set<nat> { set h | h in handles && handles[h].sector == s }

  function Deniers(handles: map<nat, Handle>, s: nat): set<nat>
  {
    set h | h in handles && handles[h].sector == s && handles[h].denies
  }

  /** An open inode counts its openers and those that deny writes; it is unnamed exactly when removed. */
  ghost predicate CountsOk(inode: OpenInode, handles: map<nat, Handle>, s: nat)
  {
    inode.openCnt == |Openers(handles, s)| > 0 && inode.denyCnt == |Deniers(handles, s)|
  }

  ghost predicate InodeOk(inode: OpenInode, inodes: map<nat, Extent>, names: map<Name, nat>, s: nat)
  {
    && s in inodes && inode.data == inodes[s]
    && (inode.removed <==> s !in names.Values && s != FREE_MAP_SECTOR && s != ROOT_DIR_SECTOR)
  }

  ghost predicate HandlesOk(handles: map<nat, Handle>, open: map<nat, OpenInode>)
  {
    forall h :: h in handles ==> handles[h].sector in open
  }

  ghost predicate OpenOk(st: Fs)
  {
    && HandlesOk(st.handles, st.open)
    && (forall s :: s in st.open ==> CountsOk(st.open[s], st.handles, s))
    && (forall s :: s in st.open ==> InodeOk(st.open[s], st.inodes, st.names, s))
  }

  ghost predicate FsInv(st: Fs)
  {
    InodesOk(st) && Disjoint(st) && Accounted(st) && NamesOk(st) && OpenOk(st)
  }

  // ---------------------------------------------------------------- openers

  lemma AddOpener(handles: map<nat, Handle>, h: nat, s: nat)
    requires h !in handles
    ensures var handles' := handles[h := Handle(s, false)];
            && |Openers(handles', s)| == |Openers(handles, s)| + 1
            && (forall t :: t != s ==> Openers(handles', t) == Openers(handles, t))
            && (forall t :: Deniers(handles', t) == Deniers(handles, t))
  {
    assert Openers(handles[h := Handle(s, false)], s) == Openers(handles, s) + {h};
  }

  lemma DropOpener(handles: map<nat, Handle>, h: nat)
    requires h in handles && !handles[h].denies
    ensures var s, handles' := handles[h].sector, handles - {h};
            && |Openers(handles', s)| == |Openers(handles, s)| - 1
            && (forall t :: t != s ==> Openers(handles', t) == Openers(handles, t))
            && (forall t :: Deniers(handles', t) == Deniers(handles, t))
  {
    var s := handles[h].sector;
    assert Openers(handles - {h}, s) == Openers(handles, s) - {h};
    forall t | t != s ensures Openers(handles - {h}, t) == Openers(handles, t) { assert h !in Openers(handles, t); }
    forall t ensures Deniers(handles - {h}, t) == Deniers(handles, t) { assert h !in Deniers(handles, t); }
  }

  lemma FlipDeny(handles: map<nat, Handle>, h: nat, deny: bool)
    requires h in handles && handles[h].denies != deny
    ensures var s, handles' := handles[h].sector, handles[h := handles[h].(denies := deny)];
            && (forall t :: Openers(handles', t) == Openers(handles, t))
            && (forall t :: t != s ==> Deniers(handles', t) == Deniers(handles, t))
            && |Deniers(handles', s)| == |Deniers(handles, s)| + (if deny then 1 else -1)
  {
    var s, handles' := handles[h].sector, handles[h := handles[h].(denies := deny)];
    if deny { assert Deniers(handles', s) == Deniers(handles, s) + {h}; }
    else { assert Deniers(handles', s) == Deniers(handles, s) - {h}; }
  }

  /** An opener that denies writes is counted, and no count exceeds the number of openers. */
  lemma DenyCounts(st: Fs, h: nat)
    requires OpenOk(st) && h in st.handles
    ensures var s := st.handles[h].sector;
            && s in st.open && st.open[s].openCnt > 0
            && (st.handles[h].denies ==> st.open[s].denyCnt > 0)
            && (!st.handles[h].denies ==> st.open[s].denyCnt < st.open[s].openCnt)
            && st.open[s].denyCnt <= st.open[s].openCnt
  {
    var s := st.handles[h].sector;
    var d, o := Deniers(st.handles, s), Openers(st.handles, s);
    SubsetSize(d, o);
    if st.handles[h].denies { assert h in d; } else { SubsetSize(d, o - {h}); }
  }

  // ---------------------------------------------------------------- steps on open inodes

  /** The sectors and names are untouched and the same inodes are live. */
  lemma SameSectors(st: Fs, st': Fs)
    requires InodesOk(st) && Disjoint(st) && Accounted(st) && NamesOk(st)
    requires st'.used == st.used && st'.inodes == st.inodes && st'.names == st.names && st'.slots == st.slots
    requires st'.leaked == st.leaked && Live(st') == Live(st)
    ensures InodesOk(st') && Disjoint(st') && Accounted(st') && NamesOk(st')
  {
    assert forall i :: Owned(st, i) ==> Owned(st', i);
  }

  lemma OpenCounts(st: Fs, h: nat, s: nat)
    requires OpenOk(st) && h !in st.handles && s in st.inodes
    ensures var st' := OpenInodeAt(st, h, s); forall t :: t in st'.open ==> CountsOk(st'.open[t], st'.handles, t)
  {
    var st' := OpenInodeAt(st, h, s);
    AddOpener(st.handles, h, s);
    if s !in st.open { assert Openers(st.handles, s) == {} && Deniers(st.handles, s) == {}; }
    forall t | t in st'.open ensures CountsOk(st'.open[t], st'.handles, t) {
      if t in st.open { assert CountsOk(st.open[t], st.handles, t); }
    }
  }

  lemma OpenStillOk(st: Fs, h: nat, s: nat)
    requires OpenOk(st) && h !in st.handles && s in Live(st) && s in st.inodes
    ensures OpenOk(OpenInodeAt(st, h, s)) && Live(OpenInodeAt(st, h, s)) == Live(st)
  {
    OpenCounts(st, h, s);
  }

  lemma OpenKeeps(st: Fs, h: nat, s: nat)
    requires FsInv(st) && h !in st.handles && s in Live(st)
    ensures FsInv(OpenInodeAt(st, h, s))
  {
    OpenStillOk(st, h, s);
    SameSectors(st, OpenInodeAt(st, h, s));
  }

  lemma DenyStillOk(st: Fs, h: nat, deny: bool)
    requires OpenOk(st) && h in st.handles && st.handles[h].denies != deny
    requires st.handles[h].denies ==> st.open[st.handles[h].sector].denyCnt > 0
    ensures OpenOk(SetDeny(st, h, deny)) && Live(SetDeny(st, h, deny)) == Live(st)
  {
    var st' := SetDeny(st, h, deny);
    forall t | t in st'.open
      ensures CountsOk(st'.open[t], st'.handles, t) && InodeOk(st'.open[t], st'.inodes, st'.names, t)
    {
      DenyInodeOk(st, h, deny, t);
    }
    assert st'.open.Keys == st.open.Keys;
  }

  lemma DenyInodeOk(st: Fs, h: nat, deny: bool, t: nat)
    requires OpenOk(st) && h in st.handles && st.handles[h].denies != deny && t in st.open
    requires st.handles[h].denies ==> st.open[st.handles[h].sector].denyCnt > 0
    ensures var st' := SetDeny(st, h, deny);
            t in st'.open && CountsOk(st'.open[t], st'.handles, t) && InodeOk(st'.open[t], st'.inodes, st'.names, t)
  {
    FlipDeny(st.handles, h, deny);
    assert CountsOk(st.open[t], st.handles, t) && InodeOk(st.open[t], st.inodes, st.names, t);
  }

  lemma DenyKeeps(st: Fs, h: nat, deny: bool)
    requires FsInv(st) && h in st.handles
    ensures st.handles[h].sector in st.open
    ensures st.handles[h].denies ==> st.open[st.handles[h].sector].denyCnt > 0
    ensures FsInv(SetDeny(st, h, deny))
  {
    DenyCounts(st, h);
    if st.handles[h].denies != deny {
      DenyStillOk(st, h, deny);
      SameSectors(st, SetDeny(st, h, deny));
    }
  }

  // ---------------------------------------------------------------- closing

  lemma CloseStillOk(st: Fs, h: nat)
    requires OpenOk(st) && h in st.handles && !st.handles[h].denies
    ensures st.handles[h].sector in st.open && st.open[st.handles[h].sector].openCnt > 0
    ensures OpenOk(CloseInode(st, h))
  {
    var s, st' := st.handles[h].sector, CloseInode(st, h);
    DropOpener(st.handles, h);
    assert CountsOk(st.open[s], st.handles, s);
    if st.open[s].openCnt == 1 {
      assert Openers(st.handles - {h}, s) == {};
    }
    forall t | t in st'.open ensures CountsOk(st'.open[t], st'.handles, t) {
      assert CountsOk(st.open[t], st.handles, t);
    }
    forall k | k in st'.handles ensures st'.handles[k].sector in st'.open {
      if st.handles[k].sector == s { assert k in Openers(st.handles - {h}, s); }
    }
    assert InodeOk(st.open[s], st.inodes, st.names, s);
  }

  /** The last close of a removed inode clears its sectors and no others. */
  lemma ReleaseClears(used: seq<bool>, inodes: map<nat, Extent>, s: nat)
    requires s in inodes
    ensures var used' := ReleaseInode(used, s, inodes[s]);
            |used'| == |used| && forall i: nat :: i < |used| ==> used'[i] == (used[i] && !InFoot(inodes, s, i))
  {
  }

  ghost predicate SectorsOk(st: Fs) { InodesOk(st) && Disjoint(st) && Accounted(st) }

  /** Dropping a live inode together with its sectors. */
  lemma DropInode(st: Fs, s: nat, st': Fs)
    requires SectorsOk(st) && s in Live(st) && Live(st') == Live(st) - {s}
    requires st'.used == ReleaseInode(st.used, s, st.inodes[s]) && st'.inodes == st.inodes && st'.leaked == st.leaked
    ensures SectorsOk(st')
  {
    ReleaseClears(st.used, st.inodes, s);
    assert InodesOk(st') && Disjoint(st');
    forall i: nat | i in st'.leaked ensures i < |st'.used| && st'.used[i] {
      assert !InFoot(st.inodes, s, i);
    }
    forall t, i: nat | t in Live(st') && InFoot(st'.inodes, t, i) ensures st'.used[i] && i !in st'.leaked {
      assert !InFoot(st.inodes, s, i);
    }
    forall i | 0 <= i < |st'.used| && st'.used[i] && i !in st'.leaked ensures Owned(st', i) {
      StillOwned(st, s, st', i);
    }
  }

  lemma StillOwned(st: Fs, s: nat, st': Fs, i: nat)
    requires InodesOk(st) && InodesOk(st') && s in Live(st) && Live(st') == Live(st) - {s} && st'.inodes == st.inodes
    requires Owned(st, i) && !InFoot(st.inodes, s, i)
    ensures Owned(st', i)
  {
    var t :| t in Live(st) && InFoot(st.inodes, t, i);
    assert t in Live(st');
  }

  lemma LastCloseLive(st: Fs, h: nat)
    requires OpenOk(st) && h in st.handles && st.handles[h].sector in st.open
    requires st.open[st.handles[h].sector].openCnt == 1
    requires st.open[st.handles[h].sector].removed
    ensures var s := st.handles[h].sector;
            && s in Live(st) && s in st.inodes && Live(CloseInode(st, h)) == Live(st) - {s}
            && CloseInode(st, h).used == ReleaseInode(st.used, s, st.inodes[s])
            && s != FREE_MAP_SECTOR && s != ROOT_DIR_SECTOR && s !in st.names.Values
  {
    assert InodeOk(st.open[st.handles[h].sector], st.inodes, st.names, st.handles[h].sector);
  }

  /** The assertion in free_map_release: everything released was marked used. */
  lemma ReleaseAssertions(st: Fs, s: nat)
    requires FsInv(st) && s in Live(st)
    ensures s in st.inodes
    ensures var e := st.inodes[s];
            && Run(st.used, s, 1, true) && End(e) <= |st.used|
            && Run(SetRun(st.used, s, 1, false), e.start, BytesToSectors(e.length), true)
  {
    var e := st.inodes[s];
    assert InFoot(st.inodes, s, s);
    forall i: nat | e.start <= i < End(e) ensures st.used[i] && i != s {
      assert InFoot(st.inodes, s, i);
    }
  }

  lemma CloseSameLive(st: Fs, h: nat)
    requires OpenOk(st) && h in st.handles && st.handles[h].sector in st.open
    requires st.open[st.handles[h].sector].openCnt > 0
    requires st.open[st.handles[h].sector].openCnt > 1 || !st.open[st.handles[h].sector].removed
    ensures Live(CloseInode(st, h)) == Live(st) && CloseInode(st, h).used == st.used
  {
    assert InodeOk(st.open[st.handles[h].sector], st.inodes, st.names, st.handles[h].sector);
  }

  lemma CloseKeeps(st: Fs, h: nat)
    requires FsInv(st) && h in st.handles && !st.handles[h].denies
    ensures st.handles[h].sector in st.open && st.open[st.handles[h].sector].openCnt > 0
    ensures FsInv(CloseInode(st, h))
  {
    var s := st.handles[h].sector;
    CloseStillOk(st, h);
    if st.open[s].openCnt == 1 && st.open[s].removed {
      LastCloseLive(st, h);
      DropInode(st, s, CloseInode(st, h));
    } else {
      CloseSameLive(st, h);
      SameSectors(st, CloseInode(st, h));
    }
  }

  lemma CloseFileKeeps(st: Fs, h: nat)
    requires FsInv(st) && h in st.handles
    ensures st.handles[h].sector in st.open && st.open[st.handles[h].sector].openCnt > 0
    ensures st.handles[h].denies ==> st.open[st.handles[h].sector].denyCnt > 0
    ensures FsInv(CloseFile(st, h))
  {
    DenyCounts(st, h);
    DenyKeeps(st, h, false);
    CloseKeeps(SetDeny(st, h, false), h);
  }

  // ---------------------------------------------------------------- creating and removing

  lemma NewNameLive(st: Fs, name: Name, a: nat)
    requires name !in st.names
    ensures st.names[name := a].Values == st.names.Values + {a}
  {
    assert st.names[name := a][name] == a;
    forall s | s in st.names.Values ensures s in st.names[name := a].Values {
      var n :| n in st.names && st.names[n] == s;
      assert st.names[name := a][n] == s;
    }
  }

  /** Free sectors belong to no live inode. */
  lemma FreeIsUnowned(st: Fs, a: nat, cnt: nat)
    requires SectorsOk(st) && Run(st.used, a, cnt, false)
    ensures forall i :: Within(i, a, a + cnt) ==> i !in st.leaked && i !in Live(st)
    ensures forall s, i: nat :: s in Live(st) && Within(i, a, a + cnt) ==> !InFoot(st.inodes, s, i)
  {
    forall i | Within(i, a, a + cnt) && i in Live(st) ensures false { assert InFoot(st.inodes, i, i); }
  }

  ghost predicate FreshInode(st: Fs, a: nat, e: Extent)
  {
    Run(st.used, a, 1, false) && Run(SetRun(st.used, a, 1, true), e.start, BytesToSectors(e.length), false)
  }

  lemma FreshApart(st: Fs, a: nat, e: Extent)
    requires SectorsOk(st) && FreshInode(st, a, e)
    ensures a !in Live(st) && a !in st.leaked && a < |st.used| && End(e) <= |st.used| && !Within(a, e.start, End(e))
    ensures forall i :: Within(i, e.start, End(e)) ==> !st.used[i] && i !in st.leaked
    ensures forall s, i: nat :: s in Live(st) && (i == a || Within(i, e.start, End(e))) ==> !InFoot(st.inodes, s, i)
  {
    FreeIsUnowned(st, a, 1);
    assert Within(a, a, a + 1);
    assert forall i :: Within(i, e.start, End(e)) ==> !SetRun(st.used, a, 1, true)[i];
    FreeIsUnowned(st, e.start, BytesToSectors(e.length));
  }

  /** The two allocations and the new inode. */
  lemma AddInode(st: Fs, a: nat, e: Extent, st': Fs)
    requires SectorsOk(st) && FreshInode(st, a, e) && st'.leaked == st.leaked
    requires st'.used == SetRun(SetRun(st.used, a, 1, true), e.start, BytesToSectors(e.length), true)
    requires st'.inodes == st.inodes[a := e] && Live(st') == Live(st) + {a}
    ensures SectorsOk(st')
  {
    AddedApart(st, a, e, st');
    FreshApart(st, a, e);
    forall s, i: nat | s in Live(st') && InFoot(st'.inodes, s, i) ensures st'.used[i] && i !in st'.leaked {
      if s != a { SameFoot(st, a, e, st', s, i); }
    }
    forall i | 0 <= i < |st'.used| && st'.used[i] && i !in st'.leaked ensures Owned(st', i) {
      if st.used[i] { OwnedStill(st, st', a, e, i); } else { assert InFoot(st'.inodes, a, i) && a in Live(st'); }
    }
  }

  lemma SameFoot(st: Fs, a: nat, e: Extent, st': Fs, s: nat, i: nat)
    requires InodesOk(st) && s in Live(st) && s != a && st'.inodes == st.inodes[a := e]
    ensures s in st.inodes && InFoot(st'.inodes, s, i) == InFoot(st.inodes, s, i)
  {
  }

  lemma AddedApart(st: Fs, a: nat, e: Extent, st': Fs)
    requires SectorsOk(st) && FreshInode(st, a, e) && |st'.used| == |st.used|
    requires st'.inodes == st.inodes[a := e] && Live(st') == Live(st) + {a}
    ensures InodesOk(st') && Disjoint(st')
  {
    FreshApart(st, a, e);
    forall s, t, i: nat | s in Live(st') && t in Live(st') && InFoot(st'.inodes, s, i) && InFoot(st'.inodes, t, i)
      ensures s == t
    {
      if s != a { SameFoot(st, a, e, st', s, i); }
      if t != a { SameFoot(st, a, e, st', t, i); }
    }
  }

  /** A sector owned before the inode was added is owned afterwards. */
  lemma OwnedStill(st: Fs, st': Fs, a: nat, e: Extent, i: nat)
    requires InodesOk(st) && InodesOk(st') && Owned(st, i) && a !in Live(st)
    requires st'.inodes == st.inodes[a := e] && Live(st') == Live(st) + {a}
    ensures Owned(st', i)
  {
    var t :| t in Live(st) && InFoot(st.inodes, t, i);
    SameFoot(st, a, e, st', t, i);
  }

  /** The inode sector goes back but the data sectors stay marked: nothing will ever release them. */
  lemma LeakExtent(st: Fs, a: nat, e: Extent, st': Fs)
    requires SectorsOk(st) && FreshInode(st, a, e) && st'.inodes == st.inodes[a := e] && Live(st') == Live(st)
    requires st'.used ==
               SetRun(SetRun(SetRun(st.used, a, 1, true), e.start, BytesToSectors(e.length), true), a, 1, false)
    requires st'.leaked == st.leaked + Sectors(e.start, BytesToSectors(e.length))
    ensures SectorsOk(st')
  {
    FreshApart(st, a, e);
    forall s, i: nat | s in Live(st') ensures s in st.inodes && InFoot(st'.inodes, s, i) == InFoot(st.inodes, s, i) {}
    assert InodesOk(st') && Disjoint(st');
    forall i | 0 <= i < |st'.used| && st'.used[i] && i !in st'.leaked ensures Owned(st', i) {
      assert Owned(st, i);
      var t :| t in Live(st) && InFoot(st.inodes, t, i);
      assert t in Live(st') && InFoot(st'.inodes, t, i);
    }
  }

  /** Inodes that are not live may be overwritten; names may be added for new ones. */
  lemma OpenUnaffected(st: Fs, st': Fs)
    requires OpenOk(st) && st'.open == st.open && st'.handles == st.handles
    requires forall s :: s in st.open ==> s in st'.inodes && st'.inodes[s] == st.inodes[s]
    requires forall s :: s in st.open ==> (s in st'.names.Values <==> s in st.names.Values)
    ensures OpenOk(st')
  {
    forall s | s in st'.open ensures InodeOk(st'.open[s], st'.inodes, st'.names, s) {
      assert InodeOk(st.open[s], st.inodes, st.names, s);
    }
  }

  /** What the allocations of filesys_create find. */
  lemma Allocated(st: Fs, a: nat, size: nat, w1: bool, w2: bool)
    requires Allocate(st.used, 1, w1) == Some(a)
    ensures Run(st.used, a, 1, false)
    ensures var b := Allocate(SetRun(st.used, a, 1, true), BytesToSectors(size), w2);
            b.Some? ==> FreshInode(st, a, Extent(b.value, size))
    ensures SetRun(SetRun(st.used, a, 1, true), a, 1, false) == st.used
  {
    SetThenClear(st.used, a, 1, false);
  }

  lemma CreateKeeps(st: Fs, name: Name, size: nat, w1: bool, w2: bool)
    requires FsInv(st)
    ensures FsInv(CreateBody(st, name, size, w1, w2).st)
  {
    var a := Allocate(st.used, 1, w1);
    if a.Some? {
      Allocated(st, a.value, size, w1, w2);
      var b := Allocate(SetRun(st.used, a.value, 1, true), BytesToSectors(size), w2);
      if b.Some? {
        var e := Extent(b.value, size);
        FreshApart(st, a.value, e);
        if CanAdd(st, name) { CreatedKeeps(st, name, a.value, e); } else { LeakedKeeps(st, a.value, e); }
      }
    }
  }

  lemma EnterLive(st: Fs, name: Name, a: nat, e: Extent)
    requires name !in st.names
    ensures Live(Enter(st, name, a, e)) == Live(st) + {a}
    ensures Enter(st, name, a, e).names.Values == st.names.Values + {a}
  {
    NewNameLive(st, name, a);
  }

  lemma EnterOpenOk(st: Fs, name: Name, a: nat, e: Extent)
    requires OpenOk(st) && name !in st.names && a !in Live(st)
    ensures OpenOk(Enter(st, name, a, e))
  {
    EnterLive(st, name, a, e);
    OpenUnaffected(st, Enter(st, name, a, e));
  }

  lemma CreatedKeeps(st: Fs, name: Name, a: nat, e: Extent)
    requires FsInv(st) && FreshInode(st, a, e) && CanAdd(st, name) && a !in Live(st)
    ensures FsInv(Enter(st, name, a, e))
  {
    EnterLive(st, name, a, e);
    AddInode(st, a, e, Enter(st, name, a, e));
    EnterOpenOk(st, name, a, e);
    NewNameOk(st, name, a);
  }

  lemma InsertFresh<K>(m: map<K, nat>, n: K, a: nat)
    requires Injective(m) && n !in m && a !in m.Values
    ensures Injective(m[n := a]) && |m[n := a]| == |m| + 1
  {
    forall k | k in m ensures m[k] != a { assert m[k] in m.Values; }
    assert m[n := a].Keys == m.Keys + {n};
  }

  lemma NewNameOk(st: Fs, name: Name, a: nat)
    requires NamesOk(st) && CanAdd(st, name) && a !in Live(st)
    ensures NamesOk(st.(names := st.names[name := a]))
  {
    InsertFresh(st.names, name, a);
  }

  lemma LeakedOpenOk(st: Fs, a: nat, e: Extent)
    requires OpenOk(st) && a !in Live(st)
    ensures OpenOk(Leak(st, a, e))
  {
    OpenUnaffected(st, Leak(st, a, e));
  }

  lemma LeakedKeeps(st: Fs, a: nat, e: Extent)
    requires FsInv(st) && FreshInode(st, a, e) && a !in Live(st)
    ensures FsInv(Leak(st, a, e))
  {
    LeakedSectors(st, a, e);
    LeakedOpenOk(st, a, e);
  }

  lemma LeakedSectors(st: Fs, a: nat, e: Extent)
    requires SectorsOk(st) && FreshInode(st, a, e)
    ensures SectorsOk(Leak(st, a, e))
  {
    assert Live(Leak(st, a, e)) == Live(st);
    LeakExtent(st, a, e, Leak(st, a, e));
  }

  lemma ErasedNames<K>(names: map<K, nat>, name: K)
    requires name in names && Injective(names)
    ensures (names - {name}).Values == names.Values - {names[name]}
    ensures |names - {name}| == |names| - 1
  {
    forall s | s in names.Values - {names[name]} ensures s in (names - {name}).Values {
      var n :| n in names && names[n] == s;
      assert n in names - {name};
    }
    assert (names - {name}).Keys == names.Keys - {name};
    assert |names - {name}| == |(names - {name}).Keys|;
  }

  /** dir_remove: the entry is erased and the inode, open here, marked removed. */
  function EraseName(st: Fs, name: Name): (r: Fs)
    ensures r == st.(open := r.open, names := st.names - {name})
    requires name in st.names && st.names[name] in st.open
  {
    MarkRemoved(st.(names := st.names - {name}), st.names[name])
  }

  lemma EraseKeeps(st: Fs, name: Name)
    requires FsInv(st) && name in st.names && st.names[name] in st.open
    ensures FsInv(EraseName(st, name))
  {
    var s, st' := st.names[name], EraseName(st, name);
    ErasedNames(st.names, name);
    assert Live(st') == Live(st);
    EraseOpenOk(st, name);
    SameLive(st, st');
  }

  lemma EraseOpenOk(st: Fs, name: Name)
    requires NamesOk(st) && OpenOk(st) && name in st.names && st.names[name] in st.open
    ensures OpenOk(EraseName(st, name))
  {
    var st' := EraseName(st, name);
    ErasedNames(st.names, name);
    forall s | s in st'.open ensures InodeOk(st'.open[s], st'.inodes, st'.names, s) {
      assert InodeOk(st.open[s], st.inodes, st.names, s);
    }
    forall s | s in st'.open ensures CountsOk(st'.open[s], st'.handles, s) {
      assert CountsOk(st.open[s], st.handles, s);
    }
  }

  lemma SameLive(st: Fs, st': Fs)
    requires SectorsOk(st) && st'.used == st.used && st'.inodes == st.inodes
    requires st'.leaked == st.leaked && Live(st') == Live(st)
    ensures SectorsOk(st')
  {
    assert InodesOk(st') && Disjoint(st');
    assert forall i :: Owned(st, i) ==> Owned(st', i);
  }

  // ---------------------------------------------------------------- whole operations

  /** filesys_create: h is the opener of the root directory for the duration of the call. */
  function Create(st: Fs, name: Name, size: nat, w1: bool, w2: bool, h: nat): (r: Created)
    ensures |r.st.used| == |st.used|
    requires FsInv(st) && h !in st.handles
  {
    RootIsLive(st, h);
    var held := OpenInodeAt(st, h, ROOT_DIR_SECTOR);
    var r := CreateBody(held, name, size, w1, w2);
    BodyKeepsHandles(held, name, size, w1, w2);
    Created(CloseInode(r.st, h), r.success)
  }

  lemma RootIsLive(st: Fs, h: nat)
    requires FsInv(st) && h !in st.handles
    ensures ROOT_DIR_SECTOR in st.inodes && FsInv(OpenInodeAt(st, h, ROOT_DIR_SECTOR))
  {
    OpenKeeps(st, h, ROOT_DIR_SECTOR);
  }

  lemma BodyKeepsHandles(st: Fs, name: Name, size: nat, w1: bool, w2: bool)
    ensures CreateBody(st, name, size, w1, w2).st.open == st.open
    ensures CreateBody(st, name, size, w1, w2).st.handles == st.handles
  {
  }

  lemma CreateInv(st: Fs, name: Name, size: nat, w1: bool, w2: bool, h: nat)
    requires FsInv(st) && h !in st.handles
    ensures FsInv(Create(st, name, size, w1, w2, h).st)
  {
    RootIsLive(st, h);
    var held := OpenInodeAt(st, h, ROOT_DIR_SECTOR);
    CreateKeeps(held, name, size, w1, w2);
    BodyKeepsHandles(held, name, size, w1, w2);
    CloseKeeps(CreateBody(held, name, size, w1, w2).st, h);
  }

  /** dir_remove under an opener h of the root directory, with an opener f of the file itself. */
  function RemoveBody(st: Fs, name: Name, f: nat): (r: Created)
    ensures r.st == st.(open := r.st.open, handles := r.st.handles, used := r.st.used, names := r.st.names)
    ensures |r.st.used| == |st.used| && r.success == (name in st.names)
    ensures r.st.names == if name in st.names then st.names - {name} else st.names
    requires FsInv(st) && f !in st.handles
  {
    if name !in st.names then Created(st, false)
    else
      var s := st.names[name];
      var held := OpenInodeAt(st, f, s);
      Created(CloseInode(EraseName(held, name), f), true)
  }

  lemma HeldBriefly(st: Fs, name: Name, f: nat)
    requires FsInv(st) && f !in st.handles && name in st.names
    ensures var held := OpenInodeAt(st, f, st.names[name]);
            FsInv(held) && name in held.names && held.names[name] in held.open && FsInv(EraseName(held, name))
  {
    OpenKeeps(st, f, st.names[name]);
    EraseKeeps(OpenInodeAt(st, f, st.names[name]), name);
  }

  lemma ForgetHandle(handles: map<nat, Handle>, f: nat, v: Handle)
    requires f !in handles
    ensures handles[f := v] - {f} == handles
  {
  }

  lemma HandlesAfter(st: Fs, name: Name, f: nat)
    requires FsInv(st) && f !in st.handles
    ensures RemoveBody(st, name, f).st.handles == st.handles
  {
    if name in st.names { ForgetHandle(st.handles, f, Handle(st.names[name], false)); }
  }

  lemma RemoveBodyKeeps(st: Fs, name: Name, f: nat)
    requires FsInv(st) && f !in st.handles
    ensures FsInv(RemoveBody(st, name, f).st)
    ensures RemoveBody(st, name, f).st.handles == st.handles
  {
    HandlesAfter(st, name, f);
    if name in st.names {
      HeldBriefly(st, name, f);
      CloseKeeps(EraseName(OpenInodeAt(st, f, st.names[name]), name), f);
    }
  }

  function Remove(st: Fs, name: Name, h: nat, f: nat): (r: Created)
    ensures r.st == st.(open := r.st.open, handles := r.st.handles, used := r.st.used, names := r.st.names)
    ensures |r.st.used| == |st.used| && r.success == (name in st.names)
    ensures r.st.names == if name in st.names then st.names - {name} else st.names
    ensures r.st.handles == st.handles
    requires FsInv(st) && h !in st.handles && f !in st.handles && f != h
  {
    RootIsLive(st, h);
    var held := OpenInodeAt(st, h, ROOT_DIR_SECTOR);
    var r := RemoveBody(held, name, f);
    RemoveBodyKeeps(held, name, f);
    DenyCounts(r.st, h);
    ForgetHandle(st.handles, h, Handle(ROOT_DIR_SECTOR, false));
    Created(CloseInode(r.st, h), r.success)
  }

  lemma RemoveInv(st: Fs, name: Name, h: nat, f: nat)
    requires FsInv(st) && h !in st.handles && f !in st.handles && f != h
    ensures FsInv(Remove(st, name, h, f).st)
  {
    RootIsLive(st, h);
    var held := OpenInodeAt(st, h, ROOT_DIR_SECTOR);
    RemoveBodyKeeps(held, name, f);
    CloseKeeps(RemoveBody(held, name, f).st, h);
  }
}
