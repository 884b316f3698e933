/** What the file system keeps in every reachable state. */
module FileSysRuns {
  import opened Common
  import opened FreeMap
  import opened InodeIO
  import opened FileSys

  const MAP_HANDLE: nat := 0

  datatype Event =
    | CreateFile(name: Name, size: nat, w1: bool, w2: bool, h: nat)
    | OpenFile(name: Name, h: nat)
    | ReopenFile(g: nat, h: nat)
    | CloseHandle(h: nat)
    | DenyWrite(h: nat)
    | AllowWrite(h: nat)
    | RemoveFile(name: Name, h: nat, f: nat)
    | Remount

  /** filesys_done and filesys_init: what is in memory is gone, and only the free map is open again. */
  function Mounted(st: Fs): Fs
    requires FREE_MAP_SECTOR in st.inodes
  {
    st.(open := map[FREE_MAP_SECTOR := OpenInode(1, false, 0, st.inodes[FREE_MAP_SECTOR])],
        handles := map[MAP_HANDLE := Handle(FREE_MAP_SECTOR, false)])
  }

  /** New openers are new; only existing ones are closed, and the free map's own never is.  The device is mounted
      again only when no removed file is open any more. */
  predicate Enabled(st: Fs, e: Event)
  {
    match e
    case CreateFile(name, size, w1, w2, h) => h !in st.handles
    case OpenFile(name, h) => h !in st.handles
    case ReopenFile(g, h) => g in st.handles && h !in st.handles
    case CloseHandle(h) => h in st.handles && h != MAP_HANDLE
    case DenyWrite(h) => h in st.handles && h != MAP_HANDLE
    case AllowWrite(h) => h in st.handles
    case RemoveFile(name, h, f) => h !in st.handles && f !in st.handles && f != h
    case Remount => forall s :: s in st.open ==> !st.open[s].removed
  }

  function Next(st: Fs, e: Event): (r: Fs)
    requires FsInv(st) && Enabled(st, e)
    ensures |r.used| == |st.used|
    ensures !e.CreateFile? ==> r.inodes == st.inodes && r.leaked == st.leaked
  {
    match e
    case CreateFile(name, size, w1, w2, h) => Create(st, name, size, w1, w2, h).st
    case OpenFile(name, h) => if name in st.names then OpenInodeAt(st, h, st.names[name]) else st
    case ReopenFile(g, h) => OpenInodeAt(st, h, st.handles[g].sector)
    case CloseHandle(h) => DenyCounts(st, h); CloseFile(st, h)
    case DenyWrite(h) => DenyCounts(st, h); SetDeny(st, h, true)
    case AllowWrite(h) => DenyCounts(st, h); SetDeny(st, h, false)
    case RemoveFile(name, h, f) => Remove(st, name, h, f).st
    case Remount => Mounted(st)
  }

  lemma InvKeeps(st: Fs, e: Event)
    requires FsInv(st) && Enabled(st, e)
    ensures FsInv(Next(st, e))
  {
    match e
    case CreateFile(name, size, w1, w2, h) => CreateInv(st, name, size, w1, w2, h);
    case OpenFile(name, h) => if name in st.names { OpenKeeps(st, h, st.names[name]); }
    case ReopenFile(g, h) => OpenKeeps(st, h, st.handles[g].sector);
    case CloseHandle(h) => CloseFileKeeps(st, h);
    case DenyWrite(h) => DenyKeeps(st, h, true);
    case AllowWrite(h) => DenyKeeps(st, h, false);
    case RemoveFile(name, h, f) => RemoveInv(st, name, h, f);
    case Remount => MountKeeps(st);
  }

  /** Every open file has a name, so nothing is lost with the openers. */
  lemma MountedLive(st: Fs)
    requires OpenOk(st) && forall s :: s in st.open ==> !st.open[s].removed
    requires FREE_MAP_SECTOR in st.inodes
    ensures Live(Mounted(st)) == Live(st)
  {
    forall s | s in st.open ensures s in Live(Mounted(st)) {
      assert InodeOk(st.open[s], st.inodes, st.names, s);
    }
  }

  lemma MountKeeps(st: Fs)
    requires FsInv(st) && forall s :: s in st.open ==> !st.open[s].removed
    ensures FsInv(Mounted(st))
  {
    MountedLive(st);
    OnlyTheMapOpen(Mounted(st));
    SameSectors(st, Mounted(st));
  }

  // ---------------------------------------------------------------- formatting

  /** do_format on a device whose free map takes mapLen bytes, with a root directory of dirLen bytes. */
  function Format(size: nat, mapLen: nat, dirLen: nat, slots: nat): Option<Fs>
    requires size >= 2
  {
    var reserved := SetRun(seq(size, _ => false), 0, 2, true);
    var a := FirstFit(reserved, 0, BytesToSectors(mapLen), false);
    if a.None? then None else
      var used1 := SetRun(reserved, a.value, BytesToSectors(mapLen), true);
      var b := FirstFit(used1, 0, BytesToSectors(dirLen), false);
      if b.None? then None else
        var mapInode, rootInode := Extent(a.value, mapLen), Extent(b.value, dirLen);
        Some(Fs(SetRun(used1, b.value, BytesToSectors(dirLen), true),
                map[FREE_MAP_SECTOR := mapInode, ROOT_DIR_SECTOR := rootInode], map[], slots,
                map[FREE_MAP_SECTOR := OpenInode(1, false, 0, mapInode)],
                map[MAP_HANDLE := Handle(FREE_MAP_SECTOR, false)], {}))
  }

  lemma FormatInv(size: nat, mapLen: nat, dirLen: nat, slots: nat)
    requires size >= 2 && Format(size, mapLen, dirLen, slots).Some?
    ensures FsInv(Format(size, mapLen, dirLen, slots).value) && RootClosed(Format(size, mapLen, dirLen, slots).value)
  {
    FormatSectors(size, mapLen, dirLen, slots);
    OnlyTheMapOpen(Format(size, mapLen, dirLen, slots).value);
  }

  lemma OnlyTheMapOpen(st: Fs)
    requires FREE_MAP_SECTOR in st.inodes && st.handles == map[MAP_HANDLE := Handle(FREE_MAP_SECTOR, false)]
    requires st.open == map[FREE_MAP_SECTOR := OpenInode(1, false, 0, st.inodes[FREE_MAP_SECTOR])]
    ensures OpenOk(st)
  {
    assert Openers(st.handles, FREE_MAP_SECTOR) == {MAP_HANDLE} && Deniers(st.handles, FREE_MAP_SECTOR) == {};
  }

  ghost predicate InExtent(st: Fs, s: nat, i: int)
    requires s in st.inodes
  {
    Within(i, st.inodes[s].start, End(st.inodes[s]))
  }

  /** The two files of a fresh system, and the map before and after the second was allocated. */
  lemma FormatExtents(size: nat, mapLen: nat, dirLen: nat, slots: nat)
    requires size >= 2 && Format(size, mapLen, dirLen, slots).Some?
    ensures var st := Format(size, mapLen, dirLen, slots).value;
            && Live(st) == {FREE_MAP_SECTOR, ROOT_DIR_SECTOR} && st.inodes.Keys == {FREE_MAP_SECTOR, ROOT_DIR_SECTOR} &&
              |st.used| == size
            && st.leaked == {} && End(st.inodes[FREE_MAP_SECTOR]) <= size && End(st.inodes[ROOT_DIR_SECTOR]) <= size
            && (forall i :: Within(i, st.inodes[FREE_MAP_SECTOR].start, End(st.inodes[FREE_MAP_SECTOR])) ==> i >= 2)
            && (forall i :: Within(i, st.inodes[ROOT_DIR_SECTOR].start, End(st.inodes[ROOT_DIR_SECTOR])) ==>
                  i >= 2 && !Within(i, st.inodes[FREE_MAP_SECTOR].start, End(st.inodes[FREE_MAP_SECTOR])))
            && (forall i :: 0 <= i < size ==>
              st.used[i] == (i < 2 || InExtent(st, FREE_MAP_SECTOR, i) || InExtent(st, ROOT_DIR_SECTOR, i)))
  {
    var st := Format(size, mapLen, dirLen, slots).value;
    var m, r := st.inodes[FREE_MAP_SECTOR], st.inodes[ROOT_DIR_SECTOR];
    var reserved := SetRun(seq(size, _ => false), 0, 2, true);
    forall i | Within(i, m.start, End(m)) ensures i >= 2 { assert !reserved[i]; }
    forall i | Within(i, r.start, End(r)) ensures i >= 2 && !Within(i, m.start, End(m)) {
      assert !SetRun(reserved, m.start, BytesToSectors(m.length), true)[i];
    }
  }

  lemma FormatSectors(size: nat, mapLen: nat, dirLen: nat, slots: nat)
    requires size >= 2 && Format(size, mapLen, dirLen, slots).Some?
    ensures SectorsOk(Format(size, mapLen, dirLen, slots).value)
  {
    FormatExtents(size, mapLen, dirLen, slots);
    TwoFiles(Format(size, mapLen, dirLen, slots).value);
  }

  lemma TwoFiles(st: Fs)
    requires Live(st) == {FREE_MAP_SECTOR, ROOT_DIR_SECTOR} && st.inodes.Keys == {FREE_MAP_SECTOR, ROOT_DIR_SECTOR}
    requires |st.used| >= 2
    requires st.leaked == {} && End(st.inodes[FREE_MAP_SECTOR]) <= |st.used|
    requires End(st.inodes[ROOT_DIR_SECTOR]) <= |st.used|
    requires forall i :: Within(i, st.inodes[FREE_MAP_SECTOR].start, End(st.inodes[FREE_MAP_SECTOR])) ==> i >= 2
    requires forall i :: Within(i, st.inodes[ROOT_DIR_SECTOR].start, End(st.inodes[ROOT_DIR_SECTOR])) ==>
               i >= 2 && !Within(i, st.inodes[FREE_MAP_SECTOR].start, End(st.inodes[FREE_MAP_SECTOR]))
    requires forall i :: 0 <= i < |st.used| ==>
             st.used[i] == (i < 2 || InExtent(st, FREE_MAP_SECTOR, i) || InExtent(st, ROOT_DIR_SECTOR, i))
    ensures SectorsOk(st)
  {
    assert InodesOk(st) && Disjoint(st);
    forall i | 0 <= i < |st.used| && st.used[i] && i !in st.leaked ensures Owned(st, i) {
      assert InFoot(st.inodes, FREE_MAP_SECTOR, i) || InFoot(st.inodes, ROOT_DIR_SECTOR, i);
    }
  }

  // ---------------------------------------------------------------- the root directory

  /** Between operations nobody holds the root directory open, so nobody denies writes to it. */
  ghost predicate RootClosed(st: Fs) { ROOT_DIR_SECTOR !in st.open }

  lemma RootIsStored(st: Fs)
    requires FsInv(st)
    ensures ROOT_DIR_SECTOR in st.inodes
  {
    assert ROOT_DIR_SECTOR in Live(st);
  }

  lemma RemoveReleasesRoot(st: Fs, name: Name, h: nat, f: nat)
    requires FsInv(st) && RootClosed(st) && h !in st.handles && f !in st.handles && f != h
    ensures RootClosed(Remove(st, name, h, f).st)
  {
    RootIsLive(st, h);
    var held := OpenInodeAt(st, h, ROOT_DIR_SECTOR);
    RemoveBodyKeeps(held, name, f);
    SoleOpener(st, h);
    var body := RemoveBody(held, name, f).st;
    RootNotRemoved(body, h);
    assert CountsOk(body.open[ROOT_DIR_SECTOR], body.handles, ROOT_DIR_SECTOR);
  }

  lemma SoleOpener(st: Fs, h: nat)
    requires HandlesOk(st.handles, st.open) && RootClosed(st)
    ensures |Openers(st.handles[h := Handle(ROOT_DIR_SECTOR, false)], ROOT_DIR_SECTOR)| == 1
  {
    assert Openers(st.handles[h := Handle(ROOT_DIR_SECTOR, false)], ROOT_DIR_SECTOR) == {h};
  }

  lemma RootStaysClosed(st: Fs, e: Event)
    requires FsInv(st) && RootClosed(st) && Enabled(st, e)
    ensures RootClosed(Next(st, e))
  {
    match e
    case CreateFile(name, size, w1, w2, h) => CreateOutcome(st, name, size, w1, w2, h);
    case OpenFile(name, h) =>
    case ReopenFile(g, h) =>
    case CloseHandle(h) => ClosedStays(st, h);
    case DenyWrite(h) => DenyCounts(st, h); DenyOpens(st, h, true);
    case AllowWrite(h) => DenyCounts(st, h); DenyOpens(st, h, false);
    case RemoveFile(name, h, f) => RemoveReleasesRoot(st, name, h, f);
    case Remount =>
  }

  lemma DenyOpens(st: Fs, h: nat, deny: bool)
    requires h in st.handles && st.handles[h].sector in st.open
    requires st.handles[h].denies ==> st.open[st.handles[h].sector].denyCnt > 0
    ensures SetDeny(st, h, deny).open.Keys == st.open.Keys
  {
  }

  lemma ClosedStays(st: Fs, h: nat)
    requires FsInv(st) && h in st.handles
    ensures st.handles[h].sector in st.open && st.open[st.handles[h].sector].openCnt > 0
    ensures st.handles[h].denies ==> st.open[st.handles[h].sector].denyCnt > 0
    ensures CloseFile(st, h).open.Keys <= st.open.Keys
  {
    DenyCounts(st, h);
    DenyOpens(st, h, false);
  }

  // ---------------------------------------------------------------- runs

  /** Operations are defined on states that satisfy the invariant, which `Reachable` shows to be all of them. */
  ghost predicate Step(st: Fs, e: Event, st': Fs) { Enabled(st, e) && (FsInv(st) ==> st' == Next(st, e)) }

  ghost predicate FreshlyFormatted(st: Fs)
  {
    exists size: nat, mapLen: nat, dirLen: nat, slots: nat :: size >= 2 &&
      Format(size, mapLen, dirLen, slots) == Some(st)
  }

  lemma StartInv(st: Fs)
    requires FreshlyFormatted(st)
    ensures FsInv(st) && RootClosed(st)
  {
    var size: nat, mapLen: nat, dirLen: nat, slots: nat :| size >= 2 && Format(size, mapLen, dirLen, slots) == Some(st);
    FormatInv(size, mapLen, dirLen, slots);
  }

  /** A run starts from a freshly formatted file system and takes enabled steps. */
  ghost predicate IsRun(states: seq<Fs>, events: seq<Event>)
  {
    && |states| == |events| + 1 && FreshlyFormatted(states[0])
    && forall i :: 0 <= i < |events| ==> StepAt(states, events, i)
  }

  ghost predicate StepAt(states: seq<Fs>, events: seq<Event>, i: int)
    requires 0 <= i < |events| && |states| == |events| + 1
  {
    Step(states[i], events[i], states[i + 1])
  }

  lemma StepInv(st: Fs, e: Event, st': Fs)
    requires Step(st, e, st')
    ensures FsInv(st) && RootClosed(st) ==> FsInv(st') && RootClosed(st')
  {
    if FsInv(st) && RootClosed(st) {
      InvKeeps(st, e);
      RootStaysClosed(st, e);
    }
  }

  lemma {:induction false} StateInv(states: seq<Fs>, events: seq<Event>, i: nat, st: Fs)
    requires IsRun(states, events) && i < |states| && st == states[i]
    ensures FsInv(st) && RootClosed(st)
  {
    if i == 0 {
      StartInv(st);
    } else {
      var before, e := states[i - 1], events[i - 1];
      assert StepAt(states, events, i - 1);
      StateInv(states, events, i - 1, before);
      StepInv(before, e, st);
    }
  }

  /** Every state of every run satisfies the invariant, and between operations nobody has the root directory open. */
  lemma Reachable(states: seq<Fs>, events: seq<Event>, i: nat)
    requires IsRun(states, events) && i < |states|
    ensures FsInv(states[i]) && RootClosed(states[i])
  {
    StateInv(states, events, i, states[i]);
  }

  /** So dir_add and dir_remove may always write: nobody denies writes to the root directory. */
  lemma RootIsWritable(states: seq<Fs>, events: seq<Event>, i: nat)
    requires IsRun(states, events) && i < |states|
    ensures Deniers(states[i].handles, ROOT_DIR_SECTOR) == {}
  {
    Reachable(states, events, i);
    NoDeniers(states[i]);
  }

  lemma NoDeniers(st: Fs)
    requires OpenOk(st) && RootClosed(st)
    ensures Deniers(st.handles, ROOT_DIR_SECTOR) == {}
  {
  }

  // ---------------------------------------------------------------- sectors

  /** The sectors of all named and all open inodes are marked used and belong to one of them only. */
  lemma SectorsAreDisjoint(states: seq<Fs>, events: seq<Event>, i: nat, s: nat, t: nat)
    requires IsRun(states, events) && i < |states| && s in Live(states[i]) && t in Live(states[i])
    ensures s in states[i].inodes && t in states[i].inodes
    ensures forall k: nat :: InFoot(states[i].inodes, s, k) ==> k < |states[i].used| && states[i].used[k]
    ensures forall k: nat :: InFoot(states[i].inodes, s, k) && InFoot(states[i].inodes, t, k) ==> s == t
  {
    Reachable(states, events, i);
  }

  /** The event gives up the last hold on the inode in sector s: the last close of a removed inode, or
      the removal of a name nobody has open. */
  ghost predicate LetsGo(st: Fs, e: Event, s: nat)
    requires FsInv(st)
  {
    match e
    case CloseHandle(h) => h in st.handles && st.handles[h].sector == s && s in st.open && st.open[s].openCnt == 1 &&
      st.open[s].removed
    case RemoveFile(name, h, f) => name in st.names && st.names[name] == s && s !in st.open
    case _ => false
  }

  /** Everything live stays live, with the same sectors. */
  ghost predicate Outlives(st: Fs, st': Fs)
  {
    forall s :: s in Live(st) ==> s in Live(st') && s in st.inodes && s in st'.inodes && st'.inodes[s] == st.inodes[s]
  }

  lemma CreateLive(st: Fs, name: Name, size: nat, w1: bool, w2: bool, h: nat)
    requires FsInv(st) && h !in st.handles
    ensures Outlives(st, Create(st, name, size, w1, w2, h).st)
  {
    RootIsLive(st, h);
    var held := OpenInodeAt(st, h, ROOT_DIR_SECTOR);
    var body := CreateBody(held, name, size, w1, w2).st;
    BodyLive(held, name, size, w1, w2);
    BodyKeepsHandles(held, name, size, w1, w2);
    CreateKeeps(held, name, size, w1, w2);
    RootNotRemoved(body, h);
    CloseSameLive(body, h);
  }

  lemma RootNotRemoved(st: Fs, h: nat)
    requires OpenOk(st) && h in st.handles && st.handles[h].sector == ROOT_DIR_SECTOR
    ensures ROOT_DIR_SECTOR in st.open && !st.open[ROOT_DIR_SECTOR].removed && st.open[ROOT_DIR_SECTOR].openCnt > 0
  {
    assert InodeOk(st.open[ROOT_DIR_SECTOR], st.inodes, st.names, ROOT_DIR_SECTOR);
    assert CountsOk(st.open[ROOT_DIR_SECTOR], st.handles, ROOT_DIR_SECTOR);
  }

  lemma BodyLive(st: Fs, name: Name, size: nat, w1: bool, w2: bool)
    requires FsInv(st)
    ensures Outlives(st, CreateBody(st, name, size, w1, w2).st)
  {
    var a := Allocate(st.used, 1, w1);
    if a.Some? { NotLive(st, a.value); }
    BodyOutlives(st, name, size, w1, w2);
  }

  lemma BodyOutlives(st: Fs, name: Name, size: nat, w1: bool, w2: bool)
    requires InodesOk(st) && (Allocate(st.used, 1, w1).Some? ==> Allocate(st.used, 1, w1).value !in Live(st))
    ensures Outlives(st, CreateBody(st, name, size, w1, w2).st)
  {
    var a := Allocate(st.used, 1, w1);
    if a.Some? {
      var b := Allocate(SetRun(st.used, a.value, 1, true), BytesToSectors(size), w2);
      if b.Some? { EnterOrLeak(st, name, a.value, Extent(b.value, size)); }
    }
  }

  lemma NotLive(st: Fs, a: nat)
    requires SectorsOk(st) && Run(st.used, a, 1, false)
    ensures a !in Live(st)
  {
    FreeIsUnowned(st, a, 1);
    assert Within(a, a, a + 1);
  }

  lemma EnterOrLeak(st: Fs, name: Name, a: nat, e: Extent)
    requires InodesOk(st) && a !in Live(st)
    ensures Outlives(st, Leak(st, a, e))
    ensures name !in st.names ==> Outlives(st, Enter(st, name, a, e))
  {
    if name !in st.names { EnterLive(st, name, a, e); }
  }

  lemma EraseLive(st: Fs, name: Name)
    requires NamesOk(st) && name in st.names && st.names[name] in st.open
    ensures Live(EraseName(st, name)) == Live(st)
  {
    ErasedNames(st.names, name);
  }

  lemma RemoveBodyLive(st: Fs, name: Name, f: nat)
    requires FsInv(st) && f !in st.handles && name in st.names
    ensures var s := st.names[name];
            Live(RemoveBody(st, name, f).st) == if s in st.open then Live(st) else Live(st) - {s}
    ensures RemoveBody(st, name, f).st.inodes == st.inodes
  {
    var s := st.names[name];
    HeldBriefly(st, name, f);
    OpenStillOk(st, f, s);
    var erased := EraseName(OpenInodeAt(st, f, s), name);
    EraseLive(OpenInodeAt(st, f, s), name);
    LastOrNot(st, f, s, erased);
  }

  lemma LastOrNot(st: Fs, f: nat, s: nat, erased: Fs)
    requires OpenOk(st) && s in st.inodes && OpenOk(erased)
    requires f in erased.handles && erased.handles[f] == Handle(s, false)
    requires s in erased.open && erased.open[s].removed
    requires erased.open[s].openCnt == if s in st.open then st.open[s].openCnt + 1 else 1
    ensures erased.open[s].openCnt > 0
    ensures Live(CloseInode(erased, f)) == if s in st.open then Live(erased) else Live(erased) - {s}
  {
    if s in st.open {
      assert CountsOk(st.open[s], st.handles, s);
      CloseSameLive(erased, f);
    } else {
      LastCloseLive(erased, f);
    }
  }

  lemma RemoveLive(st: Fs, name: Name, h: nat, f: nat)
    requires FsInv(st) && h !in st.handles && f !in st.handles && f != h
    ensures Live(Remove(st, name, h, f).st) ==
            if name in st.names && st.names[name] !in st.open then Live(st) - {st.names[name]} else Live(st)
    ensures Remove(st, name, h, f).st.inodes == st.inodes
  {
    RootIsLive(st, h);
    OpenStillOk(st, h, ROOT_DIR_SECTOR);
    var held := OpenInodeAt(st, h, ROOT_DIR_SECTOR);
    var body := RemoveBody(held, name, f).st;
    RemoveBodyKeeps(held, name, f);
    if name in st.names { RemoveBodyLive(held, name, f); }
    RootNotRemoved(body, h);
    CloseSameLive(body, h);
  }

  lemma CloseLive(st: Fs, h: nat)
    requires FsInv(st) && h in st.handles
    ensures st.handles[h].sector in st.open && st.open[st.handles[h].sector].openCnt > 0
    ensures st.handles[h].denies ==> st.open[st.handles[h].sector].denyCnt > 0
    ensures var s := st.handles[h].sector;
            Live(CloseFile(st, h)) == if st.open[s].openCnt == 1 && st.open[s].removed then Live(st) - {s} else Live(st)
    ensures CloseFile(st, h).inodes == st.inodes
  {
    DenyCounts(st, h);
    DenyKeeps(st, h, false);
    var st1, s := SetDeny(st, h, false), st.handles[h].sector;
    if st.handles[h].denies { DenyStillOk(st, h, false); }
    if st.open[s].openCnt == 1 && st.open[s].removed { LastCloseLive(st1, h); } else { CloseSameLive(st1, h); }
  }

  /** An inode stops being live exactly when the event lets go of it, and otherwise keeps its sectors. */
  lemma LiveAfter(st: Fs, e: Event, s: nat)
    requires FsInv(st) && Enabled(st, e) && s in Live(st)
    ensures s in Live(Next(st, e)) <==> !LetsGo(st, e, s)
    ensures s in Live(Next(st, e)) ==> s in Next(st, e).inodes && Next(st, e).inodes[s] == st.inodes[s]
  {
    match e
    case CreateFile(name, size, w1, w2, h) => CreateLive(st, name, size, w1, w2, h);
    case OpenFile(name, h) => if name in st.names { OpenStillOk(st, h, st.names[name]); }
    case ReopenFile(g, h) => OpenStillOk(st, h, st.handles[g].sector);
    case CloseHandle(h) => CloseLive(st, h);
    case DenyWrite(h) => DenyLive(st, h, true);
    case AllowWrite(h) => DenyLive(st, h, false);
    case RemoveFile(name, h, f) => RemoveLive(st, name, h, f);
    case Remount => MountedLive(st);
  }

  lemma DenyLive(st: Fs, h: nat, deny: bool)
    requires FsInv(st) && h in st.handles
    ensures st.handles[h].sector in st.open
    ensures st.handles[h].denies ==> st.open[st.handles[h].sector].denyCnt > 0
    ensures Live(SetDeny(st, h, deny)) == Live(st) && SetDeny(st, h, deny).inodes == st.inodes
  {
    DenyCounts(st, h);
    if st.handles[h].denies != deny { DenyStillOk(st, h, deny); }
  }

  /** Sectors are released exactly once: at the last close of a removed file, and never earlier.  Until
      then they stay marked used; at that event every one of them becomes free. */
  lemma ReleasedAtLastClose(st: Fs, e: Event, s: nat)
    requires FsInv(st) && Enabled(st, e) && s in Live(st)
    ensures |Next(st, e).used| == |st.used| && s in st.inodes
    ensures forall k: nat :: InFoot(st.inodes, s, k) ==>
            k < |st.used| && st.used[k] && Next(st, e).used[k] == !LetsGo(st, e, s)
  {
    forall k: nat | InFoot(st.inodes, s, k)
      ensures k < |st.used| && st.used[k] && Next(st, e).used[k] == !LetsGo(st, e, s)
    {
      SectorAfter(st, e, s, k);
    }
  }

  lemma SectorAfter(st: Fs, e: Event, s: nat, k: nat)
    requires FsInv(st) && Enabled(st, e) && s in Live(st) && InFoot(st.inodes, s, k)
    ensures k < |st.used| && st.used[k] && Next(st, e).used[k] == !LetsGo(st, e, s)
  {
    LiveAfter(st, e, s);
    InvKeeps(st, e);
    StillUsed(st, s, k);
    if !LetsGo(st, e, s) { StillUsed(Next(st, e), s, k); } else { GoneIsFree(st, e, s, k); }
  }

  lemma StillUsed(st: Fs, s: nat, k: nat)
    requires SectorsOk(st) && s in Live(st) && InFoot(st.inodes, s, k)
    ensures k < |st.used| && st.used[k]
  {
  }

  /** What an inode lets go of is unowned and was never leaked, hence free. */
  lemma GoneIsFree(st: Fs, e: Event, s: nat, k: nat)
    requires FsInv(st) && Enabled(st, e) && s in Live(st) && LetsGo(st, e, s) && InFoot(st.inodes, s, k)
    requires FsInv(Next(st, e)) && |Next(st, e).used| == |st.used|
    ensures k < |st.used| && !Next(st, e).used[k]
  {
    LetsGoKeeps(st, e);
    LiveAfter(st, e, s);
    UnownedIsFree(st, Next(st, e), s, k);
  }

  lemma UnownedIsFree(st: Fs, st': Fs, s: nat, k: nat)
    requires SectorsOk(st) && s in Live(st) && InFoot(st.inodes, s, k)
    requires SectorsOk(st') && Live(st') <= Live(st) - {s} && st'.inodes == st.inodes && st'.leaked == st.leaked
    requires |st'.used| == |st.used|
    ensures k < |st.used| && !st'.used[k]
  {
    assert !Owned(st', k);
  }

  lemma LetsGoKeeps(st: Fs, e: Event)
    requires FsInv(st) && Enabled(st, e) && (e.CloseHandle? || e.RemoveFile?)
    ensures Live(Next(st, e)) <= Live(st)
  {
    if e.CloseHandle? { CloseLive(st, e.h); } else { RemoveLive(st, e.name, e.h, e.f); }
  }

  // ---------------------------------------------------------------- create and remove

  /** Opening the root directory and closing it again leaves no trace. */
  lemma RootBracket(st: Fs, h: nat)
    requires FsInv(st) && h !in st.handles
    ensures ROOT_DIR_SECTOR in st.inodes
    ensures var held := OpenInodeAt(st, h, ROOT_DIR_SECTOR);
            held.handles - {h} == st.handles && held.open[ROOT_DIR_SECTOR].openCnt > 0 &&
              !held.open[ROOT_DIR_SECTOR].removed
  {
    RootIsLive(st, h);
    RootNotRemoved(OpenInodeAt(st, h, ROOT_DIR_SECTOR), h);
    ForgetHandle(st.handles, h, Handle(ROOT_DIR_SECTOR, false));
  }

  lemma BracketClosed(st: Fs, h: nat, body: Fs)
    requires OpenOk(st) && h !in st.handles && ROOT_DIR_SECTOR in st.inodes
    requires var held := OpenInodeAt(st, h, ROOT_DIR_SECTOR);
             && body.open == held.open && body.handles == held.handles
             && held.handles - {h} == st.handles && !held.open[ROOT_DIR_SECTOR].removed
    ensures body.open[ROOT_DIR_SECTOR].openCnt > 0
    ensures CloseInode(body, h) == body.(open := st.open, handles := st.handles)
  {
    if ROOT_DIR_SECTOR in st.open {
      assert CountsOk(st.open[ROOT_DIR_SECTOR], st.handles, ROOT_DIR_SECTOR);
    }
    assert CloseInode(body, h).open == st.open;
  }

  /** Every way filesys_create can go. */
  lemma CreateOutcome(st: Fs, name: Name, size: nat, w1: bool, w2: bool, h: nat)
    requires FsInv(st) && h !in st.handles
    ensures var body := CreateBody(st, name, size, w1, w2);
            Create(st, name, size, w1, w2, h) == Created(body.st, body.success)
  {
    RootBracket(st, h);
    var held := OpenInodeAt(st, h, ROOT_DIR_SECTOR);
    BodyBracket(st, held, name, size, w1, w2);
    BracketClosed(st, h, CreateBody(held, name, size, w1, w2).st);
  }

  lemma BodyBracket(st: Fs, held: Fs, name: Name, size: nat, w1: bool, w2: bool)
    requires held == st.(open := held.open, handles := held.handles)
    ensures CreateBody(held, name, size, w1, w2).success == CreateBody(st, name, size, w1, w2).success
    ensures CreateBody(held, name, size, w1, w2).st.(open := st.open, handles := st.handles) ==
            CreateBody(st, name, size, w1, w2).st
  {
  }

  /** The sectors a create asks for are there. */
  predicate Room(st: Fs, size: nat, w1: bool, w2: bool)
  {
    var a := Allocate(st.used, 1, w1);
    a.Some? && Allocate(SetRun(st.used, a.value, 1, true), BytesToSectors(size), w2).Some?
  }

  /** A create succeeds exactly when there is room, the name is valid and new and the directory has a
      free slot.  One that fails gives back everything, except that it leaks the data sectors when there
      was room but no directory entry: exactly for a bad or taken name or a full directory, and a file
      that is not empty. */
  lemma CreateFails(st: Fs, name: Name, size: nat, w1: bool, w2: bool, h: nat)
    requires FsInv(st) && h !in st.handles
    ensures var r := Create(st, name, size, w1, w2, h);
            && (r.success <==> Room(st, size, w1, w2) && CanAdd(st, name))
            && (!r.success ==> (r.st.used == st.used <==> !Room(st, size, w1, w2) || size == 0))
            && (!r.success ==> r.st.names == st.names && r.st.open == st.open && r.st.handles == st.handles)
  {
    CreateOutcome(st, name, size, w1, w2, h);
    var a := Allocate(st.used, 1, w1);
    if a.Some? {
      Allocated(st, a.value, size, w1, w2);
      if Room(st, size, w1, w2) && !CanAdd(st, name) {
        var b := Allocate(SetRun(st.used, a.value, 1, true), BytesToSectors(size), w2);
        LeakChanges(st, a.value, Extent(b.value, size));
      }
    }
  }

  lemma FirstFree(used: seq<bool>, k: nat)
    requires k < |used| && !used[k] && forall i :: 0 <= i < k ==> used[i]
    ensures FirstFit(used, 0, 1, false) == Some(k)
  {
    assert Run(used, k, 1, false);
    var r := FirstFit(used, 0, 1, false);
    assert r.Some? && r.value <= k && !used[r.value];
  }

  lemma FormatSix()
    ensures Format(6, 1, 320, 16).Some?
    ensures var st := Format(6, 1, 320, 16).value;
            |st.used| == 6 && st.handles.Keys == {MAP_HANDLE} && st.leaked == {} && forall i :: 0 <= i < 6 ==>
              st.used[i] == (i < 4)
  {
    var reserved := SetRun(seq(6, _ => false), 0, 2, true);
    FirstFree(reserved, 2);
    FirstFree(SetRun(reserved, 2, 1, true), 3);
  }

  /** The last two sectors go to an inode without a name and to its data. */
  lemma NamelessLeaks(st: Fs)
    requires |st.used| == 6 && st.leaked == {} && forall i :: 0 <= i < 6 ==> st.used[i] == (i < 4)
    ensures var r := CreateBody(st, [], 1, true, true);
            !r.success && r.st.names == st.names && |r.st.used| == 6 && r.st.used[5] && r.st.leaked == {5}
  {
    FirstFree(st.used, 4);
    FirstFree(SetRun(st.used, 4, 1, true), 5);
    assert Sectors(6, 0) == {} && Sectors(5, 1) == {5};
  }

  /** On a freshly formatted device of six sectors, a create with an empty name fails and leaks the last sector. */
  lemma CreateLeaks()
    ensures Format(6, 1, 320, 16).Some?
    ensures var st := Format(6, 1, 320, 16).value;
            FsInv(st) && 7 !in st.handles &&
            var r := Create(st, [], 1, true, true, 7);
            !r.success && r.st.names == st.names && !st.used[5] && r.st.used[5] && r.st.leaked == {5}
  {
    FormatSix();
    FormatInv(6, 1, 320, 16);
    var st := Format(6, 1, 320, 16).value;
    NamelessLeaks(st);
    CreateOutcome(st, [], 1, true, true, 7);
  }

  lemma LeakChanges(st: Fs, a: nat, e: Extent)
    requires SectorsOk(st) && FreshInode(st, a, e)
    ensures Leak(st, a, e).used == st.used <==> e.length == 0
  {
    FreshApart(st, a, e);
    if e.length == 0 {
      assert Leak(st, a, e).used == st.used;
    } else {
      assert BytesToSectors(e.length) > 0 && Within(e.start, e.start, End(e));
      assert Leak(st, a, e).used[e.start] && !st.used[e.start];
    }
  }

  /** Creating a file and removing it, with no other opener, restores the free map and everything else
      but the dead inode left on the disk. */
  lemma CreateThenRemove(st: Fs, name: Name, size: nat, w1: bool, w2: bool, h: nat, h': nat, f: nat)
    requires FsInv(st) && h !in st.handles && h' !in st.handles && f !in st.handles && f != h'
    requires Create(st, name, size, w1, w2, h).success
    ensures FsInv(Create(st, name, size, w1, w2, h).st)
    ensures h' !in Create(st, name, size, w1, w2, h).st.handles && f !in Create(st, name, size, w1, w2, h).st.handles
    ensures var r := Remove(Create(st, name, size, w1, w2, h).st, name, h', f);
            && r.success && r.st.used == st.used && r.st.names == st.names && r.st.open == st.open
            && r.st.handles == st.handles && r.st.leaked == st.leaked
  {
    CreateInv(st, name, size, w1, w2, h);
    CreateOutcome(st, name, size, w1, w2, h);
    var a := Allocate(st.used, 1, w1).value;
    var b := Allocate(SetRun(st.used, a, 1, true), BytesToSectors(size), w2).value;
    var e := Extent(b, size);
    Allocated(st, a, size, w1, w2);
    FreshApart(st, a, e);
    RemoveNew(st, name, a, e, h', f);
  }

  lemma RemoveNew(st: Fs, name: Name, a: nat, e: Extent, h: nat, f: nat)
    requires FsInv(st) && FreshInode(st, a, e) && name !in st.names && a !in Live(st)
    requires h !in st.handles && f !in st.handles && f != h && FsInv(Enter(st, name, a, e))
    ensures var r := Remove(Enter(st, name, a, e), name, h, f);
            && r.success && r.st.used == st.used && r.st.names == st.names && r.st.open == st.open
            && r.st.handles == st.handles && r.st.leaked == st.leaked
  {
    var st1 := Enter(st, name, a, e);
    RootBracket(st1, h);
    var held := OpenInodeAt(st1, h, ROOT_DIR_SECTOR);
    RootIsLive(st1, h);
    var body := RemoveBody(held, name, f);
    RemoveNewBody(held, name, a, e, f);
    BracketClosed(st1, h, body.st);
    UndoEnter(st, name, a, e);
  }

  lemma RemoveNewBody(held: Fs, name: Name, a: nat, e: Extent, f: nat)
    requires FsInv(held) && f !in held.handles && name in held.names
    requires held.names[name] == a && a !in held.open && a in held.inodes
    requires held.inodes[a] == e
    ensures RemoveBody(held, name, f) ==
            Created(held.(names := held.names - {name}, used := ReleaseInode(held.used, a, e)), true)
  {
    ForgetHandle(held.handles, f, Handle(a, false));
    assert RemoveBody(held, name, f).st.open == held.open;
  }

  lemma UndoEnter(st: Fs, name: Name, a: nat, e: Extent)
    requires FreshInode(st, a, e) && name !in st.names
    ensures Enter(st, name, a, e).names - {name} == st.names
    ensures ReleaseInode(Enter(st, name, a, e).used, a, e) == st.used
  {
    assert forall i :: Within(i, e.start, End(e)) ==> !SetRun(st.used, a, 1, true)[i];
    assert st.used[a] == false;
    assert forall i :: 0 <= i < |st.used| ==> ReleaseInode(Enter(st, name, a, e).used, a, e)[i] == st.used[i];
  }

  // ---------------------------------------------------------------- denying writes

  /** In every run the count of an inode is the number of its openers that deny writes, so the
      assertions in inode_deny_write and inode_allow_write hold whenever they are reached, and writes
      are denied exactly while some opener denies them. */
  lemma DenyCountsExact(states: seq<Fs>, events: seq<Event>, i: nat, s: nat)
    requires IsRun(states, events) && i < |states| && s in states[i].open
    ensures var inode, hs := states[i].open[s], states[i].handles;
            && inode.openCnt == |Openers(hs, s)| && inode.denyCnt == |Deniers(hs, s)| && inode.denyCnt <= inode.openCnt
            && (inode.denyCnt > 0 <==> exists h :: h in hs && hs[h].sector == s && hs[h].denies)
            && (forall h :: h in hs && hs[h].sector == s ==>
                  if hs[h].denies then inode.denyCnt > 0 else inode.denyCnt + 1 <= inode.openCnt)
  {
    Reachable(states, events, i);
    var st := states[i];
    assert CountsOk(st.open[s], st.handles, s);
    SubsetSize(Deniers(st.handles, s), Openers(st.handles, s));
    forall h | h in st.handles && st.handles[h].sector == s
      ensures if st.handles[h].denies then st.open[s].denyCnt > 0 else st.open[s].denyCnt + 1 <= st.open[s].openCnt
    {
      DenyCounts(st, h);
    }
    if st.open[s].denyCnt > 0 {
      var h :| h in Deniers(st.handles, s);
    }
  }
}
