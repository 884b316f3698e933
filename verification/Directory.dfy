/** A directory as an array of 20-byte entries in a file, refining a bounded map from names to sectors
    (filesys/directory.c). */
module Directory {
  import opened Common
  import opened InodeIO

  const NAME_MAX: nat := 14
  const ENTRY: nat := 20      // sizeof (struct dir_entry): sector, name[NAME_MAX + 1], in_use

  // ---------------------------------------------------------------- words

  function Word(n: nat): seq<Byte>
    requires n < TWO32
  {
    [n % 256, n / 256 % 256, n / 65536 % 256, n / 16777216]
  }

  function UnWord(b: seq<Byte>): nat
    requires |b| == 4
  {
    (b[0] as int) + 256 * (b[1] as int) + 65536 * (b[2] as int) + 16777216 * (b[3] as int)
  }

  lemma WordRoundTrip(n: nat)
    requires n < TWO32
    ensures UnWord(Word(n)) == n
  {
    var q := n / 256;
    assert n == 256 * q + n % 256;
    var r := q / 256;
    assert n / 65536 == r && q == 256 * r + q % 256;
    assert n / 16777216 == r / 256 && r == 256 * (r / 256) + r % 256;
  }

  // ---------------------------------------------------------------- entries

  function Slots(f: seq<Byte>): nat { |f| / ENTRY }

  lemma SlotInside(f: seq<Byte>, k: nat)
    requires k < Slots(f)
    ensures ENTRY * k + ENTRY <= |f|
  {
  }

  function Slot(f: seq<Byte>, k: nat): (e: seq<Byte>)
    requires k < Slots(f)
    ensures |e| == ENTRY
  {
    SlotInside(f, k);
    f[ENTRY * k..ENTRY * k + ENTRY]
  }

  predicate Used(e: seq<Byte>)
    requires |e| == ENTRY
  {
    e[19] != 0
  }

  function EntryName(e: seq<Byte>): Name
    requires |e| == ENTRY
  {
    CStr(e[4..19])
  }

  function EntrySector(e: seq<Byte>): nat
    requires |e| == ENTRY
  {
    UnWord(e[..4])
  }

  /** The slot is in use under the given name. */
  predicate Named(f: seq<Byte>, k: nat, name: Name)
    requires k < Slots(f)
  {
    Used(Slot(f, k)) && EntryName(Slot(f, k)) == name
  }

  /** In-use names are distinct. */
  ghost predicate Distinct(f: seq<Byte>)
  {
    forall j, k :: 0 <= j < Slots(f) && 0 <= k < Slots(f) && Used(Slot(f, j)) && Named(f, k, EntryName(Slot(f, j))) ==>
      j == k
  }

  /** The map the slots from k on stand for. */
  function MapFrom(f: seq<Byte>, k: nat): map<Name, nat>
    requires k <= Slots(f)
    decreases Slots(f) - k
  {
    if k == Slots(f) then map[]
    else if Used(Slot(f, k)) then MapFrom(f, k + 1)[EntryName(Slot(f, k)) := EntrySector(Slot(f, k))]
    else MapFrom(f, k + 1)
  }

  function DirMap(f: seq<Byte>): map<Name, nat> { MapFrom(f, 0) }

  function UsedFrom(f: seq<Byte>, k: nat): nat
    requires k <= Slots(f)
    decreases Slots(f) - k
  {
    if k == Slots(f) then 0 else (if Used(Slot(f, k)) then 1 else 0) + UsedFrom(f, k + 1)
  }

  lemma {:induction false} MapFromKeys(f: seq<Byte>, k: nat)
    requires k <= Slots(f)
    ensures forall n :: n in MapFrom(f, k) <==> exists j :: k <= j < Slots(f) && Named(f, j, n)
    decreases Slots(f) - k
  {
    if k < Slots(f) {
      MapFromKeys(f, k + 1);
      forall n ensures n in MapFrom(f, k) <==> exists j :: k <= j < Slots(f) && Named(f, j, n) {
        if n in MapFrom(f, k) && n !in MapFrom(f, k + 1) { assert Named(f, k, n); }
      }
    }
  }

  lemma {:induction false} MapFromValue(f: seq<Byte>, k: nat, j: nat, name: Name)
    requires Distinct(f) && k <= j < Slots(f) && Named(f, j, name)
    ensures name in MapFrom(f, k) && MapFrom(f, k)[name] == EntrySector(Slot(f, j))
    decreases Slots(f) - k
  {
    if k < j {
      MapFromValue(f, k + 1, j, name);
      assert !Named(f, k, name);
    }
  }

  /** As many names as slots in use. */
  lemma {:induction false} MapFromSize(f: seq<Byte>, k: nat)
    requires Distinct(f) && k <= Slots(f)
    ensures |MapFrom(f, k)| == UsedFrom(f, k)
    decreases Slots(f) - k
  {
    if k < Slots(f) {
      MapFromSize(f, k + 1);
      if Used(Slot(f, k)) {
        MapFromKeys(f, k + 1);
        var n := EntryName(Slot(f, k));
        assert n !in MapFrom(f, k + 1);
      }
    }
  }

  lemma {:induction false} FullOrNot(f: seq<Byte>, k: nat)
    requires k <= Slots(f)
    ensures UsedFrom(f, k) <= Slots(f) - k
    ensures UsedFrom(f, k) < Slots(f) - k <==> exists j :: k <= j < Slots(f) && !Used(Slot(f, j))
    decreases Slots(f) - k
  {
    if k < Slots(f) {
      FullOrNot(f, k + 1);
    }
  }

  /** There is a free slot exactly when the map is smaller than the directory. */
  lemma RoomLeft(f: seq<Byte>)
    requires Distinct(f)
    ensures |DirMap(f)| < Slots(f) <==> exists j :: 0 <= j < Slots(f) && !Used(Slot(f, j))
  {
    MapFromSize(f, 0);
    FullOrNot(f, 0);
  }

  lemma DirMapKeys(f: seq<Byte>)
    ensures forall n :: n in DirMap(f) <==> exists j :: 0 <= j < Slots(f) && Named(f, j, n)
  {
    MapFromKeys(f, 0);
  }

  /** The layout of an entry: bytes 0 to 3 the sector, lowest byte first, from byte 4 the name up to a null character or
      byte 19, and in byte 19 whether it is in use. */
  lemma EntryMeans(e: seq<Byte>)
    requires |e| == 20
    ensures Used(e) <==> e[19] != 0
    ensures EntrySector(e) == e[0] as int + 0x100 * e[1] as int + 0x1_0000 * e[2] as int + 0x100_0000 * e[3] as int
    ensures var name := EntryName(e);
            && |name| <= 15 && (forall i :: 0 <= i < |name| ==> name[i] == e[4 + i] != 0)
            && (|name| < 15 ==> e[4 + |name|] == 0)
  {
    CStrIs(e[4..19]);
  }

  lemma {:induction false} CStrIs(s: seq<Byte>)
    ensures |CStr(s)| <= |s| && (forall i :: 0 <= i < |CStr(s)| ==> CStr(s)[i] == s[i] != 0)
    ensures |CStr(s)| < |s| ==> s[|CStr(s)|] == 0
  {
    if s != [] && s[0] != 0 { CStrIs(s[1..]); }
  }

  // ---------------------------------------------------------------- writing one slot

  ghost function WriteSlot(f: seq<Byte>, k: nat, e: seq<Byte>): (g: seq<Byte>)
    requires k < Slots(f) && |e| == ENTRY
    ensures |g| == |f| && Slots(g) == Slots(f)
  {
    SlotInside(f, k);
    f[..ENTRY * k] + e + f[ENTRY * k + ENTRY..]
  }

  lemma SlotsApart(j: nat, k: nat)
    requires j != k
    ensures ENTRY * j + ENTRY <= ENTRY * k || ENTRY * k + ENTRY <= ENTRY * j
  {
  }

  lemma OtherSlots(f: seq<Byte>, k: nat, e: seq<Byte>, j: nat)
    requires k < Slots(f) && |e| == ENTRY && j < Slots(f)
    ensures Slot(WriteSlot(f, k, e), j) == if j == k then e else Slot(f, j)
  {
    SlotInside(f, k);
    SlotInside(f, j);
    if j != k { SlotsApart(j, k); }
  }

  /** The entry dir_add writes; old holds what the slot held before. */
  function NewEntry(old_: seq<Byte>, name: Name, sector: nat): (e: seq<Byte>)
    requires |old_| == ENTRY && |name| <= NAME_MAX && sector < TWO32
    ensures |e| == ENTRY
  {
    Word(sector) + name + [0] + old_[4 + |name| + 1..19] + [1]
  }

  lemma NewEntryReads(old_: seq<Byte>, name: Name, sector: nat)
    requires |old_| == ENTRY && NoNull(name) && |name| <= NAME_MAX && sector < TWO32
    ensures var e := NewEntry(old_, name, sector); Used(e) && EntryName(e) == name && EntrySector(e) == sector
  {
    var e := NewEntry(old_, name, sector);
    assert e[4..19] == name + [0] + old_[4 + |name| + 1..19];
    CStrTerminated(name, old_[4 + |name| + 1..19]);
    assert e[..4] == Word(sector);
    WordRoundTrip(sector);
  }

  lemma AddedNames(f: seq<Byte>, k: nat, e: seq<Byte>, j: nat, n: Name)
    requires k < Slots(f) && |e| == ENTRY && !Used(Slot(f, k)) && Used(e) && j < Slots(f)
    ensures var g := WriteSlot(f, k, e);
            if j == k then Named(g, j, n) == (n == EntryName(e)) && !Named(f, j, n)
            else Named(g, j, n) == Named(f, j, n) && Slot(g, j) == Slot(f, j)
  {
    OtherSlots(f, k, e, j);
  }

  lemma AddedKeys(f: seq<Byte>, k: nat, e: seq<Byte>, n: Name)
    requires k < Slots(f) && |e| == ENTRY && !Used(Slot(f, k)) && Used(e)
    ensures n in DirMap(WriteSlot(f, k, e)) <==> n in DirMap(f) || n == EntryName(e)
  {
    var g := WriteSlot(f, k, e);
    DirMapKeys(f);
    DirMapKeys(g);
    forall j: nat | j < Slots(f) ensures Named(g, j, n) == if j == k then n == EntryName(e) else Named(f, j, n) {
      AddedNames(f, k, e, j, n);
    }
    AddedNames(f, k, e, k, n);
  }

  lemma AddedValue(f: seq<Byte>, k: nat, e: seq<Byte>, n: Name)
    requires k < Slots(f) && |e| == ENTRY && !Used(Slot(f, k)) && Used(e) && Distinct(f) && Distinct(WriteSlot(f, k, e))
    requires n in DirMap(WriteSlot(f, k, e)) && EntryName(e) !in DirMap(f)
    ensures if n == EntryName(e) then DirMap(WriteSlot(f, k, e))[n] == EntrySector(e)
            else n in DirMap(f) && DirMap(WriteSlot(f, k, e))[n] == DirMap(f)[n]
  {
    var g := WriteSlot(f, k, e);
    DirMapKeys(f);
    DirMapKeys(g);
    var j: nat :| j < Slots(g) && Named(g, j, n);
    AddedNames(f, k, e, j, n);
    OtherSlots(f, k, e, j);
    MapFromValue(g, 0, j, n);
    if j != k { MapFromValue(f, 0, j, n); }
  }

  /** Entering a new name in a free slot adds it to the map. */
  lemma AddSlot(f: seq<Byte>, k: nat, e: seq<Byte>)
    requires Distinct(f) && k < Slots(f) && |e| == ENTRY && !Used(Slot(f, k)) && Used(e) && EntryName(e) !in DirMap(f)
    ensures Distinct(WriteSlot(f, k, e))
    ensures DirMap(WriteSlot(f, k, e)) == DirMap(f)[EntryName(e) := EntrySector(e)]
  {
    AddDistinct(f, k, e);
    forall n ensures n in DirMap(WriteSlot(f, k, e)) <==> n in DirMap(f) || n == EntryName(e) { AddedKeys(f, k, e, n); }
    forall n | n in DirMap(WriteSlot(f, k, e))
      ensures DirMap(WriteSlot(f, k, e))[n] == DirMap(f)[EntryName(e) := EntrySector(e)][n]
    {
      AddedValue(f, k, e, n);
    }
  }

  lemma AddDistinct(f: seq<Byte>, k: nat, e: seq<Byte>)
    requires Distinct(f) && k < Slots(f) && |e| == ENTRY && EntryName(e) !in DirMap(f)
    ensures Distinct(WriteSlot(f, k, e))
  {
    var g := WriteSlot(f, k, e);
    DirMapKeys(f);
    forall i, j | 0 <= i < Slots(g) && 0 <= j < Slots(g) && Used(Slot(g, i)) && Named(g, j, EntryName(Slot(g, i)))
      ensures i == j
    {
      OtherSlots(f, k, e, i);
      OtherSlots(f, k, e, j);
      if i != k { assert Named(f, i, EntryName(Slot(f, i))); }
      if j != k { assert Named(f, j, EntryName(Slot(f, j))); }
    }
  }

  /** The entry dir_remove writes back. */
  function Erased(e: seq<Byte>): (r: seq<Byte>)
    requires |e| == ENTRY
    ensures |r| == ENTRY && !Used(r)
  {
    e[..19] + [0]
  }

  /** Erasing an entry takes its name, and no other, out of the map. */
  lemma EraseSlot(f: seq<Byte>, k: nat)
    requires Distinct(f) && k < Slots(f) && Used(Slot(f, k))
    ensures var g := WriteSlot(f, k, Erased(Slot(f, k)));
            Distinct(g) && DirMap(g) == DirMap(f) - {EntryName(Slot(f, k))}
  {
    var g := WriteSlot(f, k, Erased(Slot(f, k)));
    EraseDistinct(f, k);
    EraseKeys(f, k);
    forall n | n in DirMap(g) ensures DirMap(g)[n] == DirMap(f)[n] {
      DirMapKeys(g);
      var j :| 0 <= j < Slots(g) && Named(g, j, n);
      OtherSlots(f, k, Erased(Slot(f, k)), j);
      MapFromValue(g, 0, j, n);
      MapFromValue(f, 0, j, n);
    }
  }

  lemma EraseKeys(f: seq<Byte>, k: nat)
    requires Distinct(f) && k < Slots(f) && Used(Slot(f, k))
    ensures var g := WriteSlot(f, k, Erased(Slot(f, k)));
            forall n :: n in DirMap(g) <==> n in DirMap(f) && n != EntryName(Slot(f, k))
  {
    var e := Erased(Slot(f, k));
    var g, name := WriteSlot(f, k, e), EntryName(Slot(f, k));
    forall j | 0 <= j < Slots(f) ensures Slot(g, j) == if j == k then e else Slot(f, j) { OtherSlots(f, k, e, j); }
    DirMapKeys(f);
    DirMapKeys(g);
    forall n ensures n in DirMap(g) <==> n in DirMap(f) && n != name {
      if n in DirMap(f) && n != name {
        var j :| 0 <= j < Slots(f) && Named(f, j, n);
        assert Named(g, j, n);
      }
      if n in DirMap(g) {
        var j :| 0 <= j < Slots(g) && Named(g, j, n);
        assert Named(f, j, n) && j != k;
      }
    }
  }

  lemma EraseDistinct(f: seq<Byte>, k: nat)
    requires Distinct(f) && k < Slots(f)
    ensures Distinct(WriteSlot(f, k, Erased(Slot(f, k))))
  {
    var e := Erased(Slot(f, k));
    var g := WriteSlot(f, k, e);
    forall i, j | 0 <= i < Slots(g) && 0 <= j < Slots(g) && Used(Slot(g, i)) && Named(g, j, EntryName(Slot(g, i)))
      ensures i == j
    {
      OtherSlots(f, k, e, i);
      OtherSlots(f, k, e, j);
      assert Named(f, j, EntryName(Slot(f, i)));
    }
  }

  // ---------------------------------------------------------------- listing

  /** The first slot in use at or after k. */
  function NextUsed(f: seq<Byte>, k: nat): (r: Option<nat>)
    requires k <= Slots(f)
    ensures r.Some? ==> k <= r.value < Slots(f) && Used(Slot(f, r.value))
    ensures forall j :: k <= j < (if r.Some? then r.value else Slots(f)) ==> !Used(Slot(f, j))
    decreases Slots(f) - k
  {
    if k == Slots(f) then None else if Used(Slot(f, k)) then Some(k) else NextUsed(f, k + 1)
  }

  /** The names successive calls of dir_readdir deliver, starting at slot k. */
  function Listing(f: seq<Byte>, k: nat): seq<Name>
    requires k <= Slots(f)
    decreases Slots(f) - k
  {
    var j := NextUsed(f, k);
    if j.None? then [] else [EntryName(Slot(f, j.value))] + Listing(f, j.value + 1)
  }

  lemma {:induction false} ListingNames(f: seq<Byte>, k: nat)
    requires k <= Slots(f) && Distinct(f)
    ensures forall n :: n in Listing(f, k) <==> exists j :: k <= j < Slots(f) && Named(f, j, n)
    ensures forall i, j :: 0 <= i < j < |Listing(f, k)| ==> Listing(f, k)[i] != Listing(f, k)[j]
    decreases Slots(f) - k
  {
    var u := NextUsed(f, k);
    if u.Some? {
      ListingNames(f, u.value + 1);
      var first, rest := EntryName(Slot(f, u.value)), Listing(f, u.value + 1);
      assert Named(f, u.value, first);
      assert first !in rest;
      forall n ensures n in Listing(f, k) <==> exists j :: k <= j < Slots(f) && Named(f, j, n) {
        if j :| k <= j < Slots(f) && Named(f, j, n) { assert j == u.value || j > u.value; }
      }
    }
  }

  /** One call of dir_readdir starting at slot k delivers the head of the listing and leaves its tail. */
  lemma ListingStep(f: seq<Byte>, k: nat, j: nat)
    requires k <= j <= Slots(f) && forall i :: k <= i < j ==> !Used(Slot(f, i))
    requires j < Slots(f) ==> Used(Slot(f, j))
    ensures Listing(f, k) == if j < Slots(f) then [EntryName(Slot(f, j))] + Listing(f, j + 1) else []
  {
    var r := NextUsed(f, k);
    assert if j < Slots(f) then r.Some? && r.value == j else r.None?;
  }

  /** Reading a directory from the start lists every name in use exactly once. */
  lemma ListsEachOnce(f: seq<Byte>)
    requires Distinct(f)
    ensures forall n :: n in Listing(f, 0) <==> n in DirMap(f)
    ensures forall i, j :: 0 <= i < j < |Listing(f, 0)| ==> Listing(f, 0)[i] != Listing(f, 0)[j]
    ensures |Listing(f, 0)| == |DirMap(f)|
  {
    ListingNames(f, 0);
    DirMapKeys(f);
    ListingSize(f, 0);
    MapFromSize(f, 0);
  }

  lemma {:induction false} ListingSize(f: seq<Byte>, k: nat)
    requires k <= Slots(f)
    ensures |Listing(f, k)| == UsedFrom(f, k)
    decreases Slots(f) - k
  {
    SkipUnused(f, k);
    var u := NextUsed(f, k);
    if u.Some? { ListingSize(f, u.value + 1); }
  }

  lemma {:induction false} SkipUnused(f: seq<Byte>, k: nat)
    requires k <= Slots(f)
    ensures UsedFrom(f, k) == UsedFrom(f, if NextUsed(f, k).Some? then NextUsed(f, k).value else Slots(f))
    decreases Slots(f) - k
  {
    if k < Slots(f) && !Used(Slot(f, k)) { SkipUnused(f, k + 1); }
  }

  // ---------------------------------------------------------------- directories on a device

  lemma ReadsWholeSlot(length: nat, k: nat)
    ensures Transfer(length, ENTRY, ENTRY * k) == ENTRY <==> k < length / ENTRY
    ensures length % ENTRY == 0 && k >= length / ENTRY ==> Transfer(length, ENTRY, ENTRY * k) == 0
  {
  }

  /** Every sector outside the directory is as it was. */
  ghost predicate OnlyInside(before: seq<seq<Byte>>, after: seq<seq<Byte>>, e: Extent)
  {
    |after| == |before| &&
    forall s :: 0 <= s < |before| && !(e.start <= s < e.start + BytesToSectors(e.length)) ==> after[s] == before[s]
  }

  /** A whole-entry write replaces one slot and nothing else on the device. */
  lemma SlotWritten(before: seq<seq<Byte>>, after: seq<seq<Byte>>, e: Extent, data: seq<Byte>, k: nat)
    requires Formatted(before) && Fits(e, before) && |data| == ENTRY && k < e.length / ENTRY
    requires Written(before, after, e, data, ENTRY * k, ENTRY)
    ensures Fits(e, after) && Flat(after, e) == WriteSlot(Flat(before, e), k, data)
    ensures OnlyInside(before, after, e)
  {
    SlotInside(Flat(before, e), k);
    WriteFlat(before, after, e, data, ENTRY * k, ENTRY);
    assert data[..ENTRY] == data;
    OutsideKept(before, after, e, data, ENTRY * k, ENTRY);
  }

  lemma OutsideKept(before: seq<seq<Byte>>, after: seq<seq<Byte>>, e: Extent, data: seq<Byte>, offset: nat, n: nat)
    requires Formatted(before) && n <= |data| && Written(before, after, e, data, offset, n) && offset + n <= e.length
    ensures OnlyInside(before, after, e)
  {
    forall s | 0 <= s < |before| && !(e.start <= s < e.start + BytesToSectors(e.length))
      ensures after[s] == before[s]
    {
      forall i | 0 <= i < SECTOR ensures after[s][i] == before[s][i] {
        BeyondFile(e, s, i, offset, n);
      }
    }
  }

  class Dir {
    const disk: Disk
    const e: Extent
    var pos: nat

    /** dir_create makes the directory a whole number of entries long. */
    ghost predicate Valid()
      reads disk
    {
      disk.Valid() && Fits(e, disk.sectors) && e.length % ENTRY == 0 && Distinct(File())
    }

    ghost function File(): seq<Byte>
      requires disk.Valid() && Fits(e, disk.sectors)
      reads disk
    {
      Flat(disk.sectors, e)
    }

    constructor (disk: Disk, e: Extent)
      ensures this.disk == disk && this.e == e && pos == 0
    {
      this.disk, this.e, pos := disk, e, 0;
    }

    /** inode_read_at of one whole entry; None at end of file. */
    method ReadEntry(k: nat) returns (r: Option<seq<Byte>>)
      requires Valid()
      ensures r == if k < Slots(File()) then Some(Slot(File(), k)) else None
    {
      var buffer := new Byte[ENTRY];
      var n := disk.ReadAt(e, buffer, ENTRY, ENTRY * k);
      ReadsWholeSlot(e.length, k);
      if n == ENTRY {
        SlotInside(File(), k);
        assert buffer[..n] == buffer[..];
        return Some(buffer[..]);
      }
      r := None;
    }

    /** The slot that holds the name, if any. */
    method Lookup(name: Name) returns (r: Option<nat>)
      requires Valid()
      ensures r.Some? ==> r.value < Slots(File()) && Named(File(), r.value, name)
      ensures r.Some? <==> name in DirMap(File())
    {
      ghost var f := File();
      DirMapKeys(f);
      var k := 0;
      var entry := ReadEntry(0);
      while entry.Some?
        invariant k <= Slots(f)
        invariant entry == if k < Slots(f) then Some(Slot(f, k)) else None
        invariant forall j :: 0 <= j < k ==> !Named(f, j, name)
        decreases Slots(f) - k
      {
        if Used(entry.value) && EntryName(entry.value) == name {
          assert Named(f, k, name);
          return Some(k);
        }
        k := k + 1;
        entry := ReadEntry(k);
      }
      r := None;
    }

    /** The first free slot, or the end of the file. */
    method FreeSlot() returns (k: nat)
      requires Valid()
      ensures k <= Slots(File()) && (k < Slots(File()) ==> !Used(Slot(File(), k)))
      ensures forall j :: 0 <= j < k ==> Used(Slot(File(), j))
    {
      k := 0;
      var entry := ReadEntry(0);
      while entry.Some? && Used(entry.value)
        invariant k <= Slots(File())
        invariant entry == if k < Slots(File()) then Some(Slot(File(), k)) else None
        invariant forall j :: 0 <= j < k ==> Used(Slot(File(), j))
        decreases Slots(File()) - k
      {
        k := k + 1;
        entry := ReadEntry(k);
      }
    }

    /** dir_add: succeeds exactly when the name is valid and new and there is a free slot, and then adds
        that one name to the map. */
    method Add(name: Name, sector: nat) returns (success: bool)
      requires Valid() && NoNull(name) && sector < TWO32
      modifies disk
      ensures Valid()
      ensures success <==>
                0 < |name| <= 14 && name !in old(DirMap(File())) && |old(DirMap(File()))| < old(Slots(File()))
      ensures success ==> DirMap(File()) == old(DirMap(File()))[name := sector]
      ensures !success ==> File() == old(File())
      ensures OnlyInside(old(disk.sectors), disk.sectors, e)
    {
      if |name| == 0 || |name| > NAME_MAX { return false; }
      var found := Lookup(name);
      if found.Some? { return false; }
      var k := FreeSlot();
      RoomLeft(File());
      var was := ReadEntry(k);
      var entry := NewEntry(if was.Some? then was.value else seq(ENTRY, _ => 0), name, sector);
      ghost var before := disk.sectors;
      var n := disk.WriteAt(e, 0, entry, ENTRY, ENTRY * k);
      ReadsWholeSlot(e.length, k);
      success := n == ENTRY;
      if success {
        SlotWritten(before, disk.sectors, e, entry, k);
        NewEntryReads(Slot(Flat(before, e), k), name, sector);
        AddSlot(Flat(before, e), k, entry);
      } else {
        NothingWritten(before, disk.sectors, e, entry, ENTRY * k);
      }
    }

    /** dir_remove, up to inode_remove on the sector it returns. */
    method Remove(name: Name) returns (r: Option<nat>)
      requires Valid()
      modifies disk
      ensures Valid()
      ensures r == if name in old(DirMap(File())) then Some(old(DirMap(File()))[name]) else None
      ensures DirMap(File()) == old(DirMap(File())) - {name}
      ensures r.None? ==> File() == old(File())
      ensures OnlyInside(old(disk.sectors), disk.sectors, e)
    {
      var found := Lookup(name);
      if found.None? {
        assert DirMap(File()) - {name} == DirMap(File());
        return None;
      }
      var k := found.value;
      var was := ReadEntry(k);
      MapFromValue(File(), 0, k, name);
      ghost var before := disk.sectors;
      var n := disk.WriteAt(e, 0, Erased(was.value), ENTRY, ENTRY * k);
      ReadsWholeSlot(e.length, k);
      SlotWritten(before, disk.sectors, e, Erased(was.value), k);
      EraseSlot(Flat(before, e), k);
      r := Some(EntrySector(was.value));
    }

    /** dir_readdir: delivers the name in the first slot in use at or after slot k, where the position
        is, and moves past it (see `ListingStep`). */
    method ReadDir(ghost k: nat) returns (r: Option<Name>, ghost j: nat)
      requires Valid() && pos == ENTRY * k && k <= Slots(File())
      modifies this`pos
      ensures k <= j <= Slots(File()) && forall i :: k <= i < j ==> !Used(Slot(File(), i))
      ensures j < Slots(File()) ==>
                Used(Slot(File(), j)) && r == Some(EntryName(Slot(File(), j))) && pos == ENTRY * (j + 1)
      ensures j == Slots(File()) ==> r == None && pos == ENTRY * j
    {
      var i := pos / ENTRY;
      assert i == k;
      var entry := ReadEntry(i);
      while entry.Some?
        invariant pos == ENTRY * i && k <= i <= Slots(File())
        invariant entry == if i < Slots(File()) then Some(Slot(File(), i)) else None
        invariant forall j :: k <= j < i ==> !Used(Slot(File(), j))
        decreases Slots(File()) - i
      {
        pos := pos + ENTRY;
        if Used(entry.value) {
          return Some(EntryName(entry.value)), i;
        }
        i := i + 1;
        entry := ReadEntry(i);
      }
      r, j := None, i;
    }

    /** dir_readdir again: what it delivers heads the listing of what is still to come. */
    method NextName(ghost k: nat) returns (r: Option<Name>, ghost next: nat)
      requires Valid() && pos == ENTRY * k && k <= Slots(File())
      modifies this`pos
      ensures k <= next <= Slots(File()) && pos == ENTRY * next && (r.Some? ==> k < next)
      ensures r.None? ==> next == Slots(File())
      ensures Listing(File(), k) == ThenRest(r, File(), next)
    {
      ghost var j;
      r, j := ReadDir(k);
      ListingStep(File(), k, j);
      next := if r.Some? then j + 1 else j;
    }

    /** Calls of dir_readdir from the start of the directory until it delivers no more. */
    method List() returns (names: seq<Name>)
      requires Valid()
      modifies this`pos
      ensures names == Listing(File(), 0) && pos == ENTRY * Slots(File())
    {
      pos, names := 0, [];
      ghost var f, k := File(), 0;
      var name;
      name, k := NextName(0);
      while name.Some?
        invariant File() == f && 0 <= k <= Slots(f) && pos == ENTRY * k && (name.None? ==> k == Slots(f))
        invariant Listing(f, 0) == names + ThenRest(name, f, k)
        decreases Slots(f) - k + if name.Some? then 1 else 0
      {
        Delivered(names, name.value, Listing(f, k));
        names := names + [name.value];
        name, k := NextName(k);
      }
    }
  }

  ghost function ThenRest(name: Option<Name>, f: seq<Byte>, k: nat): seq<Name>
    requires k <= Slots(f)
  {
    if name.Some? then [name.value] + Listing(f, k) else []
  }

  lemma Delivered(names: seq<Name>, name: Name, rest: seq<Name>)
    ensures names + ([name] + rest) == (names + [name]) + rest
  {
  }

  lemma NothingWritten(before: seq<seq<Byte>>, after: seq<seq<Byte>>, e: Extent, data: seq<Byte>, offset: nat)
    requires Formatted(before) && Fits(e, before) && Written(before, after, e, data, offset, 0)
    ensures after == before
  {
    forall s | 0 <= s < |before| ensures after[s] == before[s] {
      assert forall i :: 0 <= i < SECTOR ==> after[s][i] == before[s][i];
    }
  }
}
