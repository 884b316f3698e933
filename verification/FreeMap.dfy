/** First-fit allocation of runs of bits (lib/kernel/bitmap.c, filesys/free-map.c). */
module FreeMap {
  import opened Common

  /** The run of cnt bits from start lies in the map and every bit in it has the given value. */
  predicate Run(bits: seq<bool>, start: nat, cnt: nat, value: bool)
  {
    start + cnt <= |bits| && forall i :: start <= i < start + cnt ==> bits[i] == value
  }

  function SetRun(bits: seq<bool>, start: nat, cnt: nat, value: bool): (r: seq<bool>)
    ensures |r| == |bits|
    ensures forall i :: 0 <= i < |bits| ==> r[i] == if start <= i < start + cnt then value else bits[i]
  {
    seq(|bits|, i requires 0 <= i < |bits| => if start <= i < start + cnt then value else bits[i])
  }

  /** The lowest start of a run, at or after from. */
  function FirstFit(bits: seq<bool>, from: nat, cnt: nat, value: bool): (r: Option<nat>)
    ensures r.Some? ==> from <= r.value && Run(bits, r.value, cnt, value)
    ensures r.Some? ==> forall j :: from <= j < r.value ==> !Run(bits, j, cnt, value)
    ensures r.None? ==> forall j :: from <= j ==> !Run(bits, j, cnt, value)
    decreases |bits| - from
  {
    if from + cnt > |bits| then None
    else if Run(bits, from, cnt, value) then Some(from)
    else FirstFit(bits, from + 1, cnt, value)
  }

  /** Allocating a run and releasing it leaves the map as it was. */
  lemma SetThenClear(bits: seq<bool>, start: nat, cnt: nat, value: bool)
    requires Run(bits, start, cnt, value)
    ensures SetRun(SetRun(bits, start, cnt, !value), start, cnt, value) == bits
  {
  }

  class Bitmap {
    const bits: array<bool>

    constructor (size: nat)
      ensures fresh(bits) && bits.Length == size && forall i :: 0 <= i < size ==> !bits[i]
    {
      bits := new bool[size](_ => false);
    }

    /** bitmap_contains */
    method Contains(start: nat, cnt: nat, value: bool) returns (found: bool)
      requires start + cnt <= bits.Length
      ensures found <==> !Run(bits[..], start, cnt, !value)
    {
      for i := 0 to cnt
        invariant forall j :: start <= j < start + i ==> bits[j] == !value
      {
        if bits[start + i] == value { return true; }
      }
      found := false;
    }

    /** bitmap_all */
    method All(start: nat, cnt: nat) returns (all: bool)
      requires start + cnt <= bits.Length
      ensures all <==> Run(bits[..], start, cnt, true)
    {
      var missing := Contains(start, cnt, false);
      all := !missing;
    }

    /** bitmap_scan; None is BITMAP_ERROR. */
    method Scan(start: nat, cnt: nat, value: bool) returns (r: Option<nat>)
      requires start <= bits.Length
      ensures r == FirstFit(bits[..], start, cnt, value)
    {
      if cnt <= bits.Length {
        var last := bits.Length - cnt;
        var i := start;
        while i <= last
          invariant start <= i
          invariant FirstFit(bits[..], start, cnt, value) == FirstFit(bits[..], i, cnt, value)
          decreases last - i
        {
          var blocked := Contains(i, cnt, !value);
          if !blocked { return Some(i); }
          i := i + 1;
        }
      }
      r := None;
    }

    /** bitmap_set_multiple */
    method SetMultiple(start: nat, cnt: nat, value: bool)
      requires start + cnt <= bits.Length
      modifies bits
      ensures bits[..] == SetRun(old(bits[..]), start, cnt, value)
    {
      for i := 0 to cnt
        invariant forall j :: 0 <= j < bits.Length ==> bits[j] == if start <= j < start + i then value else old(bits[j])
      {
        bits[start + i] := value;
      }
    }

    /** bitmap_scan_and_flip */
    method ScanAndFlip(start: nat, cnt: nat, value: bool) returns (r: Option<nat>)
      requires start <= bits.Length
      modifies bits
      ensures r == FirstFit(old(bits[..]), start, cnt, value)
      ensures bits[..] == if r.Some? then SetRun(old(bits[..]), r.value, cnt, !value) else old(bits[..])
    {
      r := Scan(start, cnt, value);
      if r.Some? { SetMultiple(r.value, cnt, !value); }
    }

    /** free_map_allocate: mapWritten tells whether the free map file took the new map. */
    method Allocate(cnt: nat, mapWritten: bool) returns (r: Option<nat>)
      modifies bits
      ensures r == if mapWritten then FirstFit(old(bits[..]), 0, cnt, false) else None
      ensures bits[..] == if r.Some? then SetRun(old(bits[..]), r.value, cnt, true) else old(bits[..])
    {
      r := ScanAndFlip(0, cnt, false);
      if r.Some? && !mapWritten {
        SetThenClear(old(bits[..]), r.value, cnt, false);
        SetMultiple(r.value, cnt, false);
        r := None;
      }
    }

    /** free_map_release: the assertion that every bit was set is the caller's to establish. */
    method Release(start: nat, cnt: nat)
      requires Run(bits[..], start, cnt, true)
      modifies bits
      ensures bits[..] == SetRun(old(bits[..]), start, cnt, false)
    {
      SetMultiple(start, cnt, false);
    }
  }
}
