/** ustar_make_header and ustar_parse_header on a header buffer, proved against UstarModel. */
module Ustar {
  import opened Common
  import opened UstarModel
  import Printf

  /** strip_antisocial_prefixes */
  method StripAntisocialPrefixes(fileName: seq<Byte>) returns (r: seq<Byte>)
    ensures r == Strip(fileName)
  {
    r := fileName;
    while Antisocial(r)
      invariant DropPrefixes(r) == DropPrefixes(fileName)
      decreases |r|
    {
      r := r[FirstSlash(r) + 1..];
    }
    if r == [] || r == [DOT, DOT] { r := [DOT]; }
  }

  /** strlcpy, memset and plain assignments into a field. */
  method Store(header: array<Byte>, ofs: nat, b: seq<Byte>)
    requires ofs + |b| <= header.Length
    modifies header
    ensures header[..] == Put(old(header[..]), ofs, b)
  {
    forall i | ofs <= i < ofs + |b| { header[i] := b[i - ofs]; }
  }

  /** snprintf with `%0No' into a field of N + 1 bytes. */
  method StoreOctal(header: array<Byte>, ofs: nat, v: nat, n: nat)
    requires 1 <= n <= 11 && ofs + n + 1 <= header.Length && v < PrintfModel.Pow8(n) && v < TWO64
    modifies header
    ensures header[..] == Put(old(header[..]), ofs, Field(v, n))
  {
    PrintfModel.BasesGood();
    var text := Printf.FormatInteger(v, false, false, PrintfModel.BASE_O, OctalConversion(n));
    PrintedOctal(v, n);
    Store(header, ofs, Bytes(text) + [0]);
  }

  /** calculate_chksum */
  method CalculateChksum(header: array<Byte>) returns (chksum: nat)
    requires header.Length == HEADER
    ensures chksum == Checksum(header[..])
  {
    chksum := 0;
    for i := 0 to HEADER
      invariant chksum == Sum(header[..], i)
    {
      chksum := chksum + if CHKSUM <= i < CHKSUM + 8 then SPACE else header[i];
    }
  }

  /** The part of ustar_make_header that fills in name, mode, user and group. */
  method FillOwner(header: array<Byte>, name: seq<Byte>, kind: Byte)
    requires header.Length == HEADER && |name| <= 99
    modifies header
    ensures header[..] == Part1(name, kind)
  {
    assert PrintfModel.Pow8(7) == 2097152;
    Store(header, 0, Zeros(HEADER));
    assert header[..] == Zeros(HEADER);
    Store(header, 0, name + [0]);
    StoreOctal(header, 100, if kind == REGULAR then 420 else 493, 7);
    ZeroField();
    Store(header, 108, Bytes("0000000") + [0]);
    Store(header, 116, Bytes("0000000") + [0]);
  }

  lemma ZeroField()
    ensures Bytes("0000000") + [0] == Field(0, 7)
  {
    OctalOfZero(7);
    assert PrintfModel.Dup('0', 7) == "0000000";
  }

  /** The part that fills in size, time, type and identification. */
  method FillRest(header: array<Byte>, kind: Byte, size: int)
    requires header.Length == HEADER && -TWO31 <= size < TWO31
    modifies header
    ensures header[..] == Part4(Part3(Part2(old(header[..]), size), kind))
  {
    assert PrintfModel.Pow8(11) >= TWO32;
    StoreOctal(header, 124, Unsigned(size), 11);
    StoreOctal(header, 136, MTIME, 11);
    Store(header, 156, [kind]);
    Store(header, 257, USTAR);
    Store(header, 263, [ZERO, ZERO]);
    Store(header, 297, ROOT);
    Store(header, 265, ROOT);
  }

  /** ustar_make_header: it fails only for a stripped name of more than 99 characters, and then writes nothing. */
  method MakeHeader(fileName: seq<Byte>, kind: Byte, size: int, header: array<Byte>) returns (ok: bool)
    requires header.Length == HEADER && (kind == REGULAR || kind == DIRECTORY) && -TWO31 <= size < TWO31
    modifies header
    ensures ok == (|Strip(fileName)| <= 99)
    ensures header[..] == if ok then Header(Strip(fileName), kind, size) else old(header[..])
  {
    var name := StripAntisocialPrefixes(fileName);
    if |name| > 99 { return false; }
    FillOwner(header, name, kind);
    FillRest(header, kind, size);
    var chksum := CalculateChksum(header);
    SumIs(header[..], header[..], HEADER);
    assert PrintfModel.Pow8(7) == 2097152;
    StoreOctal(header, CHKSUM, chksum, 7);
    ok := true;
  }

  /** parse_octal_field */
  method ParseOctalField(s: seq<Byte>) returns (value: Option<nat>)
    ensures value == ParseOctal(s)
  {
    var n := 0;
    var ofs := 0;
    while ofs < |s|
      invariant ofs <= |s| && n >= 0 && ParseFrom(s, ofs, n) == ParseOctal(s)
    {
      var c := s[ofs];
      if IsOctal(c) {
        if n > (TWO32 - 1) / 8 { return None; }
        n := c - ZERO + n * 8;
      } else if c == SPACE || c == 0 {
        return if ofs > 0 then Some(n) else None;
      } else {
        return None;
      }
      ofs := ofs + 1;
    }
    value := None;
  }

  /** is_all_zeros */
  method IsAllZeros(block: array<Byte>) returns (r: bool)
    ensures r == AllZeros(block[..])
  {
    for i := 0 to block.Length
      invariant forall j :: 0 <= j < i ==> block[j] == 0
    {
      if block[i] != 0 { return false; }
    }
    r := true;
  }

  /** ustar_parse_header */
  method ParseHeader(header: array<Byte>) returns (r: Parsed)
    requires header.Length == HEADER
    ensures r == Parse(header[..])
  {
    var zeros := IsAllZeros(header);
    if zeros { return Eof; }
    if header[257..263] != USTAR { return Error("not a ustar archive"); }
    if header[263] != ZERO || header[264] != ZERO { return Error("invalid ustar version"); }
    var h := header[..];
    var chksum := ParseOctalField(h[CHKSUM..CHKSUM + 8]);
    if chksum.None? { return Error("corrupt chksum field"); }
    var sum := CalculateChksum(header);
    if chksum.value != sum { return Error("checksum mismatch"); }
    if header[99] != 0 || header[345] != 0 { return Error("file name too long"); }
    if header[156] != REGULAR && header[156] != DIRECTORY { return Error("unimplemented file type"); }
    var size := 0;
    if header[156] == REGULAR {
      var field := ParseOctalField(h[124..136]);
      if field.None? { return Error("corrupt file size field"); }
      if field.value >= TWO31 { return Error("file too large"); }
      size := field.value;
    }
    var name := StripAntisocialPrefixes(CStr(h[..100]));
    r := Entry(name, header[156], size);
  }
}
