/** Archive headers in ustar format (lib/ustar.c; the pax utility in SUSv3). */
module UstarModel {
  import opened Common
  import PrintfModel

  const SLASH: Byte := 47
  const DOT: Byte := 46
  const SPACE: Byte := 32
  const ZERO: Byte := 48
  const REGULAR: Byte := 48
  const DIRECTORY: Byte := 53

  // ---------------------------------------------------------------- names

  predicate Antisocial(s: seq<Byte>)
  {
    || (|s| >= 1 && s[0] == SLASH)
    || (|s| >= 2 && s[0] == DOT && s[1] == SLASH)
    || (|s| >= 3 && s[0] == DOT && s[1] == DOT && s[2] == SLASH)
  }

  /** strchr (s, '/') */
  function FirstSlash(s: seq<Byte>): (i: nat)
    requires SLASH in s
    ensures i < |s| && s[i] == SLASH && SLASH !in s[..i]
  {
    if s[0] == SLASH then 0 else 1 + FirstSlash(s[1..])
  }

  function Tail(s: seq<Byte>): (r: seq<Byte>)
    requires Antisocial(s)
    ensures |r| < |s| && r == s[|s| - |r|..]
  {
    s[FirstSlash(s) + 1..]
  }

  function DropPrefixes(s: seq<Byte>): (r: seq<Byte>)
    ensures |r| <= |s| && r == s[|s| - |r|..] && !Antisocial(r)
    decreases |s|
  {
    if Antisocial(s) then DropPrefixes(Tail(s)) else s
  }

  function Strip(s: seq<Byte>): seq<Byte>
  {
    var r := DropPrefixes(s);
    if r == [] || r == [DOT, DOT] then [DOT] else r
  }

  /** A stripped name is relative, does not start by leaving its directory, is not empty and is stripped once and for
      all. */
  lemma StripIsSafe(s: seq<Byte>)
    ensures var r := Strip(s); r != [] && r != [DOT, DOT] && !Antisocial(r) && Strip(r) == r
  {
  }

  lemma SuffixText(s: seq<Byte>, k: nat)
    requires NoNull(s) && k <= |s|
    ensures NoNull(s[k..])
  {
  }

  lemma StripText(s: seq<Byte>)
    requires NoNull(s)
    ensures NoNull(Strip(s))
  {
    SuffixText(s, |s| - |DropPrefixes(s)|);
  }

  // ---------------------------------------------------------------- octal fields

  /** The n low octal digits of a value. */
  function Octal(v: nat, n: nat): (s: seq<Byte>)
    ensures |s| == n
  {
    if n == 0 then [] else Octal(v / 8, n - 1) + [ZERO + v % 8]
  }

  predicate IsOctal(c: Byte) { ZERO <= c <= ZERO + 7 }

  /** parse_octal_field, from position ofs on with value read so far; None is failure. */
  function ParseFrom(s: seq<Byte>, ofs: nat, value: nat): Option<nat>
    requires ofs <= |s|
    decreases |s| - ofs
  {
    if ofs == |s| then None
    else if IsOctal(s[ofs]) then
      if value > (TWO32 - 1) / 8 then None else ParseFrom(s, ofs + 1, s[ofs] - ZERO + value * 8)
    else if s[ofs] == SPACE || s[ofs] == 0 then if ofs > 0 then Some(value) else None
    else None
  }

  function ParseOctal(s: seq<Byte>): Option<nat> { ParseFrom(s, 0, 0) }

  /** Reading the digits of v leaves v, whatever follows them. */
  lemma {:induction false} ReadOctal(s: seq<Byte>, v: nat, n: nat)
    requires n <= |s| && s[..n] == Octal(v, n) && v < TWO32 && v < PrintfModel.Pow8(n)
    ensures ParseFrom(s, 0, 0) == ParseFrom(s, n, v)
  {
    if n > 0 {
      assert s[..n][..n - 1] == s[..n - 1];
      assert s[n - 1] == s[..n][n - 1] == ZERO + v % 8;
      ReadOctal(s, v / 8, n - 1);
    }
  }

  /** An octal field of any width is read back without overflow. */
  lemma OctalRoundTrip(v: nat, n: nat)
    requires n >= 1 && v < TWO32 && v < PrintfModel.Pow8(n)
    ensures ParseOctal(Octal(v, n) + [0]) == Some(v)
  {
    var s := Octal(v, n) + [0];
    assert s[..n] == Octal(v, n);
    ReadOctal(s, v, n);
  }

  // ---------------------------------------------------------------- the header

  const HEADER: nat := 512
  const CHKSUM: nat := 148        // offset of the chksum field, eight bytes long

  /** Bytes written over a block. */
  function Put(h: seq<Byte>, ofs: nat, b: seq<Byte>): (r: seq<Byte>)
    requires ofs + |b| <= |h|
    ensures |r| == |h| && forall i :: 0 <= i < |h| ==> r[i] == if ofs <= i < ofs + |b| then b[i - ofs] else h[i]
  {
    h[..ofs] + b + h[ofs + |b|..]
  }

  function Sum(h: seq<Byte>, n: nat): nat
    requires n <= |h|
  {
    if n == 0 then 0 else Sum(h, n - 1) + if CHKSUM <= n - 1 < CHKSUM + 8 then SPACE else h[n - 1]
  }

  /** calculate_chksum */
  function Checksum(h: seq<Byte>): nat
    requires |h| == HEADER
  {
    Sum(h, HEADER)
  }

  /** The checksum does not depend on the checksum field, and fits in seven octal digits. */
  lemma {:induction false} SumIs(h: seq<Byte>, g: seq<Byte>, n: nat)
    requires n <= |h| == |g| && forall i :: 0 <= i < n && !(CHKSUM <= i < CHKSUM + 8) ==> g[i] == h[i]
    ensures Sum(g, n) == Sum(h, n) <= 255 * n
  {
    if n > 0 { SumIs(h, g, n - 1); }
  }

  /** The numeric arguments of ustar_make_header are printed as unsigned 32-bit integers. */
  function Unsigned(size: int): nat
    requires -TWO31 <= size < TWO31
  {
    if size < 0 then size + TWO32 else size
  }

  const MTIME: nat := 1136102400
  const USTAR: seq<Byte> := [117, 115, 116, 97, 114, 0]
  const ROOT: seq<Byte> := [114, 111, 111, 116, 0]

  function Zeros(n: nat): (s: seq<Byte>)
    ensures |s| == n && forall i :: 0 <= i < n ==> s[i] == 0
  {
    seq(n, _ => 0)
  }

  /** A field of n octal digits and a terminator. */
  function Field(v: nat, n: nat): (s: seq<Byte>)
    ensures |s| == n + 1
  {
    Octal(v, n) + [0]
  }

  /** Name, mode, user and group; size and time; type and identification; the names of user and group. */
  function Part1(name: seq<Byte>, kind: Byte): (h: seq<Byte>)
    requires |name| <= 99
    ensures |h| == HEADER
  {
    var h := Put(Zeros(HEADER), 0, name + [0]);
    var h := Put(h, 100, Field(if kind == REGULAR then 420 else 493, 7));
    Put(Put(h, 108, Field(0, 7)), 116, Field(0, 7))
  }

  function Part2(h: seq<Byte>, size: int): (r: seq<Byte>)
    requires |h| == HEADER && -TWO31 <= size < TWO31
    ensures |r| == HEADER
  {
    Put(Put(h, 124, Field(Unsigned(size), 11)), 136, Field(MTIME, 11))
  }

  function Part3(h: seq<Byte>, kind: Byte): (r: seq<Byte>)
    requires |h| == HEADER
    ensures |r| == HEADER
  {
    Put(Put(Put(h, 156, [kind]), 257, USTAR), 263, [ZERO, ZERO])
  }

  function Part4(h: seq<Byte>): (r: seq<Byte>)
    requires |h| == HEADER
    ensures |r| == HEADER
  {
    Put(Put(h, 297, ROOT), 265, ROOT)
  }

  /** The header but for its checksum. */
  function Unsummed(name: seq<Byte>, kind: Byte, size: int): (h: seq<Byte>)
    requires |name| <= 99 && -TWO31 <= size < TWO31
    ensures |h| == HEADER
  {
    Part4(Part3(Part2(Part1(name, kind), size), kind))
  }

  function Header(name: seq<Byte>, kind: Byte, size: int): (h: seq<Byte>)
    requires |name| <= 99 && -TWO31 <= size < TWO31
    ensures |h| == HEADER
  {
    var h := Unsummed(name, kind, size);
    Put(h, CHKSUM, Field(Checksum(h), 7))
  }

  // ---------------------------------------------------------------- parsing

  datatype Parsed = Eof | Entry(name: seq<Byte>, kind: Byte, size: nat) | Error(message: string)

  predicate AllZeros(s: seq<Byte>) { forall i :: 0 <= i < |s| ==> s[i] == 0 }

  /** ustar_parse_header */
  function Parse(h: seq<Byte>): Parsed
    requires |h| == HEADER
  {
    if AllZeros(h) then Eof
    else if h[257..263] != USTAR then Error("not a ustar archive")
    else if h[263] != ZERO || h[264] != ZERO then Error("invalid ustar version")
    else if ParseOctal(h[CHKSUM..CHKSUM + 8]).None? then Error("corrupt chksum field")
    else if ParseOctal(h[CHKSUM..CHKSUM + 8]).value != Checksum(h) then Error("checksum mismatch")
    else if h[99] != 0 || h[345] != 0 then Error("file name too long")
    else if h[156] != REGULAR && h[156] != DIRECTORY then Error("unimplemented file type")
    else if h[156] == DIRECTORY then Entry(Strip(CStr(h[..100])), DIRECTORY, 0)
    else
      match ParseOctal(h[124..136])
      case None => Error("corrupt file size field")
      case Some(n) => if n >= TWO31 then Error("file too large") else Entry(Strip(CStr(h[..100])), REGULAR, n)
  }

  /** Bytes a to b of a block are not those overwritten. */
  lemma PutAside(h: seq<Byte>, ofs: nat, b: seq<Byte>, from: nat, upto: nat)
    requires ofs + |b| <= |h| && from <= upto <= |h| && (upto <= ofs || ofs + |b| <= from)
    ensures Put(h, ofs, b)[from..upto] == h[from..upto]
  {
  }

  lemma PutThere(h: seq<Byte>, ofs: nat, b: seq<Byte>)
    requires ofs + |b| <= |h|
    ensures Put(h, ofs, b)[ofs..ofs + |b|] == b
  {
  }

  lemma Part1Fields(name: seq<Byte>, kind: Byte)
    requires |name| <= 99
    ensures var h := Part1(name, kind); h[..100] == name + [0] + Zeros(99 - |name|) && h[345..346] == [0]
  {
    var h0 := Put(Zeros(HEADER), 0, name + [0]);
    assert h0[0..100] == name + [0] + Zeros(99 - |name|);
    var m, z := Field(if kind == REGULAR then 420 else 493, 7), Field(0, 7);
    var h1 := Put(h0, 100, m);
    var h2 := Put(h1, 108, z);
    assert h0[345..346] == [0];
    PutAside(h0, 100, m, 0, 100);
    PutAside(h1, 108, z, 0, 100);
    PutAside(h2, 116, z, 0, 100);
    PutAside(h0, 100, m, 345, 346);
    PutAside(h1, 108, z, 345, 346);
    PutAside(h2, 116, z, 345, 346);
  }

  lemma Part2Fields(h: seq<Byte>, size: int, from: nat, upto: nat)
    requires |h| == HEADER && -TWO31 <= size < TWO31 && from <= upto <= HEADER && (upto <= 124 || 148 <= from)
    ensures var r := Part2(h, size); r[124..136] == Field(Unsigned(size), 11) && r[from..upto] == h[from..upto]
  {
    var f, h1 := Field(Unsigned(size), 11), Put(h, 124, Field(Unsigned(size), 11));
    PutThere(h, 124, f);
    PutAside(h1, 136, Field(MTIME, 11), 124, 136);
    PutAside(h, 124, f, from, upto);
    PutAside(h1, 136, Field(MTIME, 11), from, upto);
  }

  lemma Part3Fields(h: seq<Byte>, kind: Byte, from: nat, upto: nat)
    requires |h| == HEADER && from <= upto <= HEADER && (upto <= 156 || 265 <= from)
    ensures var r := Part3(h, kind);
            r[156..157] == [kind] && r[257..263] == USTAR && r[263..265] == [ZERO, ZERO] &&
              r[from..upto] == h[from..upto]
  {
    var h1 := Put(h, 156, [kind]);
    var h2 := Put(h1, 257, USTAR);
    PutThere(h, 156, [kind]);
    PutAside(h1, 257, USTAR, 156, 157);
    PutAside(h2, 263, [ZERO, ZERO], 156, 157);
    PutThere(h1, 257, USTAR);
    PutAside(h2, 263, [ZERO, ZERO], 257, 263);
    PutThere(h2, 263, [ZERO, ZERO]);
    PutAside(h, 156, [kind], from, upto);
    PutAside(h1, 257, USTAR, from, upto);
    PutAside(h2, 263, [ZERO, ZERO], from, upto);
  }

  lemma Part4Fields(h: seq<Byte>, from: nat, upto: nat)
    requires |h| == HEADER && from <= upto <= HEADER && (upto <= 265 || 302 <= from)
    ensures Part4(h)[from..upto] == h[from..upto]
  {
    var h1 := Put(h, 297, ROOT);
    PutAside(h, 297, ROOT, from, upto);
    PutAside(h1, 265, ROOT, from, upto);
  }

  lemma Identified(name: seq<Byte>, kind: Byte, size: int)
    requires |name| <= 99 && -TWO31 <= size < TWO31
    ensures var h := Header(name, kind, size);
            h[156..157] == [kind] && h[257..263] == USTAR && h[263..265] == [ZERO, ZERO]
  {
    var h2 := Part2(Part1(name, kind), size);
    var h3 := Part3(h2, kind);
    var h4 := Part4(h3);
    Part3Fields(h2, kind, 0, 0);
    Part4Fields(h3, 156, 157);
    Part4Fields(h3, 257, 263);
    Part4Fields(h3, 263, 265);
    PutAside(h4, CHKSUM, Field(Checksum(h4), 7), 156, 157);
    PutAside(h4, CHKSUM, Field(Checksum(h4), 7), 257, 263);
    PutAside(h4, CHKSUM, Field(Checksum(h4), 7), 263, 265);
  }

  /** What Part1 put in a made header is still there. */
  lemma StillThere(name: seq<Byte>, kind: Byte, size: int, from: nat, upto: nat)
    requires |name| <= 99 && -TWO31 <= size < TWO31 && from <= upto <= HEADER && (upto <= 124 || 302 <= from)
    ensures Header(name, kind, size)[from..upto] == Part1(name, kind)[from..upto]
  {
    var h1 := Part1(name, kind);
    var h2 := Part2(h1, size);
    var h3 := Part3(h2, kind);
    var h4 := Part4(h3);
    Part2Fields(h1, size, from, upto);
    Part3Fields(h2, kind, from, upto);
    Part4Fields(h3, from, upto);
    PutAside(h4, CHKSUM, Field(Checksum(h4), 7), from, upto);
  }

  lemma HeaderSize(name: seq<Byte>, kind: Byte, size: int)
    requires |name| <= 99 && -TWO31 <= size < TWO31
    ensures Header(name, kind, size)[124..136] == Field(Unsigned(size), 11)
  {
    var h1 := Part1(name, kind);
    var h2 := Part2(h1, size);
    var h3 := Part3(h2, kind);
    var h4 := Part4(h3);
    Part2Fields(h1, size, 0, 0);
    Part3Fields(h2, kind, 124, 136);
    Part4Fields(h3, 124, 136);
    PutAside(h4, CHKSUM, Field(Checksum(h4), 7), 124, 136);
  }

  /** The fields of a made header, where the parser looks for them. */
  lemma HeaderFields(name: seq<Byte>, kind: Byte, size: int)
    requires |name| <= 99 && -TWO31 <= size < TWO31
    ensures var h := Header(name, kind, size);
            && h[..100] == name + [0] + Zeros(99 - |name|) && h[99] == 0 && h[345] == 0
            && h[156] == kind && h[257..263] == USTAR && h[263] == ZERO && h[264] == ZERO
            && h[124..136] == Field(Unsigned(size), 11)
  {
    var h := Header(name, kind, size);
    Identified(name, kind, size);
    HeaderSize(name, kind, size);
    Part1Fields(name, kind);
    StillThere(name, kind, size, 0, 100);
    StillThere(name, kind, size, 345, 346);
    assert h[156] == h[156..157][0] && h[263] == h[263..265][0] && h[264] == h[263..265][1];
    assert h[345] == h[345..346][0] && h[99] == h[..100][99];
  }

  lemma HeaderChecksum(name: seq<Byte>, kind: Byte, size: int)
    requires |name| <= 99 && -TWO31 <= size < TWO31
    ensures var h := Header(name, kind, size); ParseOctal(h[CHKSUM..CHKSUM + 8]) == Some(Checksum(h))
  {
    var h0 := Unsummed(name, kind, size);
    var h := Header(name, kind, size);
    SumIs(h0, h, HEADER);
    assert PrintfModel.Pow8(7) == 2097152;
    OctalRoundTrip(Checksum(h0), 7);
    PutThere(h0, CHKSUM, Field(Checksum(h0), 7));
  }

  /** A made header is parsed back: the stripped name, the type, and the size, which is 0 for a directory.
      Only a negative size of a regular file does not survive. */
  lemma RoundTrip(fileName: seq<Byte>, kind: Byte, size: int)
    requires NoNull(fileName) && |Strip(fileName)| <= 99 && (kind == REGULAR || kind == DIRECTORY)
    requires -TWO31 <= size < TWO31
    ensures Parse(Header(Strip(fileName), kind, size)) ==
      if kind == DIRECTORY then Entry(Strip(fileName), DIRECTORY, 0)
      else if size >= 0 then Entry(Strip(fileName), REGULAR, size)
      else Error("file too large")
  {
    var name := Strip(fileName);
    StripText(fileName);
    HeaderFields(name, kind, size);
    HeaderChecksum(name, kind, size);
    ElevenDigits();
    OctalRoundTrip(Unsigned(size), 11);
    ParseOf(Header(name, kind, size), name, kind, Unsigned(size));
  }

  lemma ElevenDigits()
    ensures PrintfModel.Pow8(11) >= TWO32
  {
  }

  /** What is made of a header whose fields are in order. */
  lemma ParseOf(h: seq<Byte>, name: seq<Byte>, kind: Byte, n: nat)
    requires |h| == HEADER && NoNull(name) && |name| <= 99 && (kind == REGULAR || kind == DIRECTORY)
    requires h[..100] == name + [0] + Zeros(99 - |name|) && h[99] == 0 && h[345] == 0
    requires h[156] == kind && h[257..263] == USTAR && h[263] == ZERO && h[264] == ZERO
    requires ParseOctal(h[124..136]) == Some(n) && ParseOctal(h[CHKSUM..CHKSUM + 8]) == Some(Checksum(h))
    ensures Parse(h) ==
      if kind == DIRECTORY then Entry(Strip(name), DIRECTORY, 0)
      else if n >= TWO31 then Error("file too large") else Entry(Strip(name), REGULAR, n)
  {
    CStrTerminated(name, Zeros(99 - |name|));
    assert h[263] != 0;
  }

  // ---------------------------------------------------------------- what snprintf writes

  function Bytes(s: seq<char>): (b: seq<Byte>)
    ensures |b| == |s| && forall i :: 0 <= i < |s| ==> b[i] == s[i] as int % 256
  {
    seq(|s|, i requires 0 <= i < |s| => s[i] as int % 256)
  }

  /** The conversion specification `%0No'. */
  function OctalConversion(n: nat): PrintfModel.Conversion
  {
    PrintfModel.Conversion(PrintfModel.Flags(false, false, false, false, true, false), n, -1, PrintfModel.Int)
  }

  lemma OctalFormats()
    ensures PrintfModel.ConversionAt("07o\0", 0, []) == OctalConversion(7)
    ensures PrintfModel.ConversionAt("011o\0", 0, []) == OctalConversion(11)
  {
    assert "07o\0"[0..1] == ['0'] && "07o\0"[1..2] == ['7'] && ['7'][..0] == [];
    assert PrintfModel.DigitsEnd("07o\0", 2) == 2;
    assert PrintfModel.Number(['7']) == 7;
    assert "011o\0"[0..1] == ['0'] && "011o\0"[1..3] == ['1', '1'] && ['1', '1'][..1] == ['1'] && ['1'][..0] == [];
    assert PrintfModel.DigitsEnd("011o\0", 3) == 3;
    assert PrintfModel.Number(['1']) == 1;
    assert PrintfModel.Number(['1', '1']) == 11;
  }

  /** The octal digits of a value, none for 0. */
  function Digits(v: nat): seq<char> { if v == 0 then [] else Digits(v / 8) + [PrintfModel.BASE_O.digits[v % 8]] }

  lemma {:induction false} DigitsReversed(v: nat, cnt: nat)
    ensures PrintfModel.Reverse(PrintfModel.Chars(v, PrintfModel.BASE_O, false, cnt)) == Digits(v)
    decreases v
  {
    if v > 0 {
      DigitsReversed(v / 8, cnt + 1);
      var d, rest := PrintfModel.BASE_O.digits[v % 8], PrintfModel.Chars(v / 8, PrintfModel.BASE_O, false, cnt + 1);
      assert PrintfModel.Chars(v, PrintfModel.BASE_O, false, cnt) == [d] + rest;
      assert ([d] + rest)[1..] == rest;
    }
  }

  /** Zeros in front make them n digits. */
  lemma {:induction false} DigitsPadded(v: nat, n: nat)
    requires v < PrintfModel.Pow8(n)
    ensures |Digits(v)| <= n && Bytes(PrintfModel.Dup('0', n - |Digits(v)|) + Digits(v)) == Octal(v, n)
  {
    if v == 0 {
      OctalOfZero(n);
    } else {
      DigitsPadded(v / 8, n - 1);
      LastDigit(PrintfModel.Dup('0', n - |Digits(v)|), Digits(v / 8), v % 8);
    }
  }

  lemma LastDigit(zeros: seq<char>, front: seq<char>, k: nat)
    requires k < 8
    ensures Bytes(zeros + (front + [PrintfModel.BASE_O.digits[k]])) == Bytes(zeros + front) + [ZERO + k]
  {
    OctalDigit(k);
    BytesSnoc(zeros + front, PrintfModel.BASE_O.digits[k]);
    assert zeros + (front + [PrintfModel.BASE_O.digits[k]]) == zeros + front + [PrintfModel.BASE_O.digits[k]];
  }

  lemma OctalDigit(k: nat)
    requires k < 8
    ensures PrintfModel.BASE_O.digits[k] as int == ZERO + k
  {
  }

  lemma BytesSnoc(s: seq<char>, d: char)
    ensures Bytes(s + [d]) == Bytes(s) + [d as int % 256]
  {
  }

  lemma {:induction false} OctalOfZero(n: nat)
    ensures Octal(0, n) == Bytes(PrintfModel.Dup('0', n))
  {
    if n > 0 { OctalOfZero(n - 1); }
  }

  /** `%0No' prints exactly the N-digit octal field. */
  lemma PrintedOctal(v: nat, n: nat)
    requires 1 <= n && v < PrintfModel.Pow8(n)
    ensures Bytes(PrintfModel.Output(v, false, false, PrintfModel.BASE_O, OctalConversion(n))) == Octal(v, n)
  {
    PrintfModel.BasesGood();
    var c, chars := OctalConversion(n), PrintfModel.Chars(v, PrintfModel.BASE_O, false, 0);
    DigitsReversed(v, 0);
    DigitsPadded(v, n);
    var out := PrintfModel.Output(v, false, false, PrintfModel.BASE_O, c);
    if v == 0 {
      assert PrintfModel.Buffered(0, PrintfModel.BASE_O, c) == ['0'];
      assert out == PrintfModel.Dup('0', n);
    } else {
      assert PrintfModel.WithPrecision(chars, -1) == chars;
      assert out == PrintfModel.Dup('0', n - |Digits(v)|) + Digits(v);
    }
  }
}
