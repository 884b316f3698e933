/** What archive headers contain, and what parsing them detects (lib/ustar.c; the pax utility in SUSv3). */
module UstarMeans {
  import opened Common
  import opened UstarModel

  // ---------------------------------------------------------------- names

  /** Pieces "/", "./" and "../", each with whatever precedes its slash, one after the other. */
  ghost predicate Prefixes(p: seq<Byte>)
    decreases |p|
  {
    p == [] || (p[0] == 47 && Prefixes(p[1..])) || (|p| >= 2 && p[0] == 46 && p[1] == 47 && Prefixes(p[2..]))
    || (|p| >= 3 && p[0] == 46 && p[1] == 46 && p[2] == 47 && Prefixes(p[3..]))
  }

  /** The length of the piece a name starts with. */
  function Piece(s: seq<Byte>): (n: nat)
    requires Antisocial(s)
    ensures 1 <= n <= 3 && n <= |s|
  {
    if s[0] == 47 then 1 else if s[1] == 47 then 2 else 3
  }

  lemma PieceBefore(s: seq<Byte>, m: nat)
    requires Antisocial(s) && m <= |s| - Piece(s) && Prefixes(s[Piece(s)..][..m])
    ensures Prefixes(s[..Piece(s) + m])
  {
    var n := Piece(s);
    var p := s[..n + m];
    assert p[n..] == s[n..][..m];
    assert p[0] == s[0] && (n >= 2 ==> p[1] == s[1]) && (n >= 3 ==> p[2] == s[2]);
  }

  lemma {:induction false} DropsPrefixes(s: seq<Byte>) returns (k: nat)
    ensures k <= |s| && Prefixes(s[..k]) && DropPrefixes(s) == s[k..]
    decreases |s|
  {
    k := 0;
    if Antisocial(s) {
      var n := Piece(s);
      TailIs(s);
      var m := DropsPrefixes(s[n..]);
      PieceBefore(s, m);
      k := n + m;
      assert s[n..][m..] == s[k..];
    }
  }

  lemma TailIs(s: seq<Byte>)
    requires Antisocial(s)
    ensures UstarModel.Tail(s) == s[Piece(s)..]
  {
    var i, n := FirstSlash(s), Piece(s);
    assert s[n - 1] == 47 && forall j :: 0 <= j < n - 1 ==> s[j] != 47;
    assert forall j :: 0 <= j < i ==> s[j] == s[..i][j];
  }

  /** A name loses such pieces at its front and nothing else; what would be left empty or as ".." becomes ".". */
  lemma StripMeans(s: seq<Byte>)
    ensures exists k: nat :: k <= |s| && Prefixes(s[..k]) &&
              Strip(s) == if s[k..] == [] || s[k..] == [46, 46] then [46] else s[k..]
    ensures !Antisocial(s) && s != [] && s != [46, 46] ==> Strip(s) == s
  {
    var k := DropsPrefixes(s);
  }

  // ---------------------------------------------------------------- octal fields

  function OctalValue(s: seq<Byte>): int
  {
    if s == [] then 0 else 8 * OctalValue(s[..|s| - 1]) + (s[|s| - 1] as int - 48)
  }

  /** n octal digits for v, and a space or a null character after them. */
  ghost predicate OctalField(s: seq<Byte>, n: nat, v: nat)
  {
    && 1 <= n < |s| && (forall i :: 0 <= i < n ==> 48 <= s[i] <= 55) && (s[n] == 32 || s[n] == 0)
    && OctalValue(s[..n]) == v < TWO32
  }

  ghost predicate DigitsTo(s: seq<Byte>, ofs: nat, value: nat)
  {
    ofs <= |s| && (forall i :: 0 <= i < ofs ==> 48 <= s[i] <= 55) && OctalValue(s[..ofs]) == value
  }

  lemma OneMoreDigit(s: seq<Byte>, ofs: nat, value: nat)
    requires ofs < |s| && DigitsTo(s, ofs, value) && 48 <= s[ofs] <= 55
    ensures DigitsTo(s, ofs + 1, s[ofs] - 48 + value * 8)
  {
    assert s[..ofs + 1][..ofs] == s[..ofs];
  }

  lemma {:induction false} ValueGrows(s: seq<Byte>, m: nat, n: nat)
    requires m <= n <= |s| && forall i :: 0 <= i < n ==> 48 <= s[i] <= 55
    ensures 0 <= OctalValue(s[..m]) <= OctalValue(s[..n])
  {
    if n > 0 {
      assert s[..n][..n - 1] == s[..n - 1];
      ValueGrows(s, if m < n then m else n - 1, n - 1);
    }
  }

  lemma TooBig(s: seq<Byte>, ofs: nat, value: nat, n: nat, v: nat)
    requires ofs < |s| && DigitsTo(s, ofs, value) && 48 <= s[ofs] <= 55 && value > (TWO32 - 1) / 8
    ensures !(ofs <= n && OctalField(s, n, v))
  {
    OneMoreDigit(s, ofs, value);
    if ofs < n < |s| && forall i :: 0 <= i < n ==> 48 <= s[i] <= 55 { ValueGrows(s, ofs + 1, n); }
  }

  /** From the digits read so far on. */
  lemma {:induction false} ParseFromMeans(s: seq<Byte>, ofs: nat, value: nat, v: nat)
    requires DigitsTo(s, ofs, value) && value < TWO32
    ensures ParseFrom(s, ofs, value) == Some(v) <==> exists n: nat :: ofs <= n && OctalField(s, n, v)
    decreases |s| - ofs
  {
    if ofs < |s| {
      if 48 <= s[ofs] <= 55 {
        OneMoreDigit(s, ofs, value);
        if value <= (TWO32 - 1) / 8 {
          ParseFromMeans(s, ofs + 1, s[ofs] - 48 + value * 8, v);
          assert forall n: nat :: OctalField(s, n, v) && ofs <= n ==> ofs + 1 <= n;
        } else {
          forall n: nat ensures !(ofs <= n && OctalField(s, n, v)) { TooBig(s, ofs, value, n, v); }
          assert ParseFrom(s, ofs, value) == None;
        }
      } else {
        assert OctalField(s, ofs, v) <==> ofs > 0 && (s[ofs] == 32 || s[ofs] == 0) && v == value;
        assert forall n: nat :: ofs < n ==> !OctalField(s, n, v);
      }
    }
  }

  /** parse_octal_field succeeds on digits followed by a space or null character whose value fits 32 bits, and on
      nothing else. */
  lemma ParseMeans(s: seq<Byte>, v: nat)
    ensures ParseOctal(s) == Some(v) <==> exists n: nat :: OctalField(s, n, v)
  {
    assert s[..0] == [];
    ParseFromMeans(s, 0, 0, v);
  }

  // ---------------------------------------------------------------- the checksum

  /** The sum of the bytes from a to b. */
  function AddUp(s: seq<Byte>, a: nat, b: nat): nat
    requires a <= b <= |s|
    decreases b
  {
    if a == b then 0 else AddUp(s, a, b - 1) + s[b - 1]
  }

  lemma {:induction false} SumBefore(h: seq<Byte>, n: nat)
    requires n <= |h| && n <= 148
    ensures Sum(h, n) == AddUp(h, 0, n)
  {
    if n > 0 { SumBefore(h, n - 1); }
  }

  lemma {:induction false} SumWithin(h: seq<Byte>, n: nat)
    requires 148 <= n <= 156 <= |h|
    ensures Sum(h, n) == AddUp(h, 0, 148) + 32 * (n - 148)
  {
    if n == 148 { SumBefore(h, n); } else { SumWithin(h, n - 1); }
  }

  lemma {:induction false} SumAfter(h: seq<Byte>, n: nat)
    requires 156 <= n <= |h|
    ensures Sum(h, n) == AddUp(h, 0, 148) + 8 * 32 + AddUp(h, 156, n)
  {
    if n == 156 { SumWithin(h, n); } else { SumAfter(h, n - 1); }
  }

  /** The checksum adds up the bytes of the block, those of its own field, 148 to 155, taken as spaces. */
  lemma ChecksumMeans(h: seq<Byte>)
    requires |h| == 512
    ensures Checksum(h) == AddUp(h, 0, 148) + 8 * 32 + AddUp(h, 156, 512)
  {
    SumAfter(h, 512);
  }

  lemma {:induction false} OneByte(h: seq<Byte>, g: seq<Byte>, k: nat, n: nat)
    requires n <= |h| == |g| && k < |h| && (forall i :: 0 <= i < |h| && i != k ==> g[i] == h[i]) && !(148 <= k < 156)
    ensures Sum(g, n) - Sum(h, n) == if k < n then g[k] as int - h[k] as int else 0
  {
    if n > 0 { OneByte(h, g, k, n - 1); }
  }

  /** A block parses as an entry only if its checksum field holds its checksum. */
  lemma EntryHasChecksum(h: seq<Byte>)
    requires |h| == 512 && Parse(h).Entry?
    ensures Checksum(h) == AddUp(h, 0, 148) + 8 * 32 + AddUp(h, 156, 512)
    ensures var field, sum := h[148..156], Checksum(h); exists n: nat :: OctalField(field, n, sum)
  {
    ChecksumMeans(h);
    FieldHolds(h);
    ParseMeans(h[148..156], Checksum(h));
  }

  lemma FieldHolds(h: seq<Byte>)
    requires |h| == 512 && Parse(h).Entry?
    ensures ParseOctal(h[148..156]) == Some(Checksum(h))
  {
  }

  /** Any single byte changed outside the checksum field of an entry is detected. */
  lemma ChangeIsFound(h: seq<Byte>, k: nat, x: Byte)
    requires |h| == 512 && Parse(h).Entry? && k < 512 && !(148 <= k < 156) && x != h[k]
    ensures Parse(h[k := x]).Error?
  {
    var g := h[k := x];
    OneByte(h, g, k, 512);
    assert g[148..156] == h[148..156];
    FieldNotZero(h);
  }

  lemma FieldNotZero(h: seq<Byte>)
    requires |h| == 512 && ParseOctal(h[148..156]).Some?
    ensures h[148] != 0
  {
    assert h[148..156][0] == h[148];
  }

  // ---------------------------------------------------------------- made headers

  lemma OctalStep(v: nat, n: nat)
    requires n > 0
    ensures Octal(v, n) == Octal(v / 8, n - 1) + [48 + v % 8]
  {
  }

  /** 0644, 0755 and 0 in seven digits. */
  lemma ModeDigits()
    ensures Octal(420, 7) == [48, 48, 48, 48, 54, 52, 52] && Octal(493, 7) == [48, 48, 48, 48, 55, 53, 53]
    ensures Octal(0, 7) == [48, 48, 48, 48, 48, 48, 48]
  {
    FourZeros();
    OctalStep(6, 5);
    OctalStep(52, 6);
    OctalStep(420, 7);
    OctalStep(7, 5);
    OctalStep(61, 6);
    OctalStep(493, 7);
    OctalStep(0, 5);
    OctalStep(0, 6);
    OctalStep(0, 7);
  }

  lemma FourZeros()
    ensures Octal(0, 4) == [48, 48, 48, 48]
  {
    OctalStep(0, 1);
    OctalStep(0, 2);
    OctalStep(0, 3);
    OctalStep(0, 4);
  }

  lemma Part1Rest(name: seq<Byte>, kind: Byte)
    requires |name| <= 99
    ensures var h := Part1(name, kind);
            && h[100..108] == Field(if kind == REGULAR then 420 else 493, 7)
            && h[108..116] == Field(0, 7) && h[116..124] == Field(0, 7)
  {
    var h0 := Put(Zeros(HEADER), 0, name + [0]);
    var m, z := Field(if kind == REGULAR then 420 else 493, 7), Field(0, 7);
    var h1 := Put(h0, 100, m);
    var h2 := Put(h1, 108, z);
    PutThere(h0, 100, m);
    PutAside(h1, 108, z, 100, 108);
    PutAside(h2, 116, z, 100, 108);
    PutThere(h1, 108, z);
    PutAside(h2, 116, z, 108, 116);
    PutThere(h2, 116, z);
  }

  /** The modification time, 10355706000 in octal. */
  lemma TimeDigits()
    ensures Octal(MTIME, 11) == [49, 48, 51, 53, 53, 55, 48, 54, 48, 48, 48]
  {
    OctalStep(1, 1);
    OctalStep(8, 2);
    OctalStep(67, 3);
    OctalStep(541, 4);
    OctalStep(4333, 5);
    OctalStep(34671, 6);
    OctalStep(277368, 7);
    OctalStep(2218950, 8);
    OctalStep(17751600, 9);
    OctalStep(142012800, 10);
    OctalStep(MTIME, 11);
  }

  lemma TimeAndNames(name: seq<Byte>, kind: Byte, size: int)
    requires |name| <= 99 && -TWO31 <= size < TWO31
    ensures var h := Header(name, kind, size);
            h[136..148] == Field(MTIME, 11) && h[265..270] == ROOT && h[297..302] == ROOT
  {
    var h1 := Part1(name, kind);
    var h2 := Part2(h1, size);
    var h3 := Part3(h2, kind);
    var h4 := Part4(h3);
    PutThere(Put(h1, 124, Field(Unsigned(size), 11)), 136, Field(MTIME, 11));
    Part3Fields(h2, kind, 136, 148);
    Part4Fields(h3, 136, 148);
    PutAside(h4, CHKSUM, Field(Checksum(h4), 7), 136, 148);
    PutThere(Put(h3, 297, ROOT), 265, ROOT);
    PutThere(h3, 297, ROOT);
    PutAside(Put(h3, 297, ROOT), 265, ROOT, 297, 302);
    PutAside(h4, CHKSUM, Field(Checksum(h4), 7), 265, 270);
    PutAside(h4, CHKSUM, Field(Checksum(h4), 7), 297, 302);
  }

  /** Everything that is no field in use is zero. */
  lemma RestIsZero(name: seq<Byte>, kind: Byte, size: int, i: nat)
    requires |name| <= 99 && -TWO31 <= size < TWO31 && (157 <= i < 257 || 270 <= i < 297 || 302 <= i < 512)
    ensures Header(name, kind, size)[i] == 0
  {
    var h1 := Part1(name, kind);
    assert h1[i] == 0;
    var h2 := Part2(h1, size);
    assert h2[i] == h1[i];
    var h3 := Part3(h2, kind);
    assert h3[i] == h2[i];
    var h4 := Part4(h3);
    assert h4[i] == h3[i];
  }

  /** Permissions rw-r--r-- for a file and rwxr-xr-x for a directory, user and group 0, root and root, a fixed time. */
  lemma HeaderMeans(name: seq<Byte>, kind: Byte, size: int)
    requires |name| <= 99 && -TWO31 <= size < TWO31
    ensures var h := Header(name, kind, size);
            && h[100..108] == (if kind == 48 then [48, 48, 48, 48, 54, 52, 52, 0] else [48, 48, 48, 48, 55, 53, 53, 0])
            && h[108..116] == [48, 48, 48, 48, 48, 48, 48, 0] && h[116..124] == [48, 48, 48, 48, 48, 48, 48, 0]
            && h[136..148] == [49, 48, 51, 53, 53, 55, 48, 54, 48, 48, 48, 0]
            && h[265..270] == [114, 111, 111, 116, 0] && h[297..302] == [114, 111, 111, 116, 0]
  {
    TimeDigits();
    TimeAndNames(name, kind, size);
    ModeDigits();
    Part1Rest(name, kind);
    StillThere(name, kind, size, 100, 108);
    StillThere(name, kind, size, 108, 116);
    StillThere(name, kind, size, 116, 124);
  }
}
