/** Formatting integers and reading them back (lib/stdio.c, lib/stdlib.c). */
module PrintfModel {
  import opened Common

  // ---------------------------------------------------------------- conversions

  datatype Flags = Flags(minus: bool, plus: bool, space: bool, pound: bool, zero: bool, group: bool)

  datatype ArgType = Char | Short | Int | IntMax | Long | LongLong | PtrDiff | Size

  datatype Conversion = Conversion(flags: Flags, width: int, precision: int, argType: ArgType)

  datatype Base = Base(base: nat, digits: seq<char>, x: Option<char>, group: nat)

  const BASE_D: Base := Base(10, "0123456789", None, 3)
  const BASE_O: Base := Base(8, "01234567", None, 3)
  const BASE_X: Base := Base(16, "0123456789abcdef", Some('x'), 4)
  const BASE_XX: Base := Base(16, "0123456789ABCDEF", Some('X'), 4)

  ghost predicate GoodBase(b: Base) { 8 <= b.base <= 16 && |b.digits| == b.base && b.group >= 1 }

  lemma BasesGood()
    ensures GoodBase(BASE_D) && GoodBase(BASE_O) && GoodBase(BASE_X) && GoodBase(BASE_XX)
  {
  }

  // ---------------------------------------------------------------- what format_integer writes

  const BUF: nat := 64

  /** The digits of a value, least significant first, grouped by commas if asked for; cnt digits come before them. */
  function Chars(value: nat, b: Base, group: bool, cnt: nat): seq<char>
    requires GoodBase(b)
    decreases value
  {
    if value == 0 then []
    else Comma(b, group, cnt) + [b.digits[value % b.base]] + Chars(value / b.base, b, group, cnt + 1)
  }

  function Comma(b: Base, group: bool, cnt: nat): seq<char>
    requires b.group >= 1
  {
    if group && cnt > 0 && cnt % b.group == 0 then [','] else []
  }

  function Dup(ch: char, cnt: nat): (s: seq<char>)
    ensures |s| == cnt && forall i :: 0 <= i < cnt ==> s[i] == ch
  {
    seq(cnt, _ => ch)
  }

  /** Zeros up to the precision, as far as the buffer goes. */
  function WithPrecision(s: seq<char>, precision: int): seq<char>
  {
    s + Dup('0', Max(Min(if precision < 0 then 1 else precision, BUF - 1) - |s|, 0))
  }

  function WithOctalZero(s: seq<char>, b: Base, c: Conversion): seq<char>
  {
    if c.flags.pound && b.base == 8 && (s == [] || s[|s| - 1] != '0') then s + ['0'] else s
  }

  /** The contents of the buffer, least significant character first. */
  function Buffered(value: nat, b: Base, c: Conversion): seq<char>
    requires GoodBase(b)
  {
    WithOctalZero(WithPrecision(Chars(value, b, c.flags.group, 0), c.precision), b, c)
  }

  function Sign(isSigned: bool, negative: bool, f: Flags): seq<char>
  {
    if !isSigned then []
    else if f.plus then [if negative then '-' else '+']
    else if f.space then [if negative then '-' else ' ']
    else if negative then ['-']
    else []
  }

  function Prefix(value: nat, b: Base, f: Flags): seq<char>
  {
    if f.pound && value > 0 && b.x.Some? then ['0', b.x.value] else []
  }

  function Reverse(s: seq<char>): (r: seq<char>)
    ensures |r| == |s|
  {
    if s == [] then [] else Reverse(s[1..]) + [s[0]]
  }

  /** Sign, prefix and digits without padding. */
  function Body(value: nat, isSigned: bool, negative: bool, b: Base, c: Conversion): nat
    requires GoodBase(b)
  {
    |Buffered(value, b, c)| + |Prefix(value, b, c.flags)| + |Sign(isSigned, negative, c.flags)|
  }

  function Pad(value: nat, isSigned: bool, negative: bool, b: Base, c: Conversion): nat
    requires GoodBase(b)
  {
    Max(c.width - Body(value, isSigned, negative, b, c), 0)
  }

  /** Sign, prefix and digits with pad characters of padding. */
  function Field(pad: nat, sign: seq<char>, prefix: seq<char>, digits: seq<char>, f: Flags): seq<char>
  {
    (if !f.minus && !f.zero then Dup(' ', pad) else []) + sign + prefix +
    (if f.zero then Dup('0', pad) else []) + digits +
    (if f.minus then Dup(' ', pad) else [])
  }

  function Output(value: nat, isSigned: bool, negative: bool, b: Base, c: Conversion): seq<char>
    requires GoodBase(b)
  {
    Field(Pad(value, isSigned, negative, b, c), Sign(isSigned, negative, c.flags), Prefix(value, b, c.flags),
          Reverse(Buffered(value, b, c)), c.flags)
  }

  // ---------------------------------------------------------------- value

  /** The position of a digit among a base's digits. */
  function DigitIn(digits: seq<char>, ch: char): nat
  {
    if digits == [] || digits[0] == ch then 0 else 1 + DigitIn(digits[1..], ch)
  }

  lemma {:induction false} DigitFound(digits: seq<char>, k: nat)
    requires k < |digits| && forall i, j :: 0 <= i < j < |digits| ==> digits[i] != digits[j]
    ensures DigitIn(digits, digits[k]) == k
  {
    if k > 0 { DigitFound(digits[1..], k - 1); }
  }

  /** The number that digits, least significant first, denote in a base; commas only separate. */
  function Decode(s: seq<char>, b: Base): nat
  {
    if s == [] then 0
    else if s[0] == ',' then Decode(s[1..], b)
    else DigitIn(b.digits, s[0]) + b.base * Decode(s[1..], b)
  }

  ghost predicate DistinctDigits(b: Base)
  {
    ',' !in b.digits && forall i, j :: 0 <= i < j < |b.digits| ==> b.digits[i] != b.digits[j]
  }

  /** Digit k is character k of the digits, or of the letters from 10 on. */
  ghost predicate DigitCodes(digits: seq<char>, a: int)
  {
    forall k :: 0 <= k < |digits| ==> digits[k] as int == if k < 10 then 48 + k else a - 10 + k
  }

  lemma CodesDistinct(digits: seq<char>, a: int)
    requires DigitCodes(digits, a) && a > 57
    ensures ',' !in digits && forall i, j :: 0 <= i < j < |digits| ==> digits[i] != digits[j]
  {
  }

  lemma BasesDistinct()
    ensures DistinctDigits(BASE_D) && DistinctDigits(BASE_O) && DistinctDigits(BASE_X) && DistinctDigits(BASE_XX)
  {
    CodesDistinct(BASE_D.digits, 97);
    CodesDistinct(BASE_O.digits, 97);
    CodesDistinct(BASE_X.digits, 97);
    CodesDistinct(BASE_XX.digits, 65);
  }

  /** The digits denote the value, grouped or not. */
  lemma {:induction false} CharsDenote(value: nat, b: Base, group: bool, cnt: nat)
    requires GoodBase(b) && DistinctDigits(b)
    ensures Decode(Chars(value, b, group, cnt), b) == value
    decreases value
  {
    if value > 0 {
      QuotientSmaller(value, b.base);
      CharsDenote(value / b.base, b, group, cnt + 1);
      DigitFound(b.digits, value % b.base);
      DivMod(value, b.base);
      DecodeStep(b.digits[value % b.base], Chars(value / b.base, b, group, cnt + 1), b, Comma(b, group, cnt));
    }
  }

  lemma DivMod(n: nat, d: nat)
    requires d > 0
    ensures n % d + d * (n / d) == n
  {
  }

  lemma DecodeStep(d: char, rest: seq<char>, b: Base, comma: seq<char>)
    requires d != ',' && (comma == [] || comma == [','])
    ensures Decode(comma + [d] + rest, b) == DigitIn(b.digits, d) + b.base * Decode(rest, b)
  {
    assert ([d] + rest)[1..] == rest;
    assert comma != [] ==> (comma + [d] + rest)[1..] == [d] + rest;
    assert comma == [] ==> comma + [d] + rest == [d] + rest;
  }

  // ---------------------------------------------------------------- length

  function Pow8(n: nat): nat { if n == 0 then 1 else 8 * Pow8(n - 1) }

  lemma {:induction false} Pow8Is(n: nat)
    ensures Pow8(n) == Pow2(3 * n)
  {
    if n > 0 {
      Pow8Is(n - 1);
      Pow2Add(3, 3 * (n - 1));
      assert Pow2(3) == 8 && 3 + 3 * (n - 1) == 3 * n;
    }
  }

  function DigitCount(value: nat, base: nat): nat
    requires base >= 8
    decreases value
  {
    if value == 0 then 0 else QuotientSmaller(value, base); 1 + DigitCount(value / base, base)
  }

  lemma QuotientSmaller(value: nat, base: nat)
    requires base >= 8 && value > 0
    ensures value / base < value
  {
    QuotientFits(value, base, value);
  }

  lemma {:induction false} DigitsFit(value: nat, base: nat, n: nat)
    requires base >= 8 && value < Pow8(n)
    ensures DigitCount(value, base) <= n
    decreases n
  {
    if value > 0 {
      QuotientFits(value, base, Pow8(n - 1));
      DigitsFit(value / base, base, n - 1);
    }
  }

  /** A digit takes at most two characters. */
  lemma {:induction false} CharsFit(value: nat, b: Base, group: bool, cnt: nat)
    requires GoodBase(b)
    ensures |Chars(value, b, group, cnt)| <= 2 * DigitCount(value, b.base)
    decreases value
  {
    if value > 0 {
      QuotientSmaller(value, b.base);
      CharsFit(value / b.base, b, group, cnt + 1);
    }
  }

  lemma QuotientFits(value: nat, base: nat, p: nat)
    requires base >= 8 && value < 8 * p
    ensures value / base < p
  {
    DivBounds(value, base);
    MulMono(8, base, value / base);
  }

  /** A 64-bit value has at most 22 digits: the 64-byte buffer is never overrun, whatever the precision. */
  lemma BufferFits(value: nat, b: Base, c: Conversion)
    requires GoodBase(b) && value < TWO64
    ensures |Chars(value, b, c.flags.group, 0)| <= 44
    ensures |WithPrecision(Chars(value, b, c.flags.group, 0), c.precision)| <= BUF - 1
    ensures |Buffered(value, b, c)| <= BUF
  {
    Pow2Words();
    Pow8Is(22);
    Pow2Add(2, 64);
    DigitsFit(value, b.base, 22);
    CharsFit(value, b, c.flags.group, 0);
  }

  /** The output is as wide as the field or the number, whichever is wider, exactly when it is not padded twice:
      on the left with zeros and on the right with spaces. */
  lemma WidthLaw(value: nat, isSigned: bool, negative: bool, b: Base, c: Conversion)
    requires GoodBase(b)
    ensures var n := Body(value, isSigned, negative, b, c);
            |Output(value, isSigned, negative, b, c)| == Max(c.width, n) <==>
              !(c.flags.zero && c.flags.minus && n < c.width)
  {
  }

  // ---------------------------------------------------------------- parsing a conversion

  predicate IsFlag(ch: char) { ch == '-' || ch == '+' || ch == ' ' || ch == '#' || ch == '0' || ch == '\'' }

  predicate IsDigit(ch: char) { '0' <= ch <= '9' }

  /** A string that ends with its only null character. */
  ghost predicate CString(f: seq<char>) { |f| > 0 && f[|f| - 1] == '\0' }

  /** The end of the flags, or of the digits, that start at position i. */
  function FlagsEnd(f: seq<char>, i: nat): (j: nat)
    requires CString(f) && i < |f|
    ensures i <= j < |f| && !IsFlag(f[j]) && forall k :: i <= k < j ==> IsFlag(f[k])
    decreases |f| - i
  {
    if IsFlag(f[i]) then FlagsEnd(f, i + 1) else i
  }

  function DigitsEnd(f: seq<char>, i: nat): (j: nat)
    requires CString(f) && i < |f|
    ensures i <= j < |f| && !IsDigit(f[j]) && forall k :: i <= k < j ==> IsDigit(f[k])
    decreases |f| - i
  {
    if IsDigit(f[i]) then DigitsEnd(f, i + 1) else i
  }

  /** The number a string of digits denotes. */
  function Number(s: seq<char>): int
  {
    if s == [] then 0 else Number(s[..|s| - 1]) * 10 + (s[|s| - 1] as int - '0' as int)
  }

  /** The argument for a `*', when the caller passed one. */
  function Arg(args: seq<int>, k: nat): int { if k < |args| then args[k] else 0 }

  /** Where the parts of a conversion specification end, and what they say. */
  datatype Spec = Spec(flagsEnd: nat, widthEnd: nat, precisionEnd: nat, end: nat, width: int, precision: int,
    argType: ArgType)

  function WidthAt(f: seq<char>, j: nat, args: seq<int>): (r: (nat, int))
    requires CString(f) && j < |f|
    ensures j <= r.0 < |f|
  {
    if f[j] == '*' then (j + 1, Arg(args, 0)) else (DigitsEnd(f, j), Number(f[j..DigitsEnd(f, j)]))
  }

  /** The precision may be negative here when it comes from an argument. */
  function PrecisionAt(f: seq<char>, k: nat, args: seq<int>, used: nat): (r: (nat, int))
    requires CString(f) && k < |f|
    ensures k <= r.0 < |f|
  {
    if f[k] != '.' then (k, -1)
    else if f[k + 1] == '*' then (k + 2, Arg(args, used))
    else (DigitsEnd(f, k + 1), Number(f[k + 1..DigitsEnd(f, k + 1)]))
  }

  function SpecAt(f: seq<char>, i: nat, args: seq<int>): (s: Spec)
    requires CString(f) && i < |f|
    ensures i <= s.flagsEnd <= s.widthEnd <= s.precisionEnd <= s.end < |f|
  {
    var j := FlagsEnd(f, i);
    var (k, w) := WidthAt(f, j, args);
    var (m, p) := PrecisionAt(f, k, args, if f[j] == '*' then 1 else 0);
    var t := TypeAt(f, m);
    Spec(j, k, m, m + t.1, w, p, t.0)
  }

  /** The precision is given by an argument. */
  predicate StarPrecision(f: seq<char>, i: nat, args: seq<int>)
    requires CString(f) && i < |f|
  {
    var k := SpecAt(f, i, args).widthEnd;
    f[k] == '.' && f[k + 1] == '*'
  }

  function TypeAt(f: seq<char>, m: nat): (t: (ArgType, nat))
    requires CString(f) && m < |f|
    ensures m + t.1 < |f|
  {
    match f[m]
    case 'h' => if f[m + 1] == 'h' then (Char, 2) else (Short, 1)
    case 'j' => (IntMax, 1)
    case 'l' => if f[m + 1] == 'l' then (LongLong, 2) else (Long, 1)
    case 't' => (PtrDiff, 1)
    case 'z' => (Size, 1)
    case _ => (Int, 0)
  }

  /** What the flags come to: `-' beats `0', `+' beats ` ', a precision beats `0', and a negative width counts as `-'
      but comes too late to beat `0'. */
  function FlagsOf(run: seq<char>, width: int, precision: int): Flags
  {
    Flags('-' in run || width < 0, '+' in run, ' ' in run && '+' !in run, '#' in run,
          '0' in run && '-' !in run && precision < 0, '\'' in run)
  }

  function ConversionAt(f: seq<char>, i: nat, args: seq<int>): Conversion
    requires CString(f) && i < |f|
  {
    var s := SpecAt(f, i, args);
    Conversion(FlagsOf(f[i..s.flagsEnd], s.width, s.precision), if s.width < 0 then -s.width else s.width,
               if s.precision < 0 then -1 else s.precision, s.argType)
  }

  /** Both kinds of padding are asked for exactly by a `0' flag without a `-' flag, a negative `*' width and no
      precision. */
  lemma PaddedTwice(f: seq<char>, i: nat, args: seq<int>)
    requires CString(f) && i < |f|
    ensures var c, s := ConversionAt(f, i, args), SpecAt(f, i, args);
            var run := f[i..s.flagsEnd];
            c.flags.zero && c.flags.minus <==>
              '0' in run && '-' !in run && f[s.flagsEnd] == '*' && Arg(args, 0) < 0 && s.precision < 0
  {
    var s := SpecAt(f, i, args);
    if f[s.flagsEnd] != '*' { NumberIsNat(f[s.flagsEnd..s.widthEnd]); }
  }

  lemma {:induction false} NumberIsNat(s: seq<char>)
    requires forall k :: 0 <= k < |s| ==> IsDigit(s[k])
    ensures Number(s) >= 0
  {
    if s != [] { NumberIsNat(s[..|s| - 1]); }
  }

  /** The specification `%0*d' with a width of -5 prints 7 in nine characters instead of five. */
  lemma PaddedTwiceExample()
    ensures var c := ConversionAt("0*d\0", 0, [-5]);
            c.width == 5 && Body(7, true, false, BASE_D, c) == 1 && |Output(7, true, false, BASE_D, c)| == 9
  {
    var f := "0*d\0";
    assert FlagsEnd(f, 1) == 1;
    assert f[0..1] == ['0'];
    var c := ConversionAt(f, 0, [-5]);
    assert Chars(7, BASE_D, false, 0) == ['7'] by { assert Chars(0, BASE_D, false, 1) == []; }
    assert WithPrecision(['7'], -1) == ['7'];
  }

  // ---------------------------------------------------------------- reading numbers back

  predicate IsSpace(ch: char)
  {
    ch == ' ' || ch == '\t' || ch == '\n' || ch == '\r' || ch as int == 11 || ch as int == 12
  }

  function SkipSpaces(s: seq<char>): seq<char>
  {
    if s != [] && IsSpace(s[0]) then SkipSpaces(s[1..]) else s
  }

  function DigitOf(ch: char): nat
    requires IsDigit(ch)
  {
    ch as int - '0' as int
  }

  /** The number formed by the digits in n followed by those that the string starts with. */
  function Leading(s: seq<char>, n: nat): nat
  {
    if s != [] && IsDigit(s[0]) then Leading(s[1..], n * 10 + DigitOf(s[0])) else n
  }

  /** atoi: the value of the string as a mathematical integer. */
  function AtoiOf(s: seq<char>): int
  {
    var t := SkipSpaces(s);
    if t != [] && t[0] == '-' then 0 - Leading(t[1..], 0) as int
    else if t != [] && t[0] == '+' then Leading(t[1..], 0)
    else Leading(t, 0)
  }

  /** The digits of a value, most significant first. */
  function Msb(value: nat, group: bool, cnt: nat): seq<char>
    decreases value
  {
    if value == 0 then [] else Msb(value / 10, group, cnt + 1) + [BASE_D.digits[value % 10]] + Comma(BASE_D, group, cnt)
  }

  lemma ReverseAppend(s: seq<char>, t: seq<char>)
    ensures Reverse(s + t) == Reverse(t) + Reverse(s)
  {
    if s == [] {
      assert s + t == t;
    } else {
      assert (s + t)[1..] == s[1..] + t;
      ReverseAppend(s[1..], t);
    }
  }

  lemma {:induction false} ReverseChars(value: nat, group: bool, cnt: nat)
    ensures Reverse(Chars(value, BASE_D, group, cnt)) == Msb(value, group, cnt)
    decreases value
  {
    if value > 0 {
      ReverseChars(value / 10, group, cnt + 1);
      var comma, d, rest := Comma(BASE_D, group, cnt), [BASE_D.digits[value % 10]],
        Chars(value / 10, BASE_D, group, cnt + 1);
      ReverseAppend(comma + d, rest);
      ReverseAppend(comma, d);
      assert Reverse(d) == d && Reverse(comma) == comma;
    }
  }

  lemma {:induction false} DupSnoc(ch: char, n: nat)
    ensures Reverse(Dup(ch, n)) == Dup(ch, n)
  {
    if n > 0 {
      assert Dup(ch, n) == [ch] + Dup(ch, n - 1) == Dup(ch, n - 1) + [ch];
      assert Dup(ch, n)[1..] == Dup(ch, n - 1);
      DupSnoc(ch, n - 1);
    }
  }

  /** A digit in front. */
  lemma LeadingDigit(d: char, t: seq<char>, n: nat)
    requires IsDigit(d)
    ensures Leading([d] + t, n) == Leading(t, n * 10 + DigitOf(d))
  {
    assert ([d] + t)[1..] == t;
  }

  lemma {:induction false} LeadingZeros(n: nat, t: seq<char>)
    ensures Leading(Dup('0', n) + t, 0) == Leading(t, 0)
  {
    if n == 0 {
      assert Dup('0', 0) + t == t;
    } else {
      assert Dup('0', n) + t == ['0'] + (Dup('0', n - 1) + t);
      LeadingDigit('0', Dup('0', n - 1) + t, 0);
      LeadingZeros(n - 1, t);
    }
  }

  /** Ungrouped digits read back as the value. */
  lemma LeadingMsb(value: nat, cnt: nat, t: seq<char>)
    requires t == [] || !IsDigit(t[0])
    ensures Leading(Msb(value, false, cnt) + t, 0) == value
  {
    LeadingMsbMore(value, cnt, t);
    if value > 0 { StopsAt(value, t); } else { assert Msb(0, false, cnt) + t == t; }
  }

  lemma {:induction false} LeadingMsbMore(value: nat, cnt: nat, t: seq<char>)
    ensures Leading(Msb(value, false, cnt) + t, 0) == Leading(t, value)
    decreases value
  {
    if value == 0 {
      assert Msb(0, false, cnt) + t == t;
    } else {
      var d := BASE_D.digits[value % 10];
      DigitValue(value % 10);
      assert Msb(value, false, cnt) + t == Msb(value / 10, false, cnt + 1) + ([d] + t);
      LeadingMsbMore(value / 10, cnt + 1, [d] + t);
      LeadingDigit(d, t, value / 10);
    }
  }

  lemma StopsAt(n: nat, t: seq<char>)
    requires t == [] || !IsDigit(t[0])
    ensures Leading(t, n) == n
  {
  }

  lemma DigitValue(k: nat)
    requires k < 10
    ensures IsDigit(BASE_D.digits[k]) && DigitOf(BASE_D.digits[k]) == k
  {
  }

  lemma {:induction false} SpacesSkipped(n: nat, t: seq<char>)
    ensures SkipSpaces(Dup(' ', n) + t) == SkipSpaces(t)
  {
    if n == 0 {
      assert Dup(' ', 0) + t == t;
    } else {
      assert (Dup(' ', n) + t)[1..] == Dup(' ', n - 1) + t;
      SpacesSkipped(n - 1, t);
    }
  }

  /** Grouped digits read back only as far as the first comma. */
  lemma {:induction false} LeadingGroup(value: nat, cnt: nat, t: seq<char>)
    ensures if ',' in Msb(value, true, cnt) then Leading(Msb(value, true, cnt) + t, 0) <= value
            else Leading(Msb(value, true, cnt) + t, 0) == Leading(t, value)
    decreases value
  {
    if value == 0 {
      assert Msb(0, true, cnt) + t == t;
    } else {
      var d, comma, m := BASE_D.digits[value % 10], Comma(BASE_D, true, cnt), Msb(value / 10, true, cnt + 1);
      DigitValue(value % 10);
      assert Msb(value, true, cnt) + t == m + ([d] + (comma + t));
      LeadingGroup(value / 10, cnt + 1, [d] + (comma + t));
      LeadingDigit(d, comma + t, value / 10);
      assert comma == [] ==> comma + t == t;
      StopsAt(value, [','] + t);
    }
  }

  /** From 1000 on there is a comma. */
  lemma GroupLoses(value: nat, t: seq<char>)
    requires value >= 1000
    ensures Leading(Msb(value, true, 0) + t, 0) < value
  {
    var a, b, c := value / 10, value / 10 / 10, value / 10 / 10 / 10;
    var x := [BASE_D.digits[b % 10]] + [BASE_D.digits[a % 10]] + [BASE_D.digits[value % 10]];
    assert Msb(b, true, 2) == Msb(c, true, 3) + [BASE_D.digits[b % 10]];
    assert Msb(a, true, 1) == Msb(b, true, 2) + [BASE_D.digits[a % 10]];
    assert Msb(value, true, 0) == Msb(a, true, 1) + [BASE_D.digits[value % 10]];
    assert Msb(value, true, 0) + t == Msb(c, true, 3) + (x + t);
    assert ',' in Msb(c, true, 3);
    LeadingGroup(c, 3, x + t);
  }

  lemma {:induction false} FewDigits(value: nat, cnt: nat)
    requires cnt <= 3 && value < (if cnt == 0 then 1000 else if cnt == 1 then 100 else if cnt == 2 then 10 else 1)
    ensures Msb(value, true, cnt) == Msb(value, false, cnt)
    decreases value
  {
    if value > 0 { FewDigits(value / 10, cnt + 1); }
  }

  lemma {:induction false} MsbStarts(value: nat, group: bool, cnt: nat)
    requires value > 0
    ensures Msb(value, group, cnt) != [] && IsDigit(Msb(value, group, cnt)[0])
    decreases value
  {
    if value / 10 > 0 { MsbStarts(value / 10, group, cnt + 1); }
    DigitValue(value % 10);
  }

  /** Digits after zeros and before spaces or nothing: what atoi finds behind the sign. */
  ghost predicate Numeral(s: seq<char>, value: nat, group: bool)
  {
    exists zeros: nat, spaces: nat :: s == Dup('0', zeros) + (Msb(value, group, 0) + Dup(' ', spaces))
  }

  lemma NumeralReads(s: seq<char>, value: nat, group: bool)
    requires Numeral(s, value, group)
    ensures Leading(s, 0) == value <==> !group || value < 1000
    ensures s == [] || s[0] == ' ' || IsDigit(s[0])
    ensures s != [] && s[0] == ' ' ==> SkipSpaces(s) == [] && value == 0
  {
    var zeros: nat, spaces: nat :| s == Dup('0', zeros) + (Msb(value, group, 0) + Dup(' ', spaces));
    var t := Dup(' ', spaces);
    LeadingZeros(zeros, Msb(value, group, 0) + t);
    if value > 0 { MsbStarts(value, group, 0); }
    SpacesSkipped(spaces, []);
    assert t + [] == t;
    assert zeros == 0 ==> s == Msb(value, group, 0) + t;
    assert zeros > 0 ==> s[0] == '0';
    if group && value >= 1000 {
      GroupLoses(value, t);
    } else {
      if group { FewDigits(value, 0); }
      LeadingMsb(value, 0, t);
    }
  }

  /** The buffer of a decimal conversion, reversed: zeros, then digits. */
  lemma ReversedBuffer(value: nat, c: Conversion) returns (zeros: nat)
    ensures Reverse(Buffered(value, BASE_D, c)) == Dup('0', zeros) + Msb(value, c.flags.group, 0)
  {
    var digits := Chars(value, BASE_D, c.flags.group, 0);
    zeros := Max(Min(if c.precision < 0 then 1 else c.precision, BUF - 1) - |digits|, 0);
    ReverseAppend(digits, Dup('0', zeros));
    DupSnoc('0', zeros);
    ReverseChars(value, c.flags.group, 0);
  }

  lemma Regroup(a: seq<char>, s: seq<char>, z: seq<char>, d: seq<char>, t: seq<char>)
    ensures a + s + [] + z + d + t == a + (s + (z + d + t))
  {
  }

  lemma RegroupZeros(z: nat, k: nat, m: seq<char>, t: seq<char>)
    ensures Dup('0', z) + (Dup('0', k) + m) + t == Dup('0', z + k) + (m + t)
  {
  }

  /** Left padding, sign and numeral. */
  lemma OutputShape(value: nat, negative: bool, c: Conversion) returns (spaces: nat, numeral: seq<char>)
    ensures Output(value, true, negative, BASE_D, c) == Dup(' ', spaces) + (Sign(true, negative, c.flags) + numeral)
    ensures Numeral(numeral, value, c.flags.group)
  {
    var pad := Pad(value, true, negative, BASE_D, c);
    var k := ReversedBuffer(value, c);
    spaces := if !c.flags.minus && !c.flags.zero then pad else 0;
    var z, t := if c.flags.zero then pad else 0, if c.flags.minus then pad else 0;
    var digits := Dup('0', k) + Msb(value, c.flags.group, 0);
    numeral := Dup('0', z) + digits + Dup(' ', t);
    RegroupZeros(z, k, Msb(value, c.flags.group, 0), Dup(' ', t));
    OutputParts(value, negative, c, spaces, z, t);
    Regroup(Dup(' ', spaces), Sign(true, negative, c.flags), Dup('0', z), digits, Dup(' ', t));
  }

  lemma OutputParts(value: nat, negative: bool, c: Conversion, spaces: nat, z: nat, t: nat)
    requires var pad := Pad(value, true, negative, BASE_D, c);
             && spaces == (if !c.flags.minus && !c.flags.zero then pad else 0)
             && z == (if c.flags.zero then pad else 0) && t == (if c.flags.minus then pad else 0)
    ensures Output(value, true, negative, BASE_D, c) ==
      Dup(' ', spaces) + Sign(true, negative, c.flags) + [] + Dup('0', z) + Reverse(Buffered(value, BASE_D, c)) +
        Dup(' ', t)
  {
    assert Dup(' ', 0) == [] && Dup('0', 0) == [];
    assert Prefix(value, BASE_D, c.flags) == [];
  }

  /** Whatever the flags, width and precision, what %d prints is read back by atoi as the same number, INT_MIN
      included, unless the digits are grouped and there are more than three of them. */
  lemma AtoiOfPrinted(v: int, c: Conversion)
    ensures var value := if v < 0 then -v else v;
            AtoiOf(Output(value, true, v < 0, BASE_D, c)) == v <==> !c.flags.group || value < 1000
  {
    var value := if v < 0 then -v else v;
    var spaces, numeral := OutputShape(value, v < 0, c);
    NumeralReads(numeral, value, c.flags.group);
    FieldRead(spaces, Sign(true, v < 0, c.flags), numeral);
  }

  lemma FieldRead(spaces: nat, sign: seq<char>, numeral: seq<char>)
    requires sign == [] || sign == [' '] || sign == ['+'] || sign == ['-']
    requires numeral == [] || numeral[0] == ' ' || IsDigit(numeral[0])
    requires numeral != [] && numeral[0] == ' ' ==> SkipSpaces(numeral) == []
    ensures AtoiOf(Dup(' ', spaces) + (sign + numeral)) ==
              if sign == ['-'] then 0 - Leading(numeral, 0) as int else Leading(numeral, 0)
  {
    SpacesSkipped(spaces, sign + numeral);
    SignRead(sign, numeral);
  }

  lemma SignRead(sign: seq<char>, numeral: seq<char>)
    requires sign == [] || sign == [' '] || sign == ['+'] || sign == ['-']
    requires numeral == [] || numeral[0] == ' ' || IsDigit(numeral[0])
    requires numeral != [] && numeral[0] == ' ' ==> SkipSpaces(numeral) == []
    ensures AtoiOf(sign + numeral) == (if sign == ['-'] then 0 - Leading(numeral, 0) as int else Leading(numeral, 0))
  {
    var s := sign + numeral;
    assert numeral != [] && IsDigit(numeral[0]) ==> SkipSpaces(numeral) == numeral;
    if sign == [] {
      assert s == numeral;
    } else {
      assert s[1..] == numeral && s[0] == sign[0];
      assert SkipSpaces(s) == if sign == [' '] then SkipSpaces(numeral) else s;
    }
  }
}
