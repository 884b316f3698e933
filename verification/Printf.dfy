/** format_integer, parse_conversion, vsnprintf and atoi as they run, proved against PrintfModel. */
module Printf {
  import opened Common
  import opened PrintfModel

  // ---------------------------------------------------------------- integers

  /** output_dup, to an output collected in a sequence. */
  method OutputDup(ch: char, cnt: nat, out: seq<char>) returns (more: seq<char>)
    ensures more == out + Dup(ch, cnt)
  {
    more := out;
    var left := cnt;
    while left > 0
      invariant 0 <= left <= cnt && more == out + Dup(ch, cnt - left)
    {
      left := left - 1;
      more := more + [ch];
    }
  }

  lemma CharsAre(value: nat, b: Base, group: bool, cnt: nat)
    requires GoodBase(b) && value > 0
    ensures Chars(value, b, group, cnt) ==
            Comma(b, group, cnt) + [b.digits[value % b.base]] + Chars(value / b.base, b, group, cnt + 1)
    ensures |Chars(value, b, group, cnt)| == |Comma(b, group, cnt)| + 1 + |Chars(value / b.base, b, group, cnt + 1)|
  {
  }

  lemma MoveOver(a: seq<char>, x: seq<char>, rest: seq<char>)
    ensures a + (x + rest) == (a + x) + rest
  {
  }

  /** One digit, after a comma if one is due; rest is what the digits to come are made of. */
  method StoreDigit(left: nat, b: Base, group: bool, digitCnt: nat, buf: array<char>, start: nat)
    returns (cp: nat, rest: nat)
    requires GoodBase(b) && left > 0 && start + |Chars(left, b, group, digitCnt)| <= buf.Length
    modifies buf
    ensures rest < left && cp + |Chars(rest, b, group, digitCnt + 1)| == start + |Chars(left, b, group, digitCnt)|
    ensures cp <= buf.Length
    ensures buf[..cp] + Chars(rest, b, group, digitCnt + 1) == old(buf[..start]) + Chars(left, b, group, digitCnt)
  {
    CharsAre(left, b, group, digitCnt);
    cp := start;
    if group && digitCnt > 0 && digitCnt % b.group == 0 {
      buf[cp] := ',';
      cp := cp + 1;
    }
    buf[cp] := b.digits[left % b.base];
    cp := cp + 1;
    QuotientSmaller(left, b.base);
    rest := left / b.base;
    assert buf[..start] == old(buf[..start]);
    ghost var stored := Comma(b, group, digitCnt) + [b.digits[left % b.base]];
    assert buf[start..cp] == stored;
    MoveOver(old(buf[..start]), stored, Chars(rest, b, group, digitCnt + 1));
    assert buf[..cp] == buf[..start] + buf[start..cp];
  }

  /** The digits go into the buffer in reverse. */
  method StoreDigits(value: nat, b: Base, group: bool, buf: array<char>) returns (cp: nat)
    requires GoodBase(b) && |Chars(value, b, group, 0)| <= buf.Length
    modifies buf
    ensures cp <= buf.Length && buf[..cp] == Chars(value, b, group, 0)
  {
    cp := 0;
    var left, digitCnt := value, 0;
    while left > 0
      invariant 0 <= left && 0 <= digitCnt && 0 <= cp && cp + |Chars(left, b, group, digitCnt)| <= buf.Length
      invariant buf[..cp] + Chars(left, b, group, digitCnt) == Chars(value, b, group, 0)
      decreases left
    {
      cp, left := StoreDigit(left, b, group, digitCnt, buf, cp);
      digitCnt := digitCnt + 1;
    }
  }

  /** Zeros up to the precision, and the zero that # asks for in octal. */
  method StoreZeros(b: Base, c: Conversion, buf: array<char>, start: nat) returns (cp: nat)
    requires start < BUF == buf.Length
    modifies buf
    ensures cp <= BUF && buf[..cp] == WithOctalZero(WithPrecision(old(buf[..start]), c.precision), b, c)
  {
    var precision := if c.precision < 0 then 1 else c.precision;
    cp := start;
    while cp < precision && cp < BUF - 1
      invariant start <= cp < BUF && buf[..cp] == old(buf[..start]) + Dup('0', cp - start)
      invariant cp > start ==> cp <= precision
    {
      buf[cp] := '0';
      cp := cp + 1;
    }
    assert buf[..cp] == WithPrecision(old(buf[..start]), c.precision);
    if c.flags.pound && b.base == 8 && (cp == 0 || buf[cp - 1] != '0') {
      buf[cp] := '0';
      cp := cp + 1;
    }
  }

  /** format_integer: every index into the 64-byte buffer is in range. */
  method FormatInteger(value: nat, isSigned: bool, negative: bool, b: Base, c: Conversion) returns (out: seq<char>)
    requires GoodBase(b) && value < TWO64
    ensures out == Output(value, isSigned, negative, b, c)
  {
    var sign := Sign(isSigned, negative, c.flags);
    var x := if c.flags.pound && value > 0 then b.x else None;
    BufferFits(value, b, c);
    var buf := new char[BUF];
    var cp := StoreDigits(value, b, c.flags.group, buf);
    cp := StoreZeros(b, c, buf, cp);
    ghost var buffered := buf[..cp];
    var padCnt := c.width - cp - (if x.Some? then 2 else 0) - |sign|;
    if padCnt < 0 { padCnt := 0; }
    out := OutputField(padCnt, sign, if x.Some? then ['0', x.value] else [], buf, cp, c.flags);
  }

  method OutputField(padCnt: nat, sign: seq<char>, prefix: seq<char>, buf: array<char>, cp: nat, f: Flags)
    returns (out: seq<char>)
    requires cp <= buf.Length
    ensures out == Field(padCnt, sign, prefix, Reverse(buf[..cp]), f)
  {
    out := [];
    if !f.minus && !f.zero { out := OutputDup(' ', padCnt, out); }
    out := out + sign;
    out := out + prefix;
    if f.zero { out := OutputDup('0', padCnt, out); }
    out := OutputReversed(buf, cp, out);
    if f.minus { out := OutputDup(' ', padCnt, out); }
  }

  method OutputReversed(buf: array<char>, cnt: nat, out: seq<char>) returns (more: seq<char>)
    requires cnt <= buf.Length
    ensures more == out + Reverse(buf[..cnt])
  {
    more := out;
    var cp := cnt;
    while cp > 0
      invariant 0 <= cp <= cnt && more == out + Reverse(buf[cp..cnt])
    {
      cp := cp - 1;
      more := more + [buf[cp]];
    }
  }

  // ---------------------------------------------------------------- parsing a conversion

  /** The flag loop of parse_conversion. */
  method ParseFlags(format: seq<char>, i: nat) returns (j: nat, f: Flags)
    requires CString(format) && i < |format|
    ensures j == FlagsEnd(format, i)
    ensures var run := format[i..j];
            f == Flags('-' in run, '+' in run, ' ' in run, '#' in run, '0' in run, '\'' in run)
  {
    j, f := i, Flags(false, false, false, false, false, false);
    while IsFlag(format[j])
      invariant i <= j < |format| && FlagsEnd(format, j) == FlagsEnd(format, i)
      invariant var run := format[i..j];
                f == Flags('-' in run, '+' in run, ' ' in run, '#' in run, '0' in run, '\'' in run)
      decreases |format| - j
    {
      assert format[i..j + 1] == format[i..j] + [format[j]];
      match format[j] {
        case '-' => f := f.(minus := true);
        case '+' => f := f.(plus := true);
        case ' ' => f := f.(space := true);
        case '#' => f := f.(pound := true);
        case '0' => f := f.(zero := true);
        case _ => f := f.(group := true);
      }
      j := j + 1;
    }
  }

  lemma NumberSnoc(s: seq<char>, d: char)
    ensures Number(s + [d]) == Number(s) * 10 + (d as int - '0' as int)
  {
    assert (s + [d])[..|s|] == s;
  }

  /** A run of digits and the number it denotes. */
  method ParseNumber(format: seq<char>, i: nat) returns (j: nat, n: int)
    requires CString(format) && i < |format|
    ensures j == DigitsEnd(format, i) && n == Number(format[i..j])
  {
    j, n := i, 0;
    while IsDigit(format[j])
      invariant i <= j < |format| && DigitsEnd(format, j) == DigitsEnd(format, i) && n == Number(format[i..j])
      decreases |format| - j
    {
      NumberSnoc(format[i..j], format[j]);
      assert format[i..j + 1] == format[i..j] + [format[j]];
      n := n * 10 + (format[j] as int - '0' as int);
      j := j + 1;
    }
  }

  /** The field width: a number, or the next argument. */
  method ParseWidth(format: seq<char>, j: nat, args: seq<int>) returns (k: nat, width: int, used: nat)
    requires CString(format) && j < |format|
    ensures (k, width) == WidthAt(format, j, args) && used == if format[j] == '*' then 1 else 0
  {
    if format[j] == '*' {
      k, width, used := j + 1, Arg(args, 0), 1;
    } else {
      k, width := ParseNumber(format, j);
      used := 0;
    }
  }

  /** The precision, -1 when there is none. */
  method ParsePrecision(format: seq<char>, k: nat, args: seq<int>, used: nat)
    returns (m: nat, precision: int, usedNow: nat)
    requires CString(format) && k < |format|
    ensures m == PrecisionAt(format, k, args, used).0
    ensures var p := PrecisionAt(format, k, args, used).1; precision == if p < 0 then -1 else p
    ensures usedNow == used + if format[k] == '.' && format[k + 1] == '*' then 1 else 0
  {
    m, precision, usedNow := k, -1, used;
    if format[k] == '.' {
      if format[k + 1] == '*' {
        m, precision, usedNow := k + 2, Arg(args, used), used + 1;
      } else {
        m, precision := ParseNumber(format, k + 1);
      }
      if precision < 0 { precision := -1; }
    }
  }

  /** parse_conversion: the position of the conversion character and how many arguments were used. */
  method ParseConversion(format: seq<char>, i: nat, args: seq<int>) returns (end: nat, c: Conversion, used: nat)
    requires CString(format) && i < |format|
    ensures end == SpecAt(format, i, args).end && c == ConversionAt(format, i, args)
    ensures used == (if format[SpecAt(format, i, args).flagsEnd] == '*' then 1 else 0) +
            (if StarPrecision(format, i, args) then 1 else 0)
  {
    var j, f := ParseFlags(format, i);
    if f.minus { f := f.(zero := false); }
    if f.plus { f := f.(space := false); }
    var k, width, m, precision;
    k, width, used := ParseWidth(format, j, args);
    if width < 0 {
      width, f := -width, f.(minus := true);
    }
    m, precision, used := ParsePrecision(format, k, args, used);
    if precision >= 0 { f := f.(zero := false); }
    var t := TypeAt(format, m);
    end, c := m + t.1, Conversion(f, width, precision, t.0);
  }

  // ---------------------------------------------------------------- vsnprintf

  /** The auxiliary data of vsnprintf_helper. */
  class Sink {
    const buffer: array<char>
    const maxLength: nat
    var p: nat
    var length: nat
    ghost var written: seq<char>
    ghost const before: seq<char>

    /** The buffer holds as much of what was written as fits before the terminator, and is otherwise untouched. */
    ghost predicate Valid()
      reads this, buffer
    {
      && maxLength == Max(buffer.Length - 1, 0) && |before| == buffer.Length
      && length == |written| && p == Min(length, maxLength)
      && buffer[..p] == written[..p] && buffer[p..] == before[p..]
    }

    constructor (buffer: array<char>)
      ensures Valid() && this.buffer == buffer && written == [] && before == buffer[..]
    {
      this.buffer, p, length, written, before := buffer, 0, 0, [], buffer[..];
      maxLength := if buffer.Length > 0 then buffer.Length - 1 else 0;
    }

    /** vsnprintf_helper */
    method Put(ch: char)
      requires Valid()
      modifies this`p, this`length, this`written, buffer
      ensures Valid() && written == old(written) + [ch]
    {
      written := written + [ch];
      if length < maxLength {
        buffer[p] := ch;
        p := p + 1;
      }
      length := length + 1;
    }
  }

  /** vsnprintf, for the characters that __vprintf outputs: the longest prefix that fits, a terminator, and the full
      length. */
  method Vsnprintf(buffer: array<char>, output: seq<char>) returns (length: nat)
    modifies buffer
    ensures length == |output|
    ensures buffer.Length > 0 ==>
      var n := Min(|output|, buffer.Length - 1);
      buffer[..n] == output[..n] && buffer[n] == '\0' && buffer[n + 1..] == old(buffer[n + 1..])
  {
    var sink := new Sink(buffer);
    var i := 0;
    while i < |output|
      invariant i <= |output| && sink.Valid() && sink.buffer == buffer && sink.written == output[..i]
      invariant sink.before == old(buffer[..])
      invariant fresh(sink)
    {
      sink.Put(output[i]);
      i := i + 1;
    }
    assert output[..i] == output;
    if buffer.Length > 0 { buffer[sink.p] := '\0'; }
    length := sink.length;
  }

  // ---------------------------------------------------------------- atoi

  /** atoi.  overflow says that some step left the range of int. */
  method Atoi(s: seq<char>) returns (value: int, overflow: bool)
    ensures overflow <==> !(-TWO31 <= AtoiOf(s) < TWO31)
    ensures value == AtoiOf(s)
  {
    var i := 0;
    while i < |s| && IsSpace(s[i])
      invariant i <= |s| && SkipSpaces(s[i..]) == SkipSpaces(s)
    {
      assert s[i..][1..] == s[i + 1..];
      i := i + 1;
    }
    assert SkipSpaces(s[i..]) == s[i..];
    var negative := false;
    if i < |s| && s[i] == '+' {
      assert s[i..][1..] == s[i + 1..];
      i := i + 1;
    } else if i < |s| && s[i] == '-' {
      assert s[i..][1..] == s[i + 1..];
      negative := true;
      i := i + 1;
    }
    ghost var start := i;
    value, overflow := 0, false;
    while i < |s| && IsDigit(s[i])
      invariant i <= |s| && value <= 0 && Leading(s[i..], -value) == Leading(s[start..], 0)
      invariant overflow <==> value < -TWO31
    {
      assert s[i..][1..] == s[i + 1..];
      value := value * 10 - (s[i] as int - '0' as int);
      overflow := overflow || value < -TWO31;
      i := i + 1;
    }
    if !negative {
      value := -value;
      overflow := overflow || value >= TWO31;
    }
  }

  /** Every int that %d prints comes back from atoi, and no step of the way back overflows. */
  method PrintThenRead(v: int, c: Conversion) returns (back: int, overflow: bool)
    requires -TWO31 <= v < TWO31 && !c.flags.group
    ensures back == v && !overflow
  {
    var text := FormatInteger(if v < 0 then -v else v, true, v < 0, BASE_D, c);
    AtoiOfPrinted(v, c);
    back, overflow := Atoi(text);
  }
}
