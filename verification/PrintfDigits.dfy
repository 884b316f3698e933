/** How many digits format_integer prints for a precision (lib/stdio.c). */
module PrintfDigits {
  import opened Common
  import opened PrintfModel

  /** The characters that are not commas. */
  function Digits(s: seq<char>): nat
  {
    if s == [] then 0 else (if s[0] == ',' then 0 else 1) + Digits(s[1..])
  }

  ghost predicate PlainBase(b: Base) { GoodBase(b) && DistinctDigits(b) && b.digits[0] == '0' }

  lemma BasesPlain()
    ensures PlainBase(BASE_D) && PlainBase(BASE_O) && PlainBase(BASE_X) && PlainBase(BASE_XX)
  {
    BasesGood();
    BasesDistinct();
  }

  /** The precision in force. */
  function Precision(c: Conversion): int { if c.precision < 0 then 1 else c.precision }

  predicate OctalZero(b: Base, c: Conversion) { c.flags.pound && b.base == 8 }

  /** What a precision promises (section 7.19.6.1 of ISO C99): that many digits at least, and for an octal number with
      the `#' flag one more where the first would not be a zero. */
  function Promised(value: nat, b: Base, c: Conversion): int
    requires GoodBase(b)
  {
    var d, p := DigitCount(value, b.base), Precision(c);
    if OctalZero(b, c) && p <= d then d + 1 else Max(d, p)
  }

  // ---------------------------------------------------------------- counting

  lemma {:induction false} DigitsJoin(s: seq<char>, t: seq<char>)
    ensures Digits(s + t) == Digits(s) + Digits(t)
  {
    if s == [] {
      assert s + t == t;
    } else {
      assert (s + t)[1..] == s[1..] + t;
      DigitsJoin(s[1..], t);
    }
  }

  lemma {:induction false} DigitsOfZeros(n: nat)
    ensures Digits(Dup('0', n)) == n
  {
    if n > 0 {
      assert Dup('0', n)[1..] == Dup('0', n - 1);
      DigitsOfZeros(n - 1);
    }
  }

  /** The digit loop stores each digit of the value once. */
  lemma {:induction false} DigitsOfChars(value: nat, b: Base, group: bool, cnt: nat)
    requires PlainBase(b)
    ensures Digits(Chars(value, b, group, cnt)) == DigitCount(value, b.base) <= |Chars(value, b, group, cnt)|
    decreases value
  {
    if value > 0 {
      QuotientSmaller(value, b.base);
      DigitsOfChars(value / b.base, b, group, cnt + 1);
      var comma, d, rest := Comma(b, group, cnt), b.digits[value % b.base], Chars(value / b.base, b, group, cnt + 1);
      DigitsJoin(comma + [d], rest);
      DigitsJoin(comma, [d]);
    }
  }

  /** It stores a comma exactly when the digits are grouped and are more than one group. */
  lemma {:induction false} CommaLaw(value: nat, b: Base, group: bool, cnt: nat)
    requires PlainBase(b) && cnt <= b.group
    ensures |Chars(value, b, group, cnt)| == DigitCount(value, b.base) <==>
              !group || value == 0 || cnt + DigitCount(value, b.base) <= b.group
    decreases value
  {
    if value > 0 {
      QuotientSmaller(value, b.base);
      DigitsOfChars(value / b.base, b, group, cnt + 1);
      CommaWhen(b, group, cnt);
      if cnt < b.group || !group { NoCommaYet(value, b, group, cnt); }
    }
  }

  lemma CommaWhen(b: Base, group: bool, cnt: nat)
    requires b.group >= 1 && cnt <= b.group
    ensures Comma(b, group, cnt) == if group && cnt == b.group then [','] else []
  {
  }

  lemma NoCommaYet(value: nat, b: Base, group: bool, cnt: nat)
    requires PlainBase(b) && cnt <= b.group && value > 0 && (cnt < b.group || !group)
    ensures |Chars(value, b, group, cnt)| == DigitCount(value, b.base) <==>
              !group || value == 0 || cnt + DigitCount(value, b.base) <= b.group
    decreases value, 0
  {
    QuotientSmaller(value, b.base);
    CommaWhen(b, group, cnt);
    if cnt < b.group { CommaLaw(value / b.base, b, group, cnt + 1); } else { PlainLength(value, b, cnt); }
  }

  lemma {:induction false} PlainLength(value: nat, b: Base, cnt: nat)
    requires GoodBase(b)
    ensures |Chars(value, b, false, cnt)| == DigitCount(value, b.base)
    decreases value
  {
    if value > 0 {
      QuotientSmaller(value, b.base);
      PlainLength(value / b.base, b, cnt + 1);
    }
  }

  /** The digit stored last, which is printed first, is not a zero. */
  lemma {:induction false} TopDigit(value: nat, b: Base, group: bool, cnt: nat)
    requires PlainBase(b) && value > 0
    ensures var s := Chars(value, b, group, cnt); s != [] && s[|s| - 1] != '0'
    decreases value
  {
    var q, d := LowDigit(value, b);
    if q > 0 { TopDigit(q, b, group, cnt + 1); }
    TopStep(value, b, group, cnt, q, d);
  }

  lemma LowDigit(value: nat, b: Base) returns (q: nat, d: char)
    requires PlainBase(b) && value > 0
    ensures q == value / b.base < value && d == b.digits[value % b.base] && (q == 0 ==> d != '0')
  {
    QuotientSmaller(value, b.base);
    q, d := value / b.base, b.digits[value % b.base];
    if q == 0 {
      NoQuotient(value, b.base);
      OnlyZero(b, value);
    }
  }

  lemma TopStep(value: nat, b: Base, group: bool, cnt: nat, q: nat, d: char)
    requires GoodBase(b) && value > 0 && q == value / b.base && d == b.digits[value % b.base] && (q == 0 ==> d != '0')
    requires q > 0 ==> var s := Chars(q, b, group, cnt + 1); s != [] && s[|s| - 1] != '0'
    ensures var s := Chars(value, b, group, cnt); s != [] && s[|s| - 1] != '0'
  {
    LastOf(Comma(b, group, cnt), d, Chars(q, b, group, cnt + 1));
  }

  lemma OnlyZero(b: Base, k: nat)
    requires PlainBase(b) && 0 < k < b.base
    ensures b.digits[k] != '0'
  {
  }

  lemma LastOf(comma: seq<char>, d: char, rest: seq<char>)
    ensures var s := comma + [d] + rest; s != [] && s[|s| - 1] == if rest == [] then d else rest[|rest| - 1]
  {
  }

  lemma NoQuotient(value: nat, base: nat)
    requires base > 0 && value / base == 0
    ensures value % base == value
  {
    DivMod(value, base);
  }

  // ---------------------------------------------------------------- the law

  /** The zeros that the precision adds, with n characters in the buffer already. */
  function Zeros(c: Conversion, n: nat): nat { Max(Min(Precision(c), BUF - 1) - n, 0) }

  lemma PaddedDigits(value: nat, b: Base, c: Conversion)
    requires PlainBase(b)
    ensures var s := Chars(value, b, c.flags.group, 0);
            Digits(WithPrecision(s, c.precision)) == DigitCount(value, b.base) + Zeros(c, |s|)
  {
    var s := Chars(value, b, c.flags.group, 0);
    DigitsOfChars(value, b, c.flags.group, 0);
    DigitsOfZeros(Zeros(c, |s|));
    DigitsJoin(s, Dup('0', Zeros(c, |s|)));
  }

  /** A number padded with zeros, and no other, begins with one. */
  lemma TopOfPadded(value: nat, b: Base, c: Conversion)
    requires PlainBase(b)
    ensures var s := Chars(value, b, c.flags.group, 0);
            var t := WithPrecision(s, c.precision);
            Zeros(c, |s|) == 0 <==> t == [] || t[|t| - 1] != '0'
  {
    var s := Chars(value, b, c.flags.group, 0);
    if Zeros(c, |s|) == 0 {
      assert s + Dup('0', 0) == s;
      if value > 0 { TopDigit(value, b, c.flags.group, 0); }
    }
  }

  lemma BufferedDigits(value: nat, b: Base, c: Conversion)
    requires PlainBase(b)
    ensures var n := |Chars(value, b, c.flags.group, 0)|;
            Digits(Buffered(value, b, c)) ==
              DigitCount(value, b.base) + Zeros(c, n) + if OctalZero(b, c) && Zeros(c, n) == 0 then 1 else 0
  {
    PaddedDigits(value, b, c);
    TopOfPadded(value, b, c);
    DigitsJoin(WithPrecision(Chars(value, b, c.flags.group, 0), c.precision), ['0']);
  }

  lemma AtMost22(value: nat, b: Base)
    requires GoodBase(b) && value < TWO64
    ensures DigitCount(value, b.base) <= 22
  {
    Pow2Words();
    Pow8Is(22);
    Pow2Add(2, 64);
    DigitsFit(value, b.base, 22);
  }

  /** The precision is honoured if and only if it asks for no more digits than there are, or asks for at most 63 and no
      comma is printed; or the octal zero happens to be the one digit missing.  Otherwise the commas have been counted
      as digits, or the buffer has ended. */
  lemma PrecisionLaw(value: nat, b: Base, c: Conversion)
    requires PlainBase(b) && value < TWO64
    ensures var d, p := DigitCount(value, b.base), Precision(c);
            Digits(Buffered(value, b, c)) == Promised(value, b, c) <==>
              p <= d || (p <= 63 && (!c.flags.group || d <= b.group)) || (OctalZero(b, c) && p == d + 1)
  {
    BufferedDigits(value, b, c);
    DigitsOfChars(value, b, c.flags.group, 0);
    CommaLaw(value, b, c.flags.group, 0);
    AtMost22(value, b);
  }

  // ---------------------------------------------------------------- inputs that fail

  const GROUPED: Flags := Flags(false, false, false, false, false, true)

  lemma Prints1234()
    ensures Chars(1234, BASE_D, true, 0) == "432,1" && DigitCount(1234, 10) == 4
  {
    assert Chars(1, BASE_D, true, 3) == ",1" by { assert Chars(0, BASE_D, true, 4) == []; }
    assert Chars(12, BASE_D, true, 2) == "2,1";
    assert Chars(123, BASE_D, true, 1) == "32,1";
    assert DigitCount(1, 10) == 1 && DigitCount(12, 10) == 2 && DigitCount(123, 10) == 3;
  }

  /** With grouping and a precision of 5, 1234 is printed with four digits; with a precision of 70, with 62. */
  lemma PrecisionMissed()
    ensures Digits(Buffered(1234, BASE_D, Conversion(GROUPED, 0, 5, Int))) == 4
    ensures Digits(Buffered(1234, BASE_D, Conversion(GROUPED, 0, 70, Int))) == 62
  {
    BasesPlain();
    Prints1234();
    BufferedDigits(1234, BASE_D, Conversion(GROUPED, 0, 5, Int));
    BufferedDigits(1234, BASE_D, Conversion(GROUPED, 0, 70, Int));
  }
}
