/** What a conversion specification asks for and what its output reads as (section 7.19.6.1 of ISO C99, lib/stdio.c). */
module PrintfMeans {
  import opened Common
  import opened PrintfModel
  import opened PrintfDigits

  // ---------------------------------------------------------------- specifications

  /** The length modifier: two letters for char and long long, one for the others, none for int. */
  lemma TypeMeans(f: seq<char>, m: nat)
    requires CString(f) && m < |f|
    ensures var t := TypeAt(f, m).0;
            && (t == Char <==> f[m] == 'h' && f[m + 1] == 'h') && (t == Short <==> f[m] == 'h' && f[m + 1] != 'h')
            && (t == LongLong <==> f[m] == 'l' && f[m + 1] == 'l') && (t == Long <==> f[m] == 'l' && f[m + 1] != 'l')
            && (t == IntMax <==> f[m] == 'j') && (t == PtrDiff <==> f[m] == 't') && (t == Size <==> f[m] == 'z')
            && (t == Int <==> f[m] !in "hjltz")
    ensures TypeAt(f, m).1 == if f[m] !in "hjltz" then 0 else if f[m] in "hl" && f[m + 1] == f[m] then 2 else 1
  {
    assert f[m] in "hjltz" <==> f[m] == 'h' || f[m] == 'j' || f[m] == 'l' || f[m] == 't' || f[m] == 'z';
  }

  /** Each flag is set by its character, except that `-' and a precision undo `0', `+' undoes a space, and a negative
      width argument sets `-'.  The width is the number or the magnitude of the argument. */
  lemma FlagsMean(f: seq<char>, i: nat, args: seq<int>)
    requires CString(f) && i < |f|
    ensures var c, s := ConversionAt(f, i, args), SpecAt(f, i, args);
            var run, star := f[i..s.flagsEnd], f[s.flagsEnd] == '*';
            && (forall k :: 0 <= k < |run| ==> run[k] in "-+ #0'") && f[s.flagsEnd] !in "-+ #0'"
            && (c.flags.minus <==> '-' in run || (star && Arg(args, 0) < 0))
            && (c.flags.plus <==> '+' in run) && (c.flags.space <==> ' ' in run && '+' !in run)
            && (c.flags.pound <==> '#' in run) && (c.flags.group <==> '\'' in run)
            && (c.flags.zero <==> '0' in run && '-' !in run && c.precision < 0)
            && c.width == (if !star then Number(f[s.flagsEnd..s.widthEnd])
              else if Arg(args, 0) < 0 then -Arg(args, 0) else Arg(args, 0))
  {
    var s := SpecAt(f, i, args);
    assert forall ch :: IsFlag(ch) <==> ch in "-+ #0'";
    if f[s.flagsEnd] != '*' { NumberIsNat(f[s.flagsEnd..s.widthEnd]); }
  }

  /** The precision is the number or the argument after the point, and -1 when there is none or it is negative. */
  lemma PrecisionMeans(f: seq<char>, i: nat, args: seq<int>)
    requires CString(f) && i < |f|
    ensures var c, s := ConversionAt(f, i, args), SpecAt(f, i, args);
            var k := s.widthEnd;
            var arg := Arg(args, if f[s.flagsEnd] == '*' then 1 else 0);
            if f[k] != '.' then c.precision == -1
            else if f[k + 1] == '*' then c.precision == if arg < 0 then -1 else arg
            else c.precision == Number(f[k + 1..s.precisionEnd])
  {
    var s := SpecAt(f, i, args);
    var k := s.widthEnd;
    if f[k] == '.' && f[k + 1] != '*' { NumberIsNat(f[k + 1..s.precisionEnd]); }
  }

  /** Numbers in a specification are decimal. */
  lemma {:induction false} NumberReads(value: nat, cnt: nat)
    ensures Number(Msb(value, false, cnt)) == value
    decreases value
  {
    if value > 0 {
      NumberReads(value / 10, cnt + 1);
      DigitValue(value % 10);
      var front, d := Msb(value / 10, false, cnt + 1), BASE_D.digits[value % 10];
      assert Msb(value, false, cnt) == front + [d];
      assert (front + [d])[..|front|] == front;
    }
  }

  // ---------------------------------------------------------------- output

  /** A sign only for signed conversions: minus for the negative, else plus or a space if asked for. */
  lemma SignMeans(isSigned: bool, negative: bool, f: Flags)
    ensures var s := Sign(isSigned, negative, f);
            && (s == ['-'] <==> isSigned && negative) && (s == ['+'] <==> isSigned && !negative && f.plus)
            && (s == [' '] <==> isSigned && !negative && !f.plus && f.space)
            && (s == [] <==> !isSigned || (!negative && !f.plus && !f.space))
  {
  }

  /** 0x in front of a hexadecimal number that is not zero, if asked for. */
  lemma PrefixMeans(value: nat, f: Flags)
    ensures Prefix(value, BASE_X, f) == (if f.pound && value != 0 then "0x" else "")
    ensures Prefix(value, BASE_XX, f) == (if f.pound && value != 0 then "0X" else "")
    ensures Prefix(value, BASE_D, f) == "" && Prefix(value, BASE_O, f) == ""
  {
  }

  /** Sign, prefix and digits, filled up to the width with spaces on the left, or on the right for `-', or with zeros
      between prefix and digits for `0'. */
  lemma OutputMeans(value: nat, isSigned: bool, negative: bool, b: Base, c: Conversion)
    requires GoodBase(b)
    ensures var sign, prefix := Sign(isSigned, negative, c.flags), Prefix(value, b, c.flags);
            var digits, out := Reverse(Buffered(value, b, c)), Output(value, isSigned, negative, b, c);
            var n := |sign| + |prefix| + |digits|;
            && (c.width <= n ==> out == sign + prefix + digits)
            && (c.width > n && !c.flags.minus && !c.flags.zero ==>
              out == Dup(' ', c.width - n) + sign + prefix + digits)
            && (c.width > n && c.flags.minus && !c.flags.zero ==> out == sign + prefix + digits + Dup(' ', c.width - n))
            && (c.width > n && !c.flags.minus && c.flags.zero ==> out == sign + prefix + Dup('0', c.width - n) + digits)
  {
    assert Dup(' ', 0) == [] && Dup('0', 0) == [];
  }

  // ---------------------------------------------------------------- reading the digits

  /** The digit a character stands for. */
  function CodeValue(ch: char): int
  {
    if ch <= '9' then ch as int - 48 else if ch <= 'F' then ch as int - 55 else ch as int - 87
  }

  /** The number that a string reads as in a base, most significant digit first, commas apart. */
  function Reads(s: seq<char>, base: nat): int
  {
    if s == [] then 0
    else if s[|s| - 1] == ',' then Reads(s[..|s| - 1], base)
    else base * Reads(s[..|s| - 1], base) + CodeValue(s[|s| - 1])
  }

  /** The digits of a base stand for 0, 1, 2 and so on. */
  ghost predicate Ordinary(b: Base)
  {
    PlainBase(b) && forall k :: 0 <= k < |b.digits| ==> CodeValue(b.digits[k]) == k
  }

  lemma BasesMean()
    ensures Ordinary(BASE_D) && Ordinary(BASE_O) && Ordinary(BASE_X) && Ordinary(BASE_XX)
    ensures BASE_D.base == 10 && BASE_O.base == 8 && BASE_X.base == 16 && BASE_XX.base == 16
    ensures BASE_D.group == 3 && BASE_O.group == 3 && BASE_X.group == 4 && BASE_XX.group == 4
  {
    BasesPlain();
    assert forall k :: 0 <= k < 10 ==> BASE_D.digits[k] as int == 48 + k;
    assert forall k :: 0 <= k < 8 ==> BASE_O.digits[k] as int == 48 + k;
    assert forall k :: 0 <= k < 16 ==> BASE_X.digits[k] as int == if k < 10 then 48 + k else 87 + k;
    assert forall k :: 0 <= k < 16 ==> BASE_XX.digits[k] as int == if k < 10 then 48 + k else 55 + k;
  }

  lemma ReadsSnoc(s: seq<char>, d: char, base: nat)
    ensures Reads(s + [d], base) == if d == ',' then Reads(s, base) else base * Reads(s, base) + CodeValue(d)
  {
    assert (s + [d])[..|s|] == s;
  }

  lemma ReverseStep(comma: seq<char>, d: char, rest: seq<char>, s: seq<char>)
    requires comma == [] || comma == [',']
    ensures s + Reverse(comma + [d] + rest) == s + Reverse(rest) + [d] + comma
  {
    ReverseAppend(comma + [d], rest);
    ReverseAppend(comma, [d]);
    assert Reverse([d]) == [d] && Reverse(comma) == comma;
  }

  lemma {:induction false} ReadsDigits(value: nat, b: Base, group: bool, cnt: nat, s: seq<char>)
    requires Ordinary(b) && Reads(s, b.base) == 0
    ensures Reads(s + Reverse(Chars(value, b, group, cnt)), b.base) == value
    decreases value
  {
    if value == 0 {
      assert s + Reverse([]) == s;
    } else {
      var q, d := LastDigit(value, b);
      ReadsDigits(q, b, group, cnt + 1, s);
      ReadsOneMore(value, b, group, cnt, s, q, d);
    }
  }

  lemma LastDigit(value: nat, b: Base) returns (q: nat, d: char)
    requires Ordinary(b) && value > 0
    ensures q == value / b.base < value && d == b.digits[value % b.base] && d != ','
    ensures CodeValue(d) + b.base * q == value
  {
    QuotientSmaller(value, b.base);
    DigitIsNoComma(b, value % b.base);
    DivMod(value, b.base);
    q, d := value / b.base, b.digits[value % b.base];
  }

  lemma CharsStep(value: nat, b: Base, group: bool, cnt: nat)
    requires GoodBase(b) && value > 0
    ensures Chars(value, b, group, cnt) ==
              Comma(b, group, cnt) + [b.digits[value % b.base]] + Chars(value / b.base, b, group, cnt + 1)
  {
  }

  lemma ReadsOneMore(value: nat, b: Base, group: bool, cnt: nat, s: seq<char>, q: nat, d: char)
    requires GoodBase(b) && value > 0 && q == value / b.base && d == b.digits[value % b.base]
    requires d != ',' && CodeValue(d) + b.base * q == value
    requires Reads(s + Reverse(Chars(q, b, group, cnt + 1)), b.base) == q
    ensures Reads(s + Reverse(Chars(value, b, group, cnt)), b.base) == value
  {
    CharsStep(value, b, group, cnt);
    OneMore(s, Comma(b, group, cnt), d, Chars(q, b, group, cnt + 1), b.base, q);
  }

  lemma OneMore(s: seq<char>, comma: seq<char>, d: char, rest: seq<char>, base: nat, q: nat)
    requires d != ',' && (comma == [] || comma == [',']) && Reads(s + Reverse(rest), base) == q
    ensures Reads(s + Reverse(comma + [d] + rest), base) == base * q + CodeValue(d)
  {
    ReverseStep(comma, d, rest, s);
    ReadsEnd(s + Reverse(rest), d, comma, base);
  }

  lemma DigitIsNoComma(b: Base, k: nat)
    requires Ordinary(b) && k < b.base
    ensures b.digits[k] != ',' && CodeValue(b.digits[k]) == k
  {
  }

  lemma ReadsEnd(s: seq<char>, d: char, comma: seq<char>, base: nat)
    requires d != ',' && (comma == [] || comma == [','])
    ensures Reads(s + [d] + comma, base) == base * Reads(s, base) + CodeValue(d)
  {
    ReadsSnoc(s, d, base);
    if comma == [] { assert s + [d] + comma == s + [d]; } else { ReadsSnoc(s + [d], ',', base); }
  }

  lemma {:induction false} ReadsZeros(n: nat, base: nat)
    ensures Reads(Dup('0', n), base) == 0
  {
    if n > 0 {
      ReadsZeros(n - 1, base);
      assert Dup('0', n) == Dup('0', n - 1) + ['0'];
      ReadsSnoc(Dup('0', n - 1), '0', base);
    }
  }

  /** The buffer, last character first: zeros and then the digits. */
  lemma BufferReversed(value: nat, b: Base, c: Conversion) returns (k: nat)
    requires GoodBase(b)
    ensures Reverse(Buffered(value, b, c)) == Dup('0', k) + Reverse(Chars(value, b, c.flags.group, 0))
  {
    var s := Chars(value, b, c.flags.group, 0);
    var z := Zeros(c, |s|);
    ReverseAppend(s, Dup('0', z));
    DupSnoc('0', z);
    k := z;
    if Buffered(value, b, c) != WithPrecision(s, c.precision) {
      ReverseAppend(WithPrecision(s, c.precision), ['0']);
      OneMoreZero(z, Reverse(s));
      k := z + 1;
    }
  }

  lemma OneMoreZero(z: nat, t: seq<char>)
    ensures Reverse(['0']) + (Dup('0', z) + t) == Dup('0', z + 1) + t
  {
    assert Reverse(['0']) == ['0'] && ['0'] + Dup('0', z) == Dup('0', z + 1);
  }

  /** Whatever the flags and the precision, the digits printed read as the value, in the order printed. */
  lemma DigitsRead(value: nat, b: Base, c: Conversion)
    requires Ordinary(b)
    ensures Reads(Reverse(Buffered(value, b, c)), b.base) == value
  {
    var k := BufferReversed(value, b, c);
    ReadsZeros(k, b.base);
    ReadsDigits(value, b, c.flags.group, 0, Dup('0', k));
  }

  // ---------------------------------------------------------------- where the commas are

  /** How many characters are stored before digit cnt and its comma. */
  function Place(cnt: nat, g: nat): nat
    requires g > 0
  {
    cnt + if cnt > 0 then (cnt - 1) / g else 0
  }

  lemma PlaceStep(cnt: nat, g: nat)
    requires g == 3 || g == 4
    ensures Place(cnt, g) % (g + 1) == g <==> cnt > 0 && cnt % g == 0
    ensures Place(cnt + 1, g) == Place(cnt, g) + if cnt > 0 && cnt % g == 0 then 2 else 1
  {
    if g == 3 { PlaceThree(cnt); } else { PlaceFour(cnt); }
  }

  lemma PlaceThree(cnt: nat)
    ensures Place(cnt, 3) % 4 == 3 <==> cnt > 0 && cnt % 3 == 0
    ensures Place(cnt + 1, 3) == Place(cnt, 3) + if cnt > 0 && cnt % 3 == 0 then 2 else 1
  {
  }

  lemma PlaceFour(cnt: nat)
    ensures Place(cnt, 4) % 5 == 4 <==> cnt > 0 && cnt % 4 == 0
    ensures Place(cnt + 1, 4) == Place(cnt, 4) + if cnt > 0 && cnt % 4 == 0 then 2 else 1
  {
  }

  lemma {:induction false} CommaPlaces(value: nat, b: Base, cnt: nat, k: nat)
    requires Ordinary(b) && (b.group == 3 || b.group == 4) && k < |Chars(value, b, true, cnt)|
    ensures Chars(value, b, true, cnt)[k] == ',' <==> (Place(cnt, b.group) + k) % (b.group + 1) == b.group
    decreases value
  {
    var q, d := LastDigit(value, b);
    var comma, rest := Comma(b, true, cnt), Chars(q, b, true, cnt + 1);
    CharsStep(value, b, true, cnt);
    PlaceStep(cnt, b.group);
    if k == |comma| && comma != [] { NotBoth(Place(cnt, b.group), b.group); }
    if k > |comma| {
      assert (comma + [d] + rest)[k] == rest[k - |comma| - 1];
      CommaPlaces(q, b, cnt + 1, k - |comma| - 1);
    }
  }

  lemma NotBoth(p: nat, g: nat)
    requires (g == 3 || g == 4) && p % (g + 1) == g
    ensures (p + 1) % (g + 1) != g
  {
    if g == 3 { assert p % 4 == 3; } else { assert p % 5 == 4; }
  }

  /** With grouping, counted from the right, every fourth character of a decimal number is a comma, and every fifth of
      a hexadecimal one, and no other. */
  lemma CommasAt(value: nat, b: Base, k: nat)
    requires Ordinary(b) && (b.group == 3 || b.group == 4) && k < |Chars(value, b, true, 0)|
    ensures Chars(value, b, true, 0)[k] == ',' <==> k % (b.group + 1) == b.group
    ensures ',' !in Chars(value, b, false, 0)
  {
    CommaPlaces(value, b, 0, k);
    NoCommas(value, b, 0);
  }

  lemma {:induction false} NoCommas(value: nat, b: Base, cnt: nat)
    requires Ordinary(b)
    ensures ',' !in Chars(value, b, false, cnt)
    decreases value
  {
    if value > 0 {
      var q, d := LastDigit(value, b);
      NoCommas(q, b, cnt + 1);
      CharsStep(value, b, false, cnt);
    }
  }

  // ---------------------------------------------------------------- atoi

  ghost predicate AllDigits(s: seq<char>) { forall i :: 0 <= i < |s| ==> '0' <= s[i] <= '9' }

  /** Space, tab, newline, carriage return, vertical tab, form feed. */
  ghost predicate AllSpaces(s: seq<char>) { forall i :: 0 <= i < |s| ==> s[i] == ' ' || 9 <= s[i] as int <= 13 }

  lemma {:induction false} LeadingNumber(digits: seq<char>, rest: seq<char>)
    requires AllDigits(digits)
    ensures Number(digits) >= 0 && Leading(digits + rest, 0) == Leading(rest, Number(digits))
    decreases |digits|
  {
    if digits == [] {
      assert digits + rest == rest;
    } else {
      var front, d := digits[..|digits| - 1], digits[|digits| - 1];
      LeadingNumber(front, [d] + rest);
      assert digits + rest == front + ([d] + rest);
      LeadingDigit(d, rest, Number(front));
    }
  }

  lemma {:induction false} SpacesGo(ws: seq<char>, t: seq<char>)
    requires AllSpaces(ws) && (t == [] || !IsSpace(t[0]))
    ensures SkipSpaces(ws + t) == t
  {
    if ws == [] {
      assert ws + t == t;
    } else {
      assert (ws + t)[1..] == ws[1..] + t;
      SpacesGo(ws[1..], t);
    }
  }

  /** atoi skips white space, takes one sign, and reads decimal digits up to the first character that is none. */
  lemma AtoiMeans(ws: seq<char>, sign: seq<char>, digits: seq<char>, rest: seq<char>)
    requires AllSpaces(ws) && (sign == [] || sign == ['+'] || sign == ['-']) && AllDigits(digits) && digits != []
    requires rest == [] || !('0' <= rest[0] <= '9')
    ensures AtoiOf(ws + (sign + (digits + rest))) == if sign == ['-'] then -Number(digits) else Number(digits)
  {
    var t := digits + rest;
    assert t[0] == digits[0];
    LeadingNumber(digits, rest);
    StopsAt(Number(digits), rest);
    if sign == [] {
      assert sign + t == t;
    } else {
      assert (sign + t)[0] == sign[0] && (sign + t)[1..] == t;
    }
    SpacesGo(ws, sign + t);
  }
}
