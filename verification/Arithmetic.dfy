/** 64-bit division built from a 32-bit divide instruction (lib/arithmetic.c).
    Machine words are integers with their width written out; a divide error is `None`. */
module Arithmetic {
  import opened Common

  /** The DIVL instruction: 64-bit by 32-bit, trapping when the quotient does not fit in 32 bits. */
  function Divl(n: nat, d: nat): Option<nat>
    requires n < TWO64 && d < TWO32
  {
    if d == 0 || n / d >= TWO32 then None else Some(n / d)
  }

  // ---------------------------------------------------------------- leading zeros

  /** x shifted left by n places in an unbounded word. */
  function Shl(x: nat, n: nat): nat { if n == 0 then x else 2 * Shl(x, n - 1) }

  lemma {:induction false} ShlIs(x: nat, n: nat)
    ensures Shl(x, n) == x * Pow2(n)
  {
    if n > 0 {
      ShlIs(x, n - 1);
      MulAssoc(x, 2, Pow2(n - 1));
      MulAssoc(2, x, Pow2(n - 1));
    }
  }

  lemma {:induction false} ShlShl(x: nat, n: nat, k: nat)
    ensures Shl(Shl(x, n), k) == Shl(x, n + k)
  {
    if k > 0 { ShlShl(x, n, k - 1); }
  }

  /** The word part of a left shift: bits that leave the 32-bit word are lost. */
  function Low32(x: nat): (r: nat)
    ensures r < TWO32
    ensures x < TWO32 ==> r == x
  {
    x % TWO32
  }

  lemma ShlMore(x: nat, n: nat, w: nat, k: nat, p: nat)
    requires w == Shl(x, n) && p == Pow2(k)
    ensures w * p == Shl(x, n + k)
  {
    ShlIs(w, k);
    ShlShl(x, n, k);
  }

  /** One step of the count: if the top k bits of w are clear, count them and shift them out. */
  method SkipZeros(ghost x: nat, n: nat, w: nat, k: nat, p: nat, limit: nat) returns (n': nat, w': nat)
    requires w == Shl(x, n) && w < TWO32 && p == Pow2(k) && (limit + 1) * p == TWO32
    ensures w' == Shl(x, n') && n <= n' <= n + k && w' < TWO32
    ensures w * p > limit ==> w' > limit
    ensures w <= w'
  {
    n', w' := n, w;
    if w <= limit {
      ShiftFits(w, p, limit);
      ShlMore(x, n, w, k, p);
      n', w' := n + k, Low32(w * p);
    }
  }

  lemma ShiftFits(w: nat, p: nat, limit: nat)
    requires p >= 1 && w <= limit && (limit + 1) * p == TWO32
    ensures w <= w * p < TWO32
  {
    MulMono(w + 1, limit + 1, p);
    MulMono(1, p, w);
  }

  method Nlz(x: nat) returns (n: nat)
    requires 0 < x < TWO32
    ensures n < 32 && TWO31 <= Shl(x, n) < TWO32
  {
    var w := x;
    n := 0;
    assert Pow2(1) == 2 && Pow2(2) == 4 && Pow2(4) == 16 && Pow2(8) == 256;
    assert Pow2(16) == 0x1_0000 by { Pow2Words(); }
    n, w := SkipZeros(x, n, w, 16, 0x1_0000, 0x0000FFFF);
    n, w := SkipZeros(x, n, w, 8, 256, 0x00FFFFFF);
    n, w := SkipZeros(x, n, w, 4, 16, 0x0FFFFFFF);
    n, w := SkipZeros(x, n, w, 2, 4, 0x3FFFFFFF);
    n, w := SkipZeros(x, n, w, 1, 2, 0x7FFFFFFF);
  }

  // ---------------------------------------------------------------- unsigned division

  /** Unsigned 64-bit arithmetic wraps. */
  function Wrap64(x: int): (r: nat)
    ensures r < TWO64
    ensures 0 <= x < TWO64 ==> r == x
  {
    x % TWO64
  }

  /** p is the normalising factor, r its complement in the 32-bit word, h half of r. */
  ghost predicate Scale(p: nat, r: nat, h: nat) { p >= 1 && h >= 1 && r == 2 * h && p * r == TWO32 }

  /** v is the upper half of the divisor d after scaling it by p to fill the word. */
  ghost predicate Normalised(d: nat, p: nat, r: nat, v: nat)
  {
    TWO31 <= v < TWO32 && d > 0 && v * r <= d < (v + 1) * r
  }

  lemma ScaleOf(s: nat)
    requires s <= 31
    ensures Scale(Pow2(s), Pow2(32 - s), Pow2(31 - s))
  {
    Pow2Add(s, 32 - s);
    Pow2Words();
  }

  lemma CancelFactor(a: int, b: int, p: int)
    requires p > 0
    ensures a * p <= b * p ==> a <= b
    ensures a * p < b * p ==> a < b
  {
    if b < a { MulMono(b + 1, a, p); }
    if b <= a { MulMono(b, a, p); }
  }

  /** Scaling by the number of leading zeros keeps the top digit, plus one, inside the word. */
  lemma DigitFits(d1: nat, p: nat, r: nat, h: nat)
    requires Scale(p, r, h) && d1 * p < TWO32
    ensures (d1 + 1) * p <= TWO32
  {
    CancelFactor(d1, r, p);
    MulMono(d1 + 1, r, p);
  }

  lemma ScaledBounds(d: nat, d1: nat, p: nat, r: nat, h: nat)
    requires Scale(p, r, h) && d1 == d / TWO32 && TWO31 <= d1 * p < TWO32
    ensures TWO31 * TWO32 <= d * p < TWO64
  {
    DigitFits(d1, p, r, h);
    DivBounds(d, TWO32);
    MulMono(d1 * TWO32, d, p);
    MulMono(d + 1, (d1 + 1) * TWO32, p);
    Regroup(d1, p);
    Regroup(d1 + 1, p);
    MulMono((d1 + 1) * p, TWO32, TWO32);
    assert (d + 1) * p == d * p + p;
  }

  lemma Regroup(a: int, p: int)
    ensures a * TWO32 * p == a * p * TWO32
  {
  }

  lemma NormaliseDivisor(d: nat, p: nat, r: nat, h: nat)
    requires Scale(p, r, h) && TWO32 <= d && TWO31 <= d / TWO32 * p < TWO32
    ensures d * p < TWO64 && Normalised(d, p, r, d * p / TWO32)
  {
    ScaledBounds(d, d / TWO32, p, r, h);
    var v := d * p / TWO32;
    DivBounds(d * p, TWO32);
    MulAssoc(v, r, p);
    MulAssoc(v + 1, r, p);
    CancelFactor(v * r, d, p);
    CancelFactor(d, (v + 1) * r, p);
  }

  /** The trial quotient never traps and is the quotient by the truncated divisor. */
  lemma TrialQuotient(n: nat, d: nat, p: nat, r: nat, h: nat, v: nat)
    requires n < TWO64 && Scale(p, r, h) && Normalised(d, p, r, v)
    ensures n / 2 / v < TWO32
    ensures v * r > 0
    ensures n / 2 / v / h == n / (v * r)
  {
    DivDiv(n, 2, v);
    DivDiv(n, 2 * v, h);
    MulAssoc(v, 2, h);
    DivBounds(n / 2, v);
    if n / 2 / v >= TWO32 { MulMono(TWO32, n / 2 / v, v); }
  }

  /** The quotient is below twice the scaling factor. */
  lemma QuotientSmall(n: nat, d: nat, p: nat, r: nat, h: nat, v: nat)
    requires n < TWO64 && Scale(p, r, h) && Normalised(d, p, r, v)
    ensures n / d < 2 * p
  {
    var q := n / d;
    DivBounds(n, d);
    MulMono(TWO31, v, r);
    if q >= 2 * p {
      MulMono(2 * p, q, d);
      MulMono(TWO31 * r, d, 2 * p);
      WholeWord(p, r);
    }
  }

  lemma WholeWord(p: nat, r: nat)
    requires p * r == TWO32
    ensures TWO31 * r * (2 * p) == TWO64
  {
    MulAssoc(TWO31 * 2, r, p);
  }

  lemma GapBound(q0: nat, p: nat, r: nat, t: nat)
    requires q0 + 1 <= 2 * p && p * r == TWO32 && r >= 2 && TWO31 * r <= t
    ensures (q0 + 1) * (r - 1) <= t
  {
    MulMono(q0 + 1, 2 * p, r - 1);
    assert 2 * p * (r - 1) == 2 * TWO32 - 2 * p;
    if r < 4 {
      assert r == 2 || r == 3;
    }
  }

  /** Truncating the divisor overestimates the quotient by at most one. */
  lemma EstimateWithinOne(n: nat, d: nat, p: nat, r: nat, h: nat, v: nat)
    requires n < TWO64 && Scale(p, r, h) && Normalised(d, p, r, v)
    ensures v * r > 0
    ensures n / d <= n / (v * r) <= n / d + 1
  {
    var t, q0 := v * r, n / d;
    MulMono(TWO31, v, r);
    QuotientSmall(n, d, p, r, h, v);
    GapBound(q0, p, r, t);
    DivBounds(n, d);
    Squeeze(n, d, q0, t, r);
  }

  lemma Succ(a: int, b: int)
    ensures (a + 1) * b == a * b + b
  {
  }

  lemma SqueezeLow(n: nat, d: nat, q0: nat, t: nat, q: nat)
    requires 0 < t <= d && q0 * d <= n && n < (q + 1) * t
    ensures q0 <= q
  {
    MulMono(t, d, q0);
    CancelFactor(q0, q + 1, t);
  }

  lemma SqueezeHigh(n: nat, d: nat, q1: nat, t: nat, r: nat, q: nat)
    requires 0 < t && d <= t + r - 1 && n < q1 * d && q1 * (r - 1) <= t && q * t <= n
    ensures q <= q1
  {
    MulMono(d, t + (r - 1), q1);
    SplitFactor(q1, t, r - 1);
    Succ(q1, t);
    CancelFactor(q, q1 + 1, t);
  }

  lemma SplitFactor(a: int, b: int, c: int)
    ensures a * (b + c) == a * b + a * c
  {
  }

  lemma Squeeze(n: nat, d: nat, q0: nat, t: nat, r: nat)
    requires 0 < t <= d < t + r && q0 * d <= n < q0 * d + d && (q0 + 1) * (r - 1) <= t
    ensures q0 <= n / t <= q0 + 1
  {
    var q := n / t;
    DivBounds(n, t);
    Succ(q, t);
    Succ(q0, d);
    SqueezeLow(n, d, q0, t, q);
    SqueezeHigh(n, d, q0 + 1, t, r, q);
  }

  /** The one-step correction: subtracting one trial divisor too few tells the two estimates apart,
      and nothing in it wraps. */
  lemma Correction(n: nat, d: nat, q: nat)
    requires 0 < d <= n < TWO64 && n / d <= q <= n / d + 1
    ensures 1 <= q && 0 <= (q - 1) * d <= n
    ensures n / d == if n - (q - 1) * d < d then q - 1 else q
  {
    DivBounds(n, d);
    CancelFactor(0, n / d, d);
    MulMono(q - 1, n / d, d);
    assert q == n / d ==> (q - 1) * d == n / d * d - d;
  }

  /** Long division in base 2^32 by a one-digit divisor: the partial quotient never traps and
      the two partial quotients add up to the whole one. */
  lemma LongDivision(n: nat, d: nat, k: nat, rem: nat, a: nat)
    requires n < TWO64 && 0 < d < TWO32
    requires k == n / TWO32 / d && rem == n / TWO32 % d && a == TWO32 * rem + n % TWO32
    ensures a < TWO64 && a / d < TWO32
    ensures n / d == a / d + TWO32 * k < TWO64
  {
    var n1, n0 := n / TWO32, n % TWO32;
    assert n1 == k * d + rem && rem < d;
    DivBounds(a, d);
    MulAssoc(TWO32, k, d);
    if a / d >= TWO32 { MulMono(TWO32, a / d, d); }
    assert (a / d + TWO32 * k) * d == a / d * d + TWO32 * k * d;
    DivIs(n, d, a / d + TWO32 * k);
    MulMono(1, d, k);
  }

  /** `None` is the divide error, which happens for a zero divisor and no other. */
  method UDiv64(n: nat, d: nat) returns (r: Option<nat>)
    requires n < TWO64 && d < TWO64
    ensures d == 0 ==> r == None
    ensures d != 0 ==> r == Some(n / d)
  {
    if d / TWO32 == 0 {
      r := DivideByWord(n, d);
    } else if n < d {
      DivIs(n, d, 0);
      r := Some(0);
    } else {
      r := DivideByLong(n, d);
    }
  }

  method DivideByWord(n: nat, d: nat) returns (r: Option<nat>)
    requires n < TWO64 && d < TWO32
    ensures r == if d == 0 then None else Some(n / d)
  {
    var n1, n0, d0 := n / TWO32, n % TWO32, d;
    if d0 == 0 { return None; }
    var k, rem := n1 / d0, n1 % d0;
    LongDivision(n, d, k, rem, TWO32 * rem + n0);
    var low := Divl(TWO32 * rem + n0, d0);
    r := if low == None then None else Some(Wrap64(low.value + TWO32 * k));
  }

  method DivideByLong(n: nat, d: nat) returns (r: Option<nat>)
    requires TWO32 <= d <= n < TWO64
    ensures r == Some(n / d)
  {
    var d1 := d / TWO32;
    var s := Nlz(d1);
    ShlIs(d1, s);
    ScaleOf(s);
    var p, h := Pow2(s), Pow2(31 - s);
    ghost var c := Pow2(32 - s);
    NormaliseDivisor(d, p, c, h);
    var v := Wrap64(d * p) / TWO32;
    TrialQuotient(n, d, p, c, h, v);
    EstimateWithinOne(n, d, p, c, h, v);
    var trial := Divl(n / 2, v);
    if trial == None { return None; }
    var q := trial.value / h;
    Correction(n, d, q);
    r := Some(if Wrap64(n - Wrap64((q - 1) * d)) < d then q - 1 else q);
  }

  // ---------------------------------------------------------------- signed division and remainders

  /** Conversion to a signed word keeps the low bits. */
  function Int64(x: int): (r: int)
    ensures -TWO63 <= r < TWO63
    ensures -TWO63 <= x < TWO63 ==> r == x
  {
    if Wrap64(x) < TWO63 then Wrap64(x) else Wrap64(x) - TWO64
  }

  function Int32(x: int): (r: int)
    ensures -TWO31 <= r < TWO31
    ensures -TWO31 <= x < TWO31 ==> r == x
  {
    if x % TWO32 < TWO31 then x % TWO32 else x % TWO32 - TWO32
  }

  function Abs(x: int): nat { if x < 0 then -x else x }

  /** The magnitude of a signed word, negated as an unsigned one. */
  function AbsWord(x: int): (r: nat)
    requires -TWO63 <= x < TWO63
    ensures r == Abs(x)
  {
    if x >= 0 then x else
      WrapNegative(x);
      Wrap64(0 - Wrap64(x))
  }

  lemma WrapNegative(x: int)
    requires -TWO63 <= x < 0
    ensures Wrap64(x) == x + TWO64
  {
  }

  /** q is the quotient truncated toward zero: the remainder is smaller than the divisor and
      does not have the opposite sign to the dividend. */
  ghost predicate Truncates(n: int, d: int, q: int)
  {
    Abs(n - q * d) < Abs(d) && (0 <= n ==> 0 <= n - q * d) && (n <= 0 ==> n - q * d <= 0)
  }

  /** The remainder that goes with the truncated quotient. */
  function TruncRem(n: int, d: int): int
    requires d != 0
  {
    if n >= 0 then n % Abs(d) else -(-n % Abs(d))
  }

  lemma NegMul(a: int, d: int)
    ensures (0 - a) * d == 0 - a * d && a * (0 - d) == 0 - a * d && (0 - a) * (0 - d) == a * d
  {
  }

  /** The quotient of the magnitudes with the sign put back. */
  function SignedQuot(n: int, d: int, a: int): int { if (n < 0) == (d < 0) then a else 0 - a }

  lemma SignedQuotient(n: int, d: int, a: int)
    requires d != 0 && a == Abs(n) / Abs(d)
    ensures Truncates(n, d, SignedQuot(n, d, a)) && n - SignedQuot(n, d, a) * d == TruncRem(n, d)
  {
    var m, e := Abs(n), Abs(d);
    DivBounds(m, e);
    ModIs(m, e);
    NegMul(a, e);
    var x := a * e;
    assert SignedQuot(n, d, a) * d == if n < 0 then 0 - x else x;
  }

  lemma ModIs(n: nat, d: nat)
    requires d > 0
    ensures n % d == n - n / d * d
  {
  }

  lemma QuotientFits(n: nat, d: nat)
    requires d > 0
    ensures n / d <= n
    ensures d >= 2 ==> n / d * 2 <= n
  {
    DivBounds(n, d);
    MulMono(1, d, n / d);
    if d >= 2 { MulMono(2, d, n / d); }
  }

  /** The one magnitude that has no signed word of its own. */
  lemma Int64Edge()
    ensures Int64(TWO63) == -TWO63
  {
  }

  /** The sign put back on a magnitude held in an unsigned word. */
  function SignedWord(n: int, d: int, a: nat): int
  {
    if (n < 0) == (d < 0) then Int64(a) else Int64(0 - Int64(a))
  }

  /** What the conversions to and from unsigned words leave of the signed quotient. */
  lemma SignedResult(n: int, d: int, a: nat)
    requires a <= TWO63 && (a == TWO63 ==> n == -TWO63 && (d == 1 || d == -1))
    requires a != TWO63 ==> !(n == -TWO63 && d == -1)
    ensures SignedWord(n, d, a) == if n == -TWO63 && d == -1 then -TWO63 else SignedQuot(n, d, a)
  {
    Int64Edge();
  }

  lemma SignedDivision(n: int, d: int, a: nat, r: int)
    requires -TWO63 <= n < TWO63 && d != 0 && a == Abs(n) / Abs(d) && r == SignedWord(n, d, a)
    ensures Truncates(n, d, r) <==> !(n == -TWO63 && d == -1)
    ensures n == -TWO63 && d == -1 ==> r == -TWO63
    ensures !(n == -TWO63 && d == -1) ==> n - r * d == TruncRem(n, d)
  {
    QuotientRange(n, d, a);
    SignedResult(n, d, a);
    SignedQuotient(n, d, a);
  }

  lemma QuotientRange(n: int, d: int, a: nat)
    requires -TWO63 <= n < TWO63 && d != 0 && a == Abs(n) / Abs(d)
    ensures a <= TWO63 && (a == TWO63 ==> n == -TWO63 && (d == 1 || d == -1))
    ensures a != TWO63 ==> !(n == -TWO63 && d == -1)
    ensures n == -TWO63 && d == -1 ==> !Truncates(n, d, -TWO63)
  {
    QuotientFits(Abs(n), Abs(d));
    if Abs(d) == 1 { DivIs(Abs(n), Abs(d), Abs(n)); }
  }

  /** The result is the truncated quotient exactly when that quotient is representable. */
  method SDiv64(n: int, d: int) returns (r: Option<int>)
    requires -TWO63 <= n < TWO63 && -TWO63 <= d < TWO63
    ensures d == 0 ==> r == None
    ensures d != 0 ==> r.Some? && -TWO63 <= r.value < TWO63
    ensures d != 0 ==> (Truncates(n, d, r.value) <==> !(n == -TWO63 && d == -1))
    ensures n == -TWO63 && d == -1 ==> r == Some(-TWO63)
    ensures d != 0 && !(n == -TWO63 && d == -1) ==> n - r.value * d == TruncRem(n, d)
  {
    var nAbs := AbsWord(n);
    var dAbs := AbsWord(d);
    var q := UDiv64(nAbs, dAbs);
    if q == None { return None; }
    SignedDivision(n, d, q.value, SignedWord(n, d, q.value));
    r := Some(SignedWord(n, d, q.value));
  }

  /** The 32-bit return type keeps only the low word of the remainder. */
  method UMod64(n: nat, d: nat) returns (r: Option<nat>)
    requires n < TWO64 && d < TWO64
    ensures r == if d == 0 then None else Some(Low32(TruncRem(n, d)))
  {
    var q := UDiv64(n, d);
    if q == None { return None; }
    assert d * q.value == n - n % d;
    r := Some(Low32(Wrap64(n - Wrap64(d * q.value))));
  }

  method SMod64(n: int, d: int) returns (r: Option<int>)
    requires -TWO63 <= n < TWO63 && -TWO63 <= d < TWO63
    ensures r == if d == 0 then None else Some(Int32(TruncRem(n, d)))
  {
    var q := SDiv64(n, d);
    if q == None { return None; }
    r := Some(Int32(Int64(n - Int64(d * q.value))));
    RemFits(n, d);
    if !(n == -TWO63 && d == -1) {
      assert d * q.value == n - TruncRem(n, d);
    }
  }

  lemma RemFits(n: int, d: int)
    requires d != 0
    ensures Abs(TruncRem(n, d)) <= Abs(n) && Abs(TruncRem(n, d)) < Abs(d)
  {
    ModBounds(Abs(n), Abs(d));
  }

  lemma ModBounds(n: nat, d: nat)
    requires d > 0
    ensures 0 <= n % d < d && n % d <= n
    ensures n < d ==> n % d == n
  {
  }

  /** The unsigned result is the full remainder for every dividend exactly when d is at most 2^32. */
  lemma UModExact(d: nat)
    requires 0 < d < TWO64
    ensures (forall n: nat | n < TWO64 :: Low32(TruncRem(n, d)) == TruncRem(n, d)) <==> d <= TWO32
  {
    if d > TWO32 {
      ModBounds(TWO32, d);
      assert Low32(TruncRem(TWO32, d)) != TruncRem(TWO32, d);
    } else {
      forall n: nat | n < TWO64
        ensures Low32(TruncRem(n, d)) == TruncRem(n, d)
      {
        RemFits(n, d);
      }
    }
  }

  /** The signed result is the full remainder for every dividend exactly when |d| is at most 2^31. */
  lemma SModExact(d: int)
    requires d != 0 && -TWO63 <= d < TWO63
    ensures (forall n: int | -TWO63 <= n < TWO63 :: Int32(TruncRem(n, d)) == TruncRem(n, d)) <==> Abs(d) <= TWO31
  {
    if Abs(d) > TWO31 {
      ModBounds(TWO31, Abs(d));
      assert Int32(TruncRem(TWO31, d)) != TruncRem(TWO31, d);
    } else {
      forall n: int | -TWO63 <= n < TWO63
        ensures Int32(TruncRem(n, d)) == TruncRem(n, d)
      {
        RemFits(n, d);
      }
    }
  }
}
