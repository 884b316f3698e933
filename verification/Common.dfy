/** Shared vocabulary: optional values, word sizes, sequences without repetition, C strings, division. */
module Common {
  datatype Option<+T> = None | Some(value: T)

  const TWO31: int := 0x8000_0000
  const TWO32: int := 0x1_0000_0000
  const TWO63: int := 0x8000_0000_0000_0000
  const TWO64: int := 0x1_0000_0000_0000_0000

  type Byte = b: int | 0 <= b < 256

  ghost predicate NoDup<T>(q: seq<T>) { forall i, j :: 0 <= i < j < |q| ==> q[i] != q[j] }

  lemma SubsetSize<T>(s: set<T>, t: set<T>)
    requires s <= t
    ensures |s| <= |t| && (|s| == |t| ==> s == t)
  {
    assert t == s + (t - s);
    if |s| == |t| { assert t - s == {}; }
  }

  /** The bytes before the first null byte. */
  function CStr(b: seq<Byte>): seq<Byte> { if b == [] || b[0] == 0 then [] else [b[0]] + CStr(b[1..]) }

  ghost predicate NoNull(s: seq<Byte>) { forall i :: 0 <= i < |s| ==> s[i] != 0 }

  lemma {:induction false} CStrTerminated(s: seq<Byte>, junk: seq<Byte>)
    requires NoNull(s)
    ensures CStr(s + [0] + junk) == s
  {
    var b := s + [0] + junk;
    if s != [] {
      assert b[1..] == s[1..] + [0] + junk;
      CStrTerminated(s[1..], junk);
    }
  }

  function Min(a: int, b: int): int { if a < b then a else b }

  function Max(a: int, b: int): int { if a < b then b else a }

  function Pow2(k: nat): (p: nat)
    ensures p >= 1
  {
    if k == 0 then 1 else 2 * Pow2(k - 1)
  }

  lemma {:induction false} Pow2Add(j: nat, k: nat)
    ensures Pow2(j + k) == Pow2(j) * Pow2(k)
  {
    if j == 0 {
    } else {
      Pow2Add(j - 1, k);
      assert Pow2(j + k) == 2 * (Pow2(j - 1) * Pow2(k));
    }
  }

  lemma Pow2Words()
    ensures Pow2(16) == 0x1_0000 && Pow2(31) == TWO31 && Pow2(32) == TWO32 && Pow2(33) == 2 * TWO32
    ensures Pow2(63) == TWO63 && Pow2(64) == TWO64
  {
    assert Pow2(8) == 256;
    Pow2Add(8, 8);
    Pow2Add(16, 16);
    Pow2Add(32, 32);
    assert Pow2(32) == 2 * Pow2(31) && Pow2(64) == 2 * Pow2(63) && Pow2(33) == 2 * Pow2(32);
  }

  lemma MulAssoc(a: int, b: int, c: int)
    ensures a * (b * c) == a * b * c
  {
  }

  lemma MulMono(a: int, b: int, d: nat)
    requires a <= b
    ensures a * d <= b * d
  {
  }

  /** Division is pinned down by its defining inequality. */
  lemma DivIs(n: int, d: int, q: int)
    requires d > 0 && q * d <= n < q * d + d
    ensures n / d == q
  {
    var p := n / d;
    if p < q {
      MulMono(p + 1, q, d);
    } else if q < p {
      MulMono(q + 1, p, d);
    }
  }

  lemma DivIsMono(n: nat, n': nat, d: nat)
    requires d > 0 && n <= n'
    ensures n / d <= n' / d
  {
    DivBounds(n, d);
    DivBounds(n', d);
    if n' / d < n / d { MulMono(n' / d + 1, n / d, d); }
  }

  lemma DivBounds(n: int, d: int)
    requires d > 0
    ensures n / d * d <= n < n / d * d + d
  {
  }

  /** Dividing twice is dividing by the product. */
  lemma DivDiv(n: nat, a: nat, b: nat)
    requires a > 0 && b > 0
    ensures a * b > 0 && n / a / b == n / (a * b)
  {
    var p := n / a;
    var q := p / b;
    DivBounds(n, a);
    DivBounds(p, b);
    MulMono(q * b, p, a);
    MulMono(p + 1, q * b + b, a);
    ProductFacts(q, a, b);
    DivIs(n, a * b, q);
  }

  lemma ProductFacts(q: int, a: int, b: int)
    requires a > 0 && b > 0
    ensures a * b > 0
    ensures q * b * a == q * (a * b) && (q * b + b) * a == q * (a * b) + a * b
  {
  }
}
