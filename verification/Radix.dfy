/** Positional numerals, most significant digit first: the common ground of the base58 codec,
    the 8-to-5-bit regrouping of segwit addresses and the multiword target arithmetic. */
module Radix {

  function Pow(b: nat, e: nat): nat {
    if e == 0 then 1 else Pow(b, e - 1) * b
  }

  predicate Digits(d: seq<nat>, b: nat) { forall i | 0 <= i < |d| :: d[i] < b }

  function Value(d: seq<nat>, b: nat): nat {
    if d == [] then 0 else Value(d[..|d| - 1], b) * b + d[|d| - 1]
  }

  /** The n low digits of v. */
  function ToDigits(v: nat, b: nat, n: nat): (d: seq<nat>)
    requires b > 0
    ensures |d| == n && Digits(d, b)
    decreases n
  {
    if n == 0 then [] else ToDigits(v / b, b, n - 1) + [v % b]
  }

  function Zeros(n: nat): (z: seq<nat>)
    ensures |z| == n && forall i | 0 <= i < n :: z[i] == 0
  {
    seq(n, i => 0)
  }

  /** All digits of v, without leading zeros. */
  function MinDigits(v: nat, b: nat): seq<nat>
    requires b >= 2
    decreases v
  {
    if v == 0 then [] else Quotient(v, b); MinDigits(v / b, b) + [v % b]
  }

  // ---- arithmetic ----

  lemma Quotient(v: nat, b: nat)
    requires v > 0 && b >= 2
    ensures v / b < v
  {
    DivMod(v, b);
    if v / b >= v {
      MulMono(2, b, v / b);
    }
  }

  lemma MulAssoc(a: nat, b: nat, c: nat)
    ensures a * (b * c) == (a * b) * c
  {
  }

  lemma MulDist(a: nat, b: nat, c: nat)
    ensures (a + b) * c == a * c + b * c
  {
  }

  lemma MulMono(a: nat, b: nat, c: nat)
    requires a <= b
    ensures a * c <= b * c
  {
    assert (b - a) * c >= 0;
  }

  lemma MulMonoStrict(a: nat, b: nat, c: nat)
    requires a < b && c > 0
    ensures a * c < b * c
  {
    assert (b - a) * c > 0;
  }

  /** Quotient and remainder are unique. */
  lemma DivModUnique(x: nat, d: nat, q: nat, r: nat)
    requires x == q * d + r && r < d
    ensures x / d == q && x % d == r
  {
    var q', r' := x / d, x % d;
    assert q' * d + r' == x;
    assert (q' + 1) * d == q' * d + d && (q + 1) * d == q * d + d;
    if q' < q {
      MulMono(q' + 1, q, d);
    } else if q < q' {
      MulMono(q + 1, q', d);
    }
  }

  lemma DivMod(x: nat, d: nat)
    requires d > 0
    ensures x == (x / d) * d + x % d && x % d < d
  {
  }

  /** Middle digits: dropping a low block and keeping a middle one commute. */
  lemma DivOfMod(v: nat, a: nat, b: nat)
    requires a > 0 && b > 0
    ensures a * b > 0
    ensures (v / a) % b == (v % (a * b)) / a
    ensures v / (a * b) == (v / a) / b
    ensures (v % (a * b)) % a == v % a
  {
    MulMonoStrict(0, a, b);
    var q, r := (v / a) / b, (v / a) % b;
    DivMod(v, a);
    DivMod(v / a, b);
    MulDist(q * b, r, a);
    MulAssoc(q, b, a);
    var m := a * b;
    assert b * a == m;
    assert v == q * m + (r * a + v % a);
    MulMono(r + 1, b, a);
    MulDist(r, 1, a);
    DivModUnique(v, m, q, r * a + v % a);
    DivModUnique(r * a + v % a, a, r, v % a);
  }

  lemma {:induction false} PowPositive(b: nat, e: nat)
    requires b > 0
    ensures Pow(b, e) > 0
  {
    if e > 0 {
      PowPositive(b, e - 1);
      MulMonoStrict(0, Pow(b, e - 1), b);
    }
  }

  lemma {:induction false} PowAdd(b: nat, m: nat, n: nat)
    ensures Pow(b, m + n) == Pow(b, m) * Pow(b, n)
    decreases n
  {
    if n > 0 {
      PowAdd(b, m, n - 1);
      MulAssoc(Pow(b, m), Pow(b, n - 1), b);
    }
  }

  lemma {:induction false} PowMul(b: nat, m: nat, n: nat)
    ensures Pow(Pow(b, m), n) == Pow(b, m * n)
    decreases n
  {
    if n > 0 {
      PowMul(b, m, n - 1);
      assert m * (n - 1) + m == m * n;
      PowAdd(b, m * (n - 1), m);
    } else {
      assert m * 0 == 0;
    }
  }

  lemma {:induction false} PowMonoBase(a: nat, b: nat, e: nat)
    requires a <= b
    ensures Pow(a, e) <= Pow(b, e)
  {
    if e > 0 {
      PowMonoBase(a, b, e - 1);
      MulMono(Pow(a, e - 1), Pow(b, e - 1), a);
      MulMono(a, b, Pow(b, e - 1));
      assert Pow(b, e - 1) * a == a * Pow(b, e - 1) && Pow(b, e - 1) * b == b * Pow(b, e - 1);
    }
  }

  lemma PowMonoExp(b: nat, m: nat, n: nat)
    requires b > 0 && m <= n
    ensures Pow(b, m) <= Pow(b, n)
  {
    PowAdd(b, n - m, m);
    PowPositive(b, n - m);
    MulMono(1, Pow(b, n - m), Pow(b, m));
  }

  // ---- values of digit strings ----

  lemma ValueSnoc(d: seq<nat>, x: nat, b: nat)
    ensures Value(d + [x], b) == Value(d, b) * b + x
  {
    assert (d + [x])[..|d|] == d;
  }

  lemma {:induction false} ValueConcat(d: seq<nat>, e: seq<nat>, b: nat)
    ensures Value(d + e, b) == Value(d, b) * Pow(b, |e|) + Value(e, b)
    decreases |e|
  {
    if e == [] {
      assert d + e == d;
    } else {
      var e', x := e[..|e| - 1], e[|e| - 1];
      ValueConcat(d, e', b);
      assert d + e == (d + e') + [x];
      ValueSnoc(d + e', x, b);
      MulDist(Value(d, b) * Pow(b, |e'|), Value(e', b), b);
      MulAssoc(Value(d, b), Pow(b, |e'|), b);
    }
  }

  lemma ValueCons(x: nat, e: seq<nat>, b: nat)
    ensures Value([x] + e, b) == x * Pow(b, |e|) + Value(e, b)
  {
    ValueConcat([x], e, b);
    ValueSnoc([], x, b);
    assert [] + [x] == [x];
  }

  lemma {:induction false} ValueBound(d: seq<nat>, b: nat)
    requires Digits(d, b)
    ensures Value(d, b) < Pow(b, |d|)
    decreases |d|
  {
    if d != [] {
      var d' := d[..|d| - 1];
      ValueBound(d', b);
      MulMono(Value(d', b), Pow(b, |d'|) - 1, b);
      assert (Pow(b, |d'|) - 1) * b == Pow(b, |d'|) * b - b;
    }
  }

  lemma {:induction false} ZerosValue(n: nat, b: nat)
    ensures Value(Zeros(n), b) == 0
  {
    if n > 0 {
      assert Zeros(n)[..n - 1] == Zeros(n - 1);
      ZerosValue(n - 1, b);
    }
  }

  lemma {:induction false} ValueOfToDigits(v: nat, b: nat, n: nat)
    requires b > 0
    ensures Pow(b, n) > 0 && Value(ToDigits(v, b, n), b) == v % Pow(b, n)
    decreases n
  {
    PowPositive(b, n);
    if n > 0 {
      ValueOfToDigits(v / b, b, n - 1);
      ValueSnoc(ToDigits(v / b, b, n - 1), v % b, b);
      LowBlock(v, b, Pow(b, n - 1));
    }
  }

  lemma LowBlock(v: nat, b: nat, p: nat)
    requires b > 0 && p > 0
    ensures p * b > 0 && ((v / b) % p) * b + v % b == v % (p * b)
  {
    DivOfMod(v, b, p);
    var m := b * p;
    assert p * b == m;
    DivMod(v % m, b);
  }

  lemma ToDigitsFits(v: nat, b: nat, n: nat)
    requires b > 0 && v < Pow(b, n)
    ensures Value(ToDigits(v, b, n), b) == v
  {
    ValueOfToDigits(v, b, n);
    DivModUnique(v, Pow(b, n), 0, v);
  }

  lemma {:induction false} ToDigitsOfValue(d: seq<nat>, b: nat)
    requires b > 0 && Digits(d, b)
    ensures ToDigits(Value(d, b), b, |d|) == d
    decreases |d|
  {
    if d != [] {
      var d', x := d[..|d| - 1], d[|d| - 1];
      ToDigitsOfValue(d', b);
      DivModUnique(Value(d, b), b, Value(d', b), x);
      assert d == d' + [x];
    }
  }

  /** The digits of a number made of a high and a low block. */
  lemma {:induction false} ToDigitsConcat(hi: nat, lo: nat, b: nat, m: nat, n: nat)
    requires b > 0 && lo < Pow(b, n)
    ensures ToDigits(hi * Pow(b, n) + lo, b, m + n) == ToDigits(hi, b, m) + ToDigits(lo, b, n)
    decreases n
  {
    if n == 0 {
      assert hi * 1 == hi;
      assert ToDigits(hi, b, m) + [] == ToDigits(hi, b, m);
    } else {
      SplitLow(hi, lo, Pow(b, n - 1), b);
      ToDigitsConcat(hi, lo / b, b, m, n - 1);
      assert ToDigits(hi, b, m) + (ToDigits(lo / b, b, n - 1) + [lo % b])
          == (ToDigits(hi, b, m) + ToDigits(lo / b, b, n - 1)) + [lo % b];
    }
  }

  lemma SplitLow(hi: nat, lo: nat, p: nat, b: nat)
    requires b > 0 && lo < p * b
    ensures (hi * (p * b) + lo) / b == hi * p + lo / b
    ensures (hi * (p * b) + lo) % b == lo % b
    ensures lo / b < p
  {
    DivMod(lo, b);
    MulAssoc(hi, p, b);
    MulDist(hi * p, lo / b, b);
    DivModUnique(hi * (p * b) + lo, b, hi * p + lo / b, lo % b);
    if lo / b >= p {
      MulMono(p, lo / b, b);
    }
  }

  lemma {:induction false} MinDigitsValue(v: nat, b: nat)
    requires b >= 2
    ensures Value(MinDigits(v, b), b) == v && Digits(MinDigits(v, b), b)
    ensures v > 0 ==> MinDigits(v, b) != [] && MinDigits(v, b)[0] != 0
    decreases v
  {
    if v > 0 {
      Quotient(v, b);
      MinDigitsValue(v / b, b);
      OneMoreDigit(MinDigits(v / b, b), v % b, v / b, v, b);
    }
  }

  lemma OneMoreDigit(m: seq<nat>, x: nat, q: nat, v: nat, b: nat)
    requires b >= 2 && x < b && v > 0 && q == v / b && x == v % b
    requires Value(m, b) == q && Digits(m, b) && (q > 0 ==> m != [] && m[0] != 0) && (q == 0 ==> m == [])
    ensures Value(m + [x], b) == v && Digits(m + [x], b) && (m + [x])[0] != 0
  {
    ValueSnoc(m, x, b);
    DivMod(v, b);
    assert v == q * b + x;
  }

  /** Dropping the leading zeros of a numeral gives the minimal one. */
  lemma {:induction false} StripZeros(d: seq<nat>, k: nat, b: nat)
    requires b >= 2 && Digits(d, b) && k <= |d|
    requires forall i | 0 <= i < k :: d[i] == 0
    requires k < |d| ==> d[k] != 0
    ensures d[k..] == MinDigits(Value(d, b), b)
    decreases |d|
  {
    if |d| == k {
      assert d == Zeros(k);
      ZerosValue(k, b);
    } else {
      var d', x := d[..|d| - 1], d[|d| - 1];
      assert d == d' + [x];
      DivModUnique(Value(d, b), b, Value(d', b), x);
      if k == |d'| {
        assert d' == Zeros(k);
        ZerosValue(k, b);
        assert MinDigits(0, b) == [];
        assert d[k..] == [x];
      } else {
        StripZeros(d', k, b);
        assert d[k..] == d'[k..] + [x];
        assert Value(d', b) > 0 by { MinDigitsValue(Value(d', b), b); }
      }
    }
  }

  /** The number of digits is right: b^(len-1) <= v < b^len. */
  lemma {:induction false} MinDigitsLength(v: nat, b: nat, n: nat)
    requires b >= 2
    ensures v < Pow(b, n) <==> |MinDigits(v, b)| <= n
    decreases n
  {
    if v == 0 {
      PowPositive(b, n);
    } else if n > 0 {
      Quotient(v, b);
      MinDigitsLength(v / b, b, n - 1);
      DivMod(v, b);
      if v / b < Pow(b, n - 1) {
        MulMono(v / b, Pow(b, n - 1) - 1, b);
        assert (Pow(b, n - 1) - 1) * b == Pow(b, n - 1) * b - b;
      } else {
        MulMono(Pow(b, n - 1), v / b, b);
      }
    }
  }

  // ---- little-endian bytes ----

  function LE(v: nat, n: nat): (b: seq<nat>)
    ensures |b| == n
  {
    if n == 0 then [] else [v % 256] + LE(v / 256, n - 1)
  }

  function FromLE(b: seq<nat>): nat { if b == [] then 0 else b[0] + 256 * FromLE(b[1..]) }

  lemma {:induction false} LittleEndian(v: nat, n: nat)
    requires v < Pow(256, n)
    ensures FromLE(LE(v, n)) == v
    decreases n
  {
    if n > 0 {
      assert v / 256 < Pow(256, n - 1);
      LittleEndian(v / 256, n - 1);
      assert LE(v, n)[1..] == LE(v / 256, n - 1);
    }
  }

  lemma {:induction false} FromLEConcat(a: seq<nat>, b: seq<nat>)
    ensures FromLE(a + b) == FromLE(a) + Pow(256, |a|) * FromLE(b)
    decreases |a|
  {
    if a == [] {
      assert a + b == b;
    } else {
      FromLEConcat(a[1..], b);
      assert (a + b)[1..] == a[1..] + b;
      MulAssoc(256, Pow(256, |a| - 1), FromLE(b));
    }
  }

  lemma {:induction false} FromLEBound(b: seq<nat>)
    requires Digits(b, 256)
    ensures FromLE(b) < Pow(256, |b|)
    decreases |b|
  {
    if b != [] { FromLEBound(b[1..]); }
  }

  lemma {:induction false} FromLEZeros(b: seq<nat>)
    requires forall i | 0 <= i < |b| :: b[i] == 0
    ensures FromLE(b) == 0
    decreases |b|
  {
    if b != [] { FromLEZeros(b[1..]); }
  }

  /** Byte j of the little-endian form. */
  lemma {:induction false} LEByte(v: nat, n: nat, j: nat)
    requires j < n && Pow(256, j) > 0
    ensures LE(v, n)[j] == (v / Pow(256, j)) % 256
    decreases j
  {
    if j == 0 {
      assert Pow(256, 0) == 1;
    } else {
      PowPositive(256, j - 1);
      LEByte(v / 256, n - 1, j - 1);
      DivOfMod(v, 256, Pow(256, j - 1));
      assert Pow(256, j) == 256 * Pow(256, j - 1);
    }
  }
}
