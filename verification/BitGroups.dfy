/** convert_bits of src/thirdparty_segwit_addr.c: regrouping bytes into five-bit groups and back
    through a 32-bit accumulator that is allowed to overflow at the top. */
module BitGroups {
  import opened Wrappers
  import opened Radix

  const U32: nat := 0x1_0000_0000

  /** Groups of `to` bits that hold n groups of `from` bits, and the bits left over. */
  function Full(n: nat, from: nat, to: nat): nat
    requires to > 0
  {
    n * from / to
  }
  function Spare(n: nat, from: nat, to: nat): nat
    requires to > 0
  {
    n * from % to
  }

  /** With padding: the same number, shifted up to whole groups. */
  function Padded(d: seq<nat>, from: nat, to: nat): seq<nat>
    requires to > 0
  {
    var rest := Spare(|d|, from, to);
    PowPositive(2, to);
    if rest == 0 then ToDigits(Value(d, Pow(2, from)), Pow(2, to), Full(|d|, from, to))
    else ToDigits(Value(d, Pow(2, from)) * Pow(2, to - rest), Pow(2, to), Full(|d|, from, to) + 1)
  }

  /** Without padding: less than one input group may be left over, and it must be zero. */
  function Unpadded(d: seq<nat>, from: nat, to: nat): Option<seq<nat>>
    requires to > 0
  {
    var rest := Spare(|d|, from, to);
    PowPositive(2, rest);
    PowPositive(2, to);
    if rest >= from || Value(d, Pow(2, from)) % Pow(2, rest) != 0 then None
    else Some(ToDigits(Value(d, Pow(2, from)) / Pow(2, rest), Pow(2, to), Full(|d|, from, to)))
  }

  // ---- the accumulator ----

  /** Shifting a group in, modulo 2^32, shifts it into the low bits that are still wanted. */
  lemma PushIn(val: nat, bits: nat, from: nat, x: nat)
    requires bits + from <= 32 && x < Pow(2, from)
    ensures Pow(2, bits + from) > 0 && Pow(2, bits) > 0
    ensures ((val * Pow(2, from)) % U32 + x) % Pow(2, bits + from) == (val % Pow(2, bits)) * Pow(2, from) + x
  {
    PowPositive(2, bits + from);
    PowPositive(2, bits);
    PowPositive(2, 32 - (bits + from));
    PowAdd(2, bits, from);
    Factors32(bits + from);
    var w := val * Pow(2, from);
    DropHigh(w, x, Pow(2, bits + from), Pow(2, 32 - (bits + from)), U32);
    LowPart(val, x, Pow(2, from), Pow(2, bits), Pow(2, bits + from));
  }

  lemma TwoTo32()
    ensures Pow(2, 32) == U32
  {
    PowMul(2, 8, 4);
    assert Pow(2, 8) == 256;
    assert Pow(256, 4) == U32;
  }

  lemma Factors32(k: nat)
    requires k <= 32
    ensures Pow(2, k) * Pow(2, 32 - k) == U32
  {
    PowAdd(2, k, 32 - k);
    TwoTo32();
  }

  lemma LowPart(val: nat, x: nat, F: nat, B: nat, P: nat)
    requires x < F && B > 0 && P == B * F > 0
    ensures (val * F + x) % P == (val % B) * F + x
  {
    var q, m := val / B, val % B;
    DivMod(val, B);
    MulDist(q * B, m, F);
    MulAssoc(q, B, F);
    MulMono(m + 1, B, F);
    MulDist(m, 1, F);
    DivModUnique(val * F + x, P, q, m * F + x);
  }

  lemma DropHigh(w: nat, x: nat, A: nat, B: nat, m: nat)
    requires A > 0 && B > 0 && m == A * B > 0
    ensures (w % m + x) % A == (w + x) % A
  {
    DivMod(w, m);
    MulAssoc(w / m, B, A);
    assert B * A == m;
    ModMultiple((w / m) * B, A, w % m + x);
  }

  lemma ModMultiple(k: nat, A: nat, y: nat)
    requires A > 0
    ensures (k * A + y) % A == y % A
  {
    DivMod(y, A);
    MulDist(k, y / A, A);
    DivModUnique(k * A + y, A, k + y / A, y % A);
  }

  /** Taking the top group out of the pending bits. */
  lemma TakeOut(val: nat, bits: nat, to: nat)
    requires to <= bits
    ensures Pow(2, bits) > 0 && Pow(2, bits - to) > 0 && Pow(2, to) > 0
    ensures val % Pow(2, bits) == ((val / Pow(2, bits - to)) % Pow(2, to)) * Pow(2, bits - to) + val % Pow(2, bits - to)
  {
    PowPositive(2, bits);
    PowPositive(2, bits - to);
    PowPositive(2, to);
    PowAdd(2, bits - to, to);
    var A, B := Pow(2, bits - to), Pow(2, to);
    DivOfMod(val, A, B);
    DivMod(val % (A * B), A);
  }

  /** The number read so far is the groups written, then the pending bits. */
  ghost predicate Pending(v: nat, out: seq<nat>, val: nat, bits: nat, to: nat) {
    && Pow(2, bits) > 0
    && v == Value(out, Pow(2, to)) * Pow(2, bits) + val % Pow(2, bits)
    && Digits(out, Pow(2, to))
  }

  lemma PendingIn(v: nat, out: seq<nat>, val: nat, bits: nat, to: nat, from: nat, x: nat)
    requires Pending(v, out, val, bits, to) && bits + from <= 32 && x < Pow(2, from)
    ensures Pending(v * Pow(2, from) + x, out, (val * Pow(2, from)) % U32 + x, bits + from, to)
  {
    PushIn(val, bits, from, x);
    var F, B, o := Pow(2, from), Pow(2, bits), Value(out, Pow(2, to));
    PowAdd(2, bits, from);
    BitsArrive(o, B, F, val % B);
  }

  lemma BitsArrive(o: nat, B: nat, F: nat, low: nat)
    ensures (o * B + low) * F == o * (B * F) + low * F
  {
    MulDist(o * B, low, F);
    MulAssoc(o, B, F);
  }

  lemma PendingOut(v: nat, out: seq<nat>, val: nat, bits: nat, to: nat, digit: nat)
    requires Pending(v, out, val, bits, to) && to <= bits
    requires Pow(2, bits - to) > 0 && Pow(2, to) > 0 && digit == (val / Pow(2, bits - to)) % Pow(2, to)
    ensures Pending(v, out + [digit], val, bits - to, to)
  {
    TakeOut(val, bits, to);
    var T, R, o := Pow(2, to), Pow(2, bits - to), Value(out, Pow(2, to));
    PowAdd(2, to, bits - to);
    ValueSnoc(out, digit, T);
    GroupMoves(o, T, R, digit, val % R);
  }

  /** A group moved from the pending part to the written one. */
  lemma GroupMoves(o: nat, T: nat, R: nat, digit: nat, low: nat)
    ensures o * (T * R) + (digit * R + low) == (o * T + digit) * R + low
  {
    MulDist(o * T, digit, R);
    MulAssoc(o, T, R);
  }

  predicate KnownSizes(from: nat, to: nat) { (from == 8 && to == 5) || (from == 5 && to == 8) }

  /** The inner loop: write groups while enough bits are pending. */
  method Drain(ghost v: nat, out0: seq<nat>, val: nat, bits0: nat, to: nat) returns (out: seq<nat>, bits: nat)
    requires to > 0 && Pending(v, out0, val, bits0, to)
    ensures bits < to && |out| * to + bits == |out0| * to + bits0
    ensures Pending(v, out, val, bits, to)
  {
    out, bits := out0, bits0;
    PowPositive(2, to);
    while bits >= to
      invariant |out| * to + bits == |out0| * to + bits0
      invariant Pending(v, out, val, bits, to)
    {
      PowPositive(2, bits - to);
      var digit := (val / Pow(2, bits - to)) % Pow(2, to);
      PendingOut(v, out, val, bits, to, digit);
      MulDist(|out|, 1, to);
      bits := bits - to;
      out := out + [digit];
    }
  }

  /** The grouping loop: all whole groups, and the accumulator with the bits left over. */
  method Regroup(d: seq<nat>, from: nat, to: nat) returns (out: seq<nat>, val: nat, bits: nat)
    requires KnownSizes(from, to) && Digits(d, Pow(2, from))
    ensures |out| == Full(|d|, from, to) && bits == Spare(|d|, from, to)
    ensures Pending(Value(d, Pow(2, from)), out, val, bits, to)
  {
    out, val, bits := [], 0, 0;
    assert Pow(2, 0) == 1;
    ghost var base := Pow(2, from);
    for k := 0 to |d|
      invariant bits < to && |out| * to + bits == k * from
      invariant Pending(Value(d[..k], base), out, val, bits, to)
    {
      PendingIn(Value(d[..k], base), out, val, bits, to, from, d[k]);
      assert d[..k + 1][..k] == d[..k];
      MulDist(k, 1, from);
      val := (val * Pow(2, from)) % U32 + d[k];
      out, bits := Drain(Value(d[..k + 1], base), out, val, bits + from, to);
    }
    assert d[..|d|] == d;
    DivModUnique(|d| * from, to, |out|, bits);
  }

  lemma LastGroup(v: nat, out: seq<nat>, val: nat, bits: nat, to: nat, digit: nat)
    requires Pending(v, out, val, bits, to) && bits <= to <= 32
    requires Pow(2, to) > 0 && digit == ((val * Pow(2, to - bits)) % U32) % Pow(2, to)
    ensures Pending(v * Pow(2, to - bits), out + [digit], 0, 0, to)
    ensures digit == 0 <==> val % Pow(2, bits) == 0
  {
    var P, m := Pow(2, to - bits), val % Pow(2, bits);
    PowPositive(2, to - bits);
    PushIn(val, bits, to - bits, 0);
    assert digit == m * P;
    PowAdd(2, bits, to - bits);
    var o, B := Value(out, Pow(2, to)), Pow(2, bits);
    MulDist(o * B, m, P);
    MulAssoc(o, B, P);
    ValueSnoc(out, digit, Pow(2, to));
    assert Pow(2, 0) == 1;
    if m > 0 { MulMonoStrict(0, m, P); }
  }

  lemma NothingPending(v: nat, out: seq<nat>, val: nat, bits: nat, to: nat)
    requires Pending(v, out, val, bits, to) && val % Pow(2, bits) == 0 && Pow(2, to) > 0
    ensures out == ToDigits(v / Pow(2, bits), Pow(2, to), |out|) && v % Pow(2, bits) == 0
  {
    DivModUnique(v, Pow(2, bits), Value(out, Pow(2, to)), 0);
    ToDigitsOfValue(out, Pow(2, to));
  }

  method ConvertPadded(d: seq<nat>, from: nat, to: nat) returns (r: seq<nat>)
    requires KnownSizes(from, to) && Digits(d, Pow(2, from))
    ensures r == Padded(d, from, to)
  {
    var out, val, bits := Regroup(d, from, to);
    PowPositive(2, to);
    ghost var v := Value(d, Pow(2, from));
    if bits != 0 {
      var digit := ((val * Pow(2, to - bits)) % U32) % Pow(2, to);
      LastGroup(v, out, val, bits, to, digit);
      r := out + [digit];
      assert Pow(2, 0) == 1;
      NothingPending(v * Pow(2, to - bits), r, 0, 0, to);
    } else {
      r := out;
      assert Pow(2, 0) == 1;
      NothingPending(v, out, val, 0, to);
    }
  }

  method ConvertUnpadded(d: seq<nat>, from: nat, to: nat) returns (r: Option<seq<nat>>)
    requires KnownSizes(from, to) && Digits(d, Pow(2, from))
    ensures r == Unpadded(d, from, to)
  {
    var out, val, bits := Regroup(d, from, to);
    PowPositive(2, to);
    ghost var v := Value(d, Pow(2, from));
    var left := ((val * Pow(2, to - bits)) % U32) % Pow(2, to);
    LastGroup(v, out, val, bits, to, left);
    DivModUnique(v, Pow(2, bits), Value(out, Pow(2, to)), val % Pow(2, bits));
    if left != 0 || bits >= from { return None; }
    NothingPending(v, out, val, bits, to);
    return Some(out);
  }

  // ---- bytes to quintets and back ----

  lemma PadArithmetic(n: nat)
    ensures var q, r := Full(n, 8, 5), Spare(n, 8, 5);
            var m := if r == 0 then q else q + 1;
            var pad := if r == 0 then 0 else 5 - r;
            m * 5 == n * 8 + pad && Full(m, 5, 8) == n && Spare(m, 5, 8) == pad && pad < 5
  {
  }

  /** Padding bytes to five-bit groups and undoing it strictly gives the bytes back. */
  lemma RegroupRoundTrip(d: seq<nat>)
    requires Digits(d, 256)
    ensures Unpadded(Padded(d, 8, 5), 5, 8) == Some(d)
  {
    assert Pow(2, 8) == 256 && Pow(2, 5) == 32;
    var n, v := |d|, Value(d, 256);
    var r := Spare(n, 8, 5);
    var m := if r == 0 then Full(n, 8, 5) else Full(n, 8, 5) + 1;
    var pad := if r == 0 then 0 else 5 - r;
    PadArithmetic(n);
    var p := Pow(2, pad);
    PowPositive(2, pad);
    var w := v * p;
    assert Pow(2, 0) == 1;
    assert Padded(d, 8, 5) == ToDigits(w, 32, m);
    ValueBound(d, 256);
    Fits(n, m, pad);
    MulMonoStrict(v, Pow(256, n), p);
    ToDigitsFits(w, 32, m);
    DivModUnique(w, p, v, 0);
    ToDigitsOfValue(d, 256);
  }

  lemma Fits(n: nat, m: nat, pad: nat)
    requires m * 5 == n * 8 + pad
    ensures Pow(256, n) * Pow(2, pad) == Pow(32, m)
  {
    PowMul(2, 8, n);
    PowMul(2, 5, m);
    assert Pow(2, 8) == 256 && Pow(2, 5) == 32;
    PowAdd(2, 8 * n, pad);
  }
}
