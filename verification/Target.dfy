/** Share targets: the long division of src/datum_utils.c (get_target_from_diff) and the 256-bit
    shift of src/datum_pow.c (datum_u256_shr, datum_blake2b_share_target), proved exact.  Targets
    are 32 bytes, least significant first. */
module Target {
  import opened Wrappers
  import opened Radix

  const WORD: nat := 0x1_0000_0000_0000_0000
  const TARGET_LEN: nat := 32
  const TOP_PART: nat := 0xFFFF_0000

  // ---- get_target_from_diff ----

  /** The dividend, 0xFFFF followed by 208 zero bits. */
  const DIVIDEND: nat := TOP_PART * WORD * WORD * WORD

  lemma DividendIs()
    ensures DIVIDEND == 0xFFFF * Pow(2, 208)
  {
    PowAdd(2, 16, 192);
    Sixteen();
    ThreeWords();
  }

  lemma Sixteen()
    ensures Pow(2, 16) == 0x1_0000
  {
    PowMul(2, 8, 2);
    assert Pow(2, 8) == 256 && Pow(256, 2) == 0x1_0000;
  }

  lemma ThreeWords()
    ensures Pow(2, 192) == WORD * WORD * WORD
  {
    PowMul(2, 64, 3);
    WordIsPower();
    assert Pow(WORD, 3) == WORD * WORD * WORD;
  }

  lemma WordIsPower()
    ensures Pow(2, 64) == WORD
  {
    PowMul(2, 8, 8);
    assert Pow(2, 8) == 256 && Pow(256, 8) == WORD;
  }

  function Part(i: nat): nat { if i == 3 then TOP_PART else 0 }

  /** One word of long division. */
  lemma DivisionStep(upper: nat, done: nat, diff: nat, rem: nat, part: nat, q: nat, rem': nat)
    requires upper == done * diff + rem
    requires rem * WORD + part == q * diff + rem'
    ensures upper * WORD + part == (q + WORD * done) * diff + rem'
  {
    MulDist(done * diff, rem, WORD);
    MulAssoc(done, diff, WORD);
    MulAssoc(done, WORD, diff);
    MulDist(q, WORD * done, diff);
    assert diff * WORD == WORD * diff && done * WORD == WORD * done;
  }

  lemma QuotientFits(rem: nat, part: nat, diff: nat)
    requires rem < diff && part < WORD
    ensures (rem * WORD + part) / diff < WORD
  {
    MulMono(rem + 1, diff, WORD);
    MulDist(rem, 1, WORD);
    var x := rem * WORD + part;
    DivMod(x, diff);
    if x / diff >= WORD { MulMono(WORD, x / diff, diff); }
  }

  /** The eight bytes of one quotient word, in place. */
  method WriteWord(result: array<nat>, at: nat, q: nat)
    requires at + 8 <= result.Length && q < WORD
    modifies result
    ensures result[at..at + 8] == LE(q, 8)
    ensures forall k | 0 <= k < result.Length && !(at <= k < at + 8) :: result[k] == old(result[k])
  {
    for j := 0 to 8
      invariant forall k | at <= k < at + j :: result[k] == LE(q, 8)[k - at]
      invariant forall k | 0 <= k < result.Length && !(at <= k < at + j) :: result[k] == old(result[k])
    {
      PowPositive(256, j);
      LEByte(q, 8, j);
      result[at + j] := (q / Pow(256, j)) % 256;
    }
  }

  lemma PrependWord(q: nat, upper: seq<nat>)
    requires q < WORD
    ensures FromLE(LE(q, 8) + upper) == q + WORD * FromLE(upper)
  {
    assert Pow(256, 8) == WORD;
    LittleEndian(q, 8);
    FromLEConcat(LE(q, 8), upper);
  }

  /** What is done above byte `at`: quotient and remainder of the dividend's upper part. */
  ghost predicate Divided(bytes: seq<nat>, at: nat, upper: nat, diff: nat, rem: nat) {
    at <= |bytes| && rem < diff && upper == FromLE(bytes[at..]) * diff + rem
  }

  lemma DividedNext(bytes: seq<nat>, bytes': seq<nat>, at: nat, upper: nat, diff: nat, rem: nat, part: nat, q: nat,
                    rem': nat)
    requires Divided(bytes, at + 8, upper, diff, rem) && at + 8 <= |bytes| == |bytes'| && q < WORD && rem' < diff
    requires rem * WORD + part == q * diff + rem'
    requires bytes'[at..at + 8] == LE(q, 8) && bytes'[at + 8..] == bytes[at + 8..]
    ensures Divided(bytes', at, upper * WORD + part, diff, rem')
  {
    assert bytes'[at..] == bytes'[at..at + 8] + bytes'[at + 8..];
    PrependWord(q, bytes[at + 8..]);
    DivisionStep(upper, FromLE(bytes[at + 8..]), diff, rem, part, q, rem');
  }

  /** Quotient and remainder of one word, the remainder so far in front of it. */
  method DivideWord(rem: nat, part: nat, diff: nat) returns (q: nat, rem': nat)
    requires rem < diff && part < WORD
    ensures q < WORD && rem' < diff && rem * WORD + part == q * diff + rem'
  {
    var temp := rem * WORD + part;
    q, rem' := temp / diff, temp % diff;
    QuotientFits(rem, part, diff);
    DivMod(temp, diff);
  }

  /** The dividend's words from i up. */
  ghost function Upper(i: nat): nat
    decreases 4 - i
  {
    if i >= 4 then 0 else Upper(i + 1) * WORD + Part(i)
  }

  lemma UpperIsDividend()
    ensures Upper(0) == DIVIDEND
  {
    assert Upper(4) == 0;
    assert Upper(3) == TOP_PART;
    assert Upper(2) == TOP_PART * WORD;
    assert Upper(1) == TOP_PART * WORD * WORD;
  }

  method TargetFromDiff(diff: nat) returns (result: array<nat>)
    requires 0 < diff < WORD
    ensures result.Length == TARGET_LEN
    ensures FromLE(result[..]) == (0xFFFF * Pow(2, 208)) / diff
  {
    result := new nat[TARGET_LEN](_ => 0);
    ghost var rem := LongDivision(result, diff);
    Exact(result[..], diff, rem);
  }

  lemma Exact(bytes: seq<nat>, diff: nat, rem: nat)
    requires Divided(bytes, 0, Upper(0), diff, rem)
    ensures FromLE(bytes) == (0xFFFF * Pow(2, 208)) / diff
  {
    assert bytes[0..] == bytes;
    UpperIsDividend();
    DividendIs();
    DivModUnique(DIVIDEND, diff, FromLE(bytes), rem);
  }

  method LongDivision(result: array<nat>, diff: nat) returns (ghost last: nat)
    requires 0 < diff < WORD && result.Length == TARGET_LEN
    modifies result
    ensures Divided(result[..], 0, Upper(0), diff, last)
  {
    var rem: nat := 0;
    var i := 4;
    assert result[..][32..] == [];
    while i > 0
      invariant 0 <= i <= 4 && Divided(result[..], 8 * i, Upper(i), diff, rem)
    {
      i := i - 1;
      ghost var was := result[..];
      var q, rem' := DivideWord(rem, Part(i), diff);
      WriteWord(result, 8 * i, q);
      DividedNext(was, result[..], 8 * i, Upper(i + 1), diff, rem, Part(i), q, rem');
      rem := rem';
    }
    last := rem;
  }

  // ---- datum_u256_shr ----

  /** Dropping k whole bytes divides by 256^k. */
  lemma DropBytes(n: seq<nat>, k: nat)
    requires Digits(n, 256) && k <= |n|
    ensures Pow(256, k) > 0 && FromLE(n[k..]) == FromLE(n) / Pow(256, k)
  {
    PowPositive(256, k);
    SplitBytes(n, k);
    FromLEBound(n[..k]);
    DivModUnique(FromLE(n), Pow(256, k), FromLE(n[k..]), FromLE(n[..k]));
  }

  lemma SplitBytes(n: seq<nat>, k: nat)
    requires k <= |n|
    ensures FromLE(n) == FromLE(n[k..]) * Pow(256, k) + FromLE(n[..k])
  {
    BytesOf(n, n[..k], n[k..]);
  }

  lemma BytesOf(n: seq<nat>, lo: seq<nat>, hi: seq<nat>)
    requires n == lo + hi
    ensures FromLE(n) == FromLE(hi) * Pow(256, |lo|) + FromLE(lo)
  {
    FromLEConcat(lo, hi);
  }

  lemma PadZeros(n: seq<nat>, z: seq<nat>)
    requires forall i | 0 <= i < |z| :: z[i] == 0
    ensures FromLE(n + z) == FromLE(n)
  {
    FromLEConcat(n, z);
    FromLEZeros(z);
  }

  /** The byte made of the upper bits of x and the lower bits of the byte above it.  In the
      program: x >> b | y << (8 - b), cut to eight bits; the two parts have no bit in common. */
  function Joined(x: nat, y: nat, p: nat, c: nat): nat
    requires p > 0
  {
    MulMono(0, y % p, c);
    x / p + (y % p) * c
  }

  /** Shifting right by b bits: p is 2^b and c is 2^(8 - b). */
  predicate IsShift(p: nat, c: nat) { p > 0 && p * c == 256 }

  lemma ShiftStep(x: nat, y: nat, v: nat, p: nat, c: nat)
    requires IsShift(p, c) && v % p == y % p
    ensures (x + 256 * v) / p == Joined(x, y, p, c) + 256 * (v / p)
    ensures (x + 256 * v) % p == x % p
  {
    DivMod(x, p);
    DivMod(v, p);
    MulAssoc(p, c, v);
    MulAssoc(c, v, p);
    assert 256 * v == (c * v) * p;
    MulDist(x / p, c * v, p);
    DivModUnique(x + 256 * v, p, x / p + c * v, x % p);
    MulDist(v / p * p, v % p, c);
    MulAssoc(v / p, p, c);
    assert c * v == 256 * (v / p) + (v % p) * c;
  }

  function Above(n: seq<nat>, i: nat): nat { if i + 1 < |n| then n[i + 1] else 0 }

  ghost predicate BitShifted(n: seq<nat>, r: seq<nat>, p: nat, c: nat)
    requires p > 0
  {
    |n| == |r| && forall i | 0 <= i < |n| :: r[i] == Joined(n[i], Above(n, i), p, c)
  }

  lemma BitShiftedTail(n: seq<nat>, r: seq<nat>, p: nat, c: nat)
    requires p > 0 && |n| > 0 && BitShifted(n, r, p, c)
    ensures BitShifted(n[1..], r[1..], p, c)
  {
    forall i | 0 <= i < |n| - 1 ensures r[1..][i] == Joined(n[1..][i], Above(n[1..], i), p, c) {
      assert r[i + 1] == Joined(n[i + 1], Above(n, i + 1), p, c);
    }
  }

  lemma ZeroMod(p: nat)
    requires p > 0
    ensures 0 % p == 0 && 0 / p == 0
  {
  }

  /** Every byte joined with the one above it, the last with zero: the number divided by p. */
  lemma {:induction false} BitShift(n: seq<nat>, r: seq<nat>, p: nat, c: nat)
    requires IsShift(p, c) && BitShifted(n, r, p, c)
    ensures FromLE(r) == FromLE(n) / p && FromLE(n) % p == (if n == [] then 0 else n[0]) % p
    decreases |n|
  {
    if n == [] {
      ZeroMod(p);
    } else {
      BitShiftedTail(n, r, p, c);
      BitShift(n[1..], r[1..], p, c);
      ShiftStep(n[0], Above(n, 0), FromLE(n[1..]), p, c);
    }
  }

  lemma ShiftPowers(b: nat)
    requires 0 < b < 8
    ensures IsShift(Pow(2, b), Pow(2, 8 - b))
  {
    PowPositive(2, b);
    PowAdd(2, b, 8 - b);
    assert Pow(2, 8) == 256;
  }

  /** memmove and memset of whole bytes. */
  method ShiftBytes(n: array<nat>, k: nat)
    requires k <= n.Length
    modifies n
    ensures n[..] == old(n[k..]) + Zeros(k)
  {
    ghost var was := n[..];
    MoveDown(n, k);
    ClearTop(n, k);
    assert n[..n.Length - k] == was[k..];
    assert n[n.Length - k..] == Zeros(k);
  }

  method MoveDown(n: array<nat>, k: nat)
    requires k <= n.Length
    modifies n
    ensures n[..n.Length - k] == old(n[k..])
  {
    ghost var was := n[..];
    for i := 0 to n.Length - k
      invariant n[..i] == was[k..k + i] && n[i..] == was[i..]
    {
      assert n[i + k] == n[i..][k] == was[i..][k];
      n[i] := n[i + k];
      assert n[i + 1..] == was[i..][1..];
    }
  }

  method ClearTop(n: array<nat>, k: nat)
    requires k <= n.Length
    modifies n
    ensures n[..n.Length - k] == old(n[..n.Length - k]) && n[n.Length - k..] == Zeros(k)
  {
    ghost var top := n.Length - k;
    ghost var was := n[..top];
    for i := n.Length - k to n.Length
      invariant n[..top] == was && forall j | top <= j < i :: n[j] == 0
    {
      n[i] := 0;
    }
  }

  /** The loop over bytes, each written before the one above it is. */
  method ShiftBits(n: array<nat>, p: nat, c: nat)
    requires IsShift(p, c) && n.Length > 0
    modifies n
    ensures BitShifted(old(n[..]), n[..], p, c)
  {
    ghost var was := n[..];
    for i := 0 to n.Length - 1
      invariant forall j | 0 <= j < i :: n[j] == Joined(was[j], Above(was, j), p, c)
      invariant forall j | i <= j < n.Length :: n[j] == was[j]
    {
      n[i] := Joined(n[i], n[i + 1], p, c);
    }
    MulMono(0, 0, c);
    ZeroMod(p);
    n[n.Length - 1] := n[n.Length - 1] / p;
  }

  /** The 256-bit number is divided by 2^bits. */
  method ShiftRight(n: array<nat>, bits: nat)
    requires n.Length == TARGET_LEN && Digits(n[..], 256) && bits <= 8 * TARGET_LEN
    modifies n
    ensures Pow(2, bits) > 0 && FromLE(n[..]) == old(FromLE(n[..])) / Pow(2, bits)
  {
    PowPositive(2, bits);
    ghost var was := n[..];
    var k, b := bits / 8, bits % 8;
    if k > 0 { ShiftBytes(n, k); }
    ghost var moved := n[..];
    BytesThenBits(was, moved, k, b, bits);
    if b > 0 {
      ShiftPowers(b);
      ShiftBits(n, Pow(2, b), Pow(2, 8 - b));
      BitShift(moved, n[..], Pow(2, b), Pow(2, 8 - b));
    }
  }

  lemma BytesThenBits(was: seq<nat>, moved: seq<nat>, k: nat, b: nat, bits: nat)
    requires Digits(was, 256) && k <= |was| && bits == 8 * k + b
    requires moved == (if k > 0 then was[k..] + Zeros(k) else was)
    ensures Pow(2, b) > 0 && Pow(2, bits) > 0 && FromLE(moved) / Pow(2, b) == FromLE(was) / Pow(2, bits)
    ensures b == 0 ==> FromLE(moved) == FromLE(was) / Pow(2, bits)
  {
    MovedValue(was, moved, k);
    ShiftParts(FromLE(was), k, b, bits);
    DivOne(FromLE(moved), b);
  }

  lemma MovedValue(was: seq<nat>, moved: seq<nat>, k: nat)
    requires Digits(was, 256) && k <= |was| && moved == (if k > 0 then was[k..] + Zeros(k) else was)
    ensures Pow(256, k) > 0 && FromLE(moved) == FromLE(was) / Pow(256, k)
  {
    DropBytes(was, k);
    PadZeros(was[k..], Zeros(k));
    assert k == 0 ==> was[k..] == was;
  }

  lemma ShiftParts(v: nat, k: nat, b: nat, bits: nat)
    requires bits == 8 * k + b
    ensures Pow(2, b) > 0 && Pow(2, bits) > 0 && Pow(256, k) > 0 && (v / Pow(256, k)) / Pow(2, b) == v / Pow(2, bits)
  {
    PowPositive(2, b);
    PowPositive(256, k);
    PowAdd(2, 8 * k, b);
    PowMul(2, 8, k);
    assert Pow(2, 8) == 256;
    DivOfMod(v, Pow(256, k), Pow(2, b));
  }

  lemma DivOne(v: nat, b: nat)
    ensures Pow(2, b) > 0 && (b == 0 ==> v / Pow(2, b) == v)
  {
    PowPositive(2, b);
  }

  // ---- datum_blake2b_share_target ----

  function Ones(n: nat): seq<nat> { seq(n, _ => 255) }

  lemma {:induction false} OnesValue(n: nat)
    ensures FromLE(Ones(n)) == Pow(256, n) - 1
    decreases n
  {
    if n > 0 {
      OnesValue(n - 1);
      assert Ones(n)[1..] == Ones(n - 1);
    }
  }

  const FREE_BYTES: nat := 28

  lemma FullTarget(t: seq<nat>)
    requires |t| == TARGET_LEN && forall i | 0 <= i < TARGET_LEN :: t[i] == if i < FREE_BYTES then 255 else 0
    ensures Digits(t, 256) && FromLE(t) == Pow(2, 224) - 1
  {
    OnesThenZeros(t, FREE_BYTES);
    FreeBits();
  }

  lemma OnesThenZeros(t: seq<nat>, k: nat)
    requires k <= |t| && forall i | 0 <= i < |t| :: t[i] == if i < k then 255 else 0
    ensures Digits(t, 256) && FromLE(t) == Pow(256, k) - 1
  {
    assert t == Ones(k) + Zeros(|t| - k);
    OnesValue(k);
    PadZeros(Ones(k), Zeros(|t| - k));
  }

  lemma FreeBits()
    ensures Pow(256, FREE_BYTES) == Pow(2, 224)
  {
    PowMul(2, 8, FREE_BYTES);
    assert Pow(2, 8) == 256;
  }

  /** For a difficulty of 2^bits the target is (2^224 - 1) / 2^bits, rounded down. */
  method Blake2bShareTarget(bits: nat) returns (r: Option<array<nat>>)
    ensures r.None? <==> bits >= 224
    ensures r.Some? ==> r.value.Length == TARGET_LEN && Pow(2, bits) > 0
                        && FromLE(r.value[..]) == (Pow(2, 224) - 1) / Pow(2, bits)
  {
    if bits >= 224 { return None; }
    var target := new nat[TARGET_LEN](i => if i < FREE_BYTES then 255 else 0);
    FullTarget(target[..]);
    DivOne(FromLE(target[..]), bits);
    if bits > 0 { ShiftRight(target, bits); }
    return Some(target);
  }

  // ---- powers of two ----

  /** floorPoT: the exponent of the largest power of two not above x. */
  method FloorPoT(x: nat) returns (pos: nat)
    ensures x == 0 ==> pos == 0
    ensures x > 0 ==> Pow(2, pos) <= x < Pow(2, pos + 1)
  {
    pos := 0;
    if x == 0 { return; }
    var y := x / 2;
    assert Pow(2, 0) == 1 && Pow(2, 1) == 2;
    while y > 0
      invariant Pow(2, pos + 1) > 0 && y == x / Pow(2, pos + 1) && Pow(2, pos) <= x
    {
      Halve(x, pos + 1);
      pos, y := pos + 1, y / 2;
    }
    Halve(x, pos + 1);
  }

  lemma Halve(x: nat, e: nat)
    ensures Pow(2, e) > 0 && Pow(2, e + 1) > 0 && x / Pow(2, e + 1) == (x / Pow(2, e)) / 2
    ensures x / Pow(2, e) > 0 <==> Pow(2, e) <= x
  {
    PowPositive(2, e);
    PowPositive(2, e + 1);
    DivOfMod(x, Pow(2, e), 2);
    DivMod(x, Pow(2, e));
    if x / Pow(2, e) > 0 { MulMono(1, x / Pow(2, e), Pow(2, e)); }
  }
}
