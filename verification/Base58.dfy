/** Base58 conversion of src/thirdparty_base58.c: the carry loops over fixed digit buffers,
    proved to compute the plain change of radix, with the 138/100 buffer size bound. */
module Base58 {
  import opened Wrappers
  import opened Radix

  const WORD: nat := 0x1_0000_0000
  const WORD_BYTES: nat := 4

  /** b58digits_ordered */
  function CharOf(d: nat): char
    requires d < 58
  {
    if d < 9 then '1' + d as char
    else if d < 17 then 'A' + (d - 9) as char
    else if d < 22 then 'J' + (d - 17) as char
    else if d < 33 then 'P' + (d - 22) as char
    else if d < 44 then 'a' + (d - 33) as char
    else 'm' + (d - 44) as char
  }

  /** b58digits_map: -1 for characters outside the alphabet, the high half included. */
  function DigitOf(c: char): (d: int)
    ensures -1 <= d < 58
  {
    if '1' <= c <= '9' then (c - '1') as int
    else if 'A' <= c <= 'H' then (c - 'A') as int + 9
    else if 'J' <= c <= 'N' then (c - 'J') as int + 17
    else if 'P' <= c <= 'Z' then (c - 'P') as int + 22
    else if 'a' <= c <= 'k' then (c - 'a') as int + 33
    else if 'm' <= c <= 'z' then (c - 'm') as int + 44
    else -1
  }

  lemma DigitOfChar(d: nat)
    requires d < 58
    ensures DigitOf(CharOf(d)) == d
    ensures CharOf(d) == '1' <==> d == 0
  {
  }

  function Chars(d: seq<nat>): (s: string)
    requires Digits(d, 58)
    ensures |s| == |d|
  {
    seq(|d|, i requires 0 <= i < |d| => CharOf(d[i]))
  }

  predicate AllDigits(s: string) { forall i | 0 <= i < |s| :: DigitOf(s[i]) >= 0 }

  function DigitsOf(s: string): (d: seq<nat>)
    requires AllDigits(s)
    ensures |d| == |s| && Digits(d, 58)
  {
    seq(|s|, i requires 0 <= i < |s| => DigitOf(s[i]))
  }

  function LeadingZeros(bin: seq<nat>): (z: nat)
    ensures z <= |bin| && forall i | 0 <= i < z :: bin[i] == 0
    ensures z < |bin| ==> bin[z] != 0
  {
    if bin == [] || bin[0] != 0 then 0 else 1 + LeadingZeros(bin[1..])
  }

  /** One digit zero, written '1', per leading zero byte, then the number in base 58 without
      leading zeros. */
  function EncodedDigits(bin: seq<nat>): (d: seq<nat>)
    ensures Digits(d, 58)
  {
    MinDigitsValue(Value(bin, 256), 58);
    Zeros(LeadingZeros(bin)) + MinDigits(Value(bin, 256), 58)
  }

  function Encode(bin: seq<nat>): string { Chars(EncodedDigits(bin)) }

  /** The number the digits stand for, as exactly n bytes. */
  function Decode(s: string, n: nat): Option<seq<nat>> {
    if AllDigits(s) && Value(DigitsOf(s), 58) < Pow(256, n)
    then Some(ToDigits(Value(DigitsOf(s), 58), 256, n))
    else None
  }

  // ---- round trip of the change of radix ----

  lemma DigitsOfChars(d: seq<nat>)
    requires Digits(d, 58)
    ensures AllDigits(Chars(d)) && DigitsOf(Chars(d)) == d
  {
    forall i | 0 <= i < |d| ensures DigitOf(Chars(d)[i]) == d[i] {
      DigitOfChar(d[i]);
    }
  }

  lemma EncodeDigits(bin: seq<nat>)
    ensures AllDigits(Encode(bin)) && Value(DigitsOf(Encode(bin)), 58) == Value(bin, 256)
  {
    DigitsOfChars(EncodedDigits(bin));
    MinDigitsValue(Value(bin, 256), 58);
    ValueConcat(Zeros(LeadingZeros(bin)), MinDigits(Value(bin, 256), 58), 58);
    ZerosValue(LeadingZeros(bin), 58);
  }

  lemma RoundTrip(bin: seq<nat>)
    requires Digits(bin, 256)
    ensures Decode(Encode(bin), |bin|) == Some(bin)
  {
    EncodeDigits(bin);
    ValueBound(bin, 256);
    ToDigitsOfValue(bin, 256);
  }

  /** The text starts with exactly as many '1' as the bytes have leading zeros. */
  lemma LeadingOnes(bin: seq<nat>)
    requires Digits(bin, 256)
    ensures var s, z := Encode(bin), LeadingZeros(bin);
            && |s| >= z && (forall i | 0 <= i < z :: s[i] == '1')
            && (z < |bin| ==> |s| > z && s[z] != '1')
  {
    var z := LeadingZeros(bin);
    var m := MinDigits(Value(bin, 256), 58);
    MinDigitsValue(Value(bin, 256), 58);
    if z < |bin| {
      ValuePositive(bin, z, 256);
      assert EncodedDigits(bin)[z] == m[0];
      DigitOfChar(m[0]);
    }
  }

  lemma {:induction false} ValuePositive(d: seq<nat>, k: nat, b: nat)
    requires k < |d| && d[k] != 0 && b > 0
    ensures Value(d, b) > 0
    decreases |d|
  {
    if k < |d| - 1 {
      ValuePositive(d[..|d| - 1], k, b);
      MulMonoStrict(0, Value(d[..|d| - 1], b), b);
    }
  }

  // ---- the digit buffer of b58enc is long enough ----

  /** 138/100 is above log 256 / log 58. */
  lemma RatioBound()
    ensures Pow(256, 100) < Pow(58, 138)
  {
    PowMul(256, 10, 10);
    PowMul(58, 23, 6);
    TenthPower();
    SixthRoot();
    Compared();
  }

  lemma TenthPower()
    ensures Pow(256, 10) == 1208925819614629174706176
  {
  }

  lemma SixthRoot()
    ensures Pow(58, 23) == 36211277946678491129762594928113653645312
  {
    PowAdd(58, 11, 12);
    assert Pow(58, 11) == 24986644000165537792;
    assert Pow(58, 12) == 1449225352009601191936;
  }

  lemma Compared()
    ensures Pow(1208925819614629174706176, 10) < Pow(36211277946678491129762594928113653645312, 6)
  {
  }

  lemma RootMono(a: nat, b: nat, e: nat)
    requires a < b && e > 0
    ensures Pow(a, e) < Pow(b, e)
  {
    PowMonoBase(a, b, e - 1);
    PowPositive(b, e - 1);
    MulMono(Pow(a, e - 1), Pow(b, e - 1), a);
    MulMonoStrict(a, b, Pow(b, e - 1));
  }

  /** m bytes fit in s digits as soon as 138 m <= 100 s. */
  lemma BytesFit(m: nat, s: nat)
    requires 138 * m <= 100 * s
    ensures Pow(256, m) <= Pow(58, s)
  {
    if Pow(58, s) < Pow(256, m) {
      RootMono(Pow(58, s), Pow(256, m), 100);
      HundredthPowers(m, s);
    }
  }

  lemma HundredthPowers(m: nat, s: nat)
    requires 138 * m <= 100 * s
    ensures Pow(Pow(256, m), 100) <= Pow(Pow(58, s), 100)
  {
    calc {
      Pow(Pow(256, m), 100);
    ==  { PowMul(256, m, 100); }
      Pow(256, m * 100);
    ==  { PowMul(256, 100, m); assert m * 100 == 100 * m; }
      Pow(Pow(256, 100), m);
    <=  { RatioBound(); PowMonoBase(Pow(256, 100), Pow(58, 138), m); }
      Pow(Pow(58, 138), m);
    ==  { PowMul(58, 138, m); }
      Pow(58, 138 * m);
    <=  { PowMonoExp(58, 138 * m, s * 100); }
      Pow(58, s * 100);
    ==  { PowMul(58, s, 100); }
      Pow(Pow(58, s), 100);
    }
  }

  /** n bytes fit in the buffer, and n - 1 bytes leave its top digit zero. */
  lemma BufferSize(n: nat)
    ensures Pow(256, n) <= Pow(58, n * 138 / 100 + 1)
    ensures n > 0 ==> Pow(256, n - 1) <= Pow(58, n * 138 / 100)
  {
    BytesFit(n, n * 138 / 100 + 1);
    if n > 0 { BytesFit(n - 1, n * 138 / 100); }
  }

  // ---- b58enc ----

  /** One position of a multiply-and-add carry loop. */
  lemma CarryStep(mult: nat, base: nat, p: nat, carry: nat, oldDigit: nat, oldLow: nat, low: nat, add: nat,
                  digit: nat, carry': nat)
    requires carry * p + low == mult * oldLow + add
    requires carry' * base + digit == carry + mult * oldDigit
    ensures carry' * (p * base) + (digit * p + low) == mult * (oldDigit * p + oldLow) + add
  {
    MulAssoc(carry', base, p);
    MulDist(carry' * base, digit, p);
    MulDist(carry, mult * oldDigit, p);
    MulAssoc(mult, oldDigit, p);
    MulDist(oldDigit * p, oldLow, mult);
    assert base * p == p * base;
    calc {
      carry' * (p * base) + (digit * p + low);
      (carry' * base + digit) * p + low;
      carry * p + (mult * oldDigit) * p + low;
      mult * oldLow + add + mult * (oldDigit * p);
    }
  }

  lemma SuffixStep(d: seq<nat>, j: nat, b: nat)
    requires j < |d|
    ensures Value(d[j..], b) == d[j] * Pow(b, |d| - j - 1) + Value(d[j + 1..], b)
  {
    assert d[j..] == [d[j]] + d[j + 1..];
    ValueCons(d[j], d[j + 1..], b);
  }

  lemma ZeroPrefix(d: seq<nat>, k: nat, b: nat)
    requires k <= |d| && forall i | 0 <= i < k :: d[i] == 0
    ensures Value(d, b) == Value(d[k..], b)
  {
    assert d == Zeros(k) + d[k..];
    ValueConcat(Zeros(k), d[k..], b);
    ZerosValue(k, b);
  }

  /** A carry loop's account of the positions from lo on: what is stored there and carried out is
      `mult` times what was there plus `add`. */
  ghost predicate Accounted(was: seq<nat>, now: seq<nat>, lo: nat, carry: nat, mult: nat, base: nat, add: nat) {
    && lo <= |was| == |now| && now[..lo] == was[..lo] && Digits(now, base)
    && carry * Pow(base, |was| - lo) + Value(now[lo..], base) == mult * Value(was[lo..], base) + add
  }

  lemma AccountedInit(was: seq<nat>, mult: nat, base: nat, add: nat)
    requires Digits(was, base)
    ensures Accounted(was, was, |was|, add, mult, base, add)
  {
    assert was[|was|..] == [];
    assert Pow(base, 0) == 1;
  }

  lemma AccountedStep(was: seq<nat>, now: seq<nat>, next: seq<nat>, j: nat, carry: nat, carry': nat, mult: nat,
                      base: nat, add: nat)
    requires j < |was| && Accounted(was, now, j + 1, carry, mult, base, add)
    requires |next| == |now| && next == now[j := next[j]] && next[j] < base
    requires carry' * base + next[j] == carry + mult * now[j]
    ensures Accounted(was, next, j, carry', mult, base, add)
  {
    assert now[j] == was[j] by { assert now[..j + 1][j] == was[..j + 1][j]; }
    assert next[..j] == was[..j] by { assert next[..j] == now[..j + 1][..j] && was[..j + 1][..j] == was[..j]; }
    SuffixValues(was, now, next, j, base);
    var p := Pow(base, |was| - j - 1);
    assert Pow(base, |was| - j) == p * base;
    CarryStep(mult, base, p, carry, was[j], Value(was[j + 1..], base), Value(now[j + 1..], base), add, next[j], carry');
  }

  lemma SuffixValues(was: seq<nat>, now: seq<nat>, next: seq<nat>, j: nat, base: nat)
    requires j < |was| == |now| == |next| && next == now[j := next[j]]
    ensures Value(was[j..], base) == was[j] * Pow(base, |was| - j - 1) + Value(was[j + 1..], base)
    ensures Value(next[j..], base) == next[j] * Pow(base, |was| - j - 1) + Value(now[j + 1..], base)
  {
    assert next[j + 1..] == now[j + 1..];
    SuffixStep(next, j, base);
    SuffixStep(was, j, base);
  }

  lemma AccountedAll(was: seq<nat>, now: seq<nat>, carry: nat, mult: nat, base: nat, add: nat)
    requires Accounted(was, now, 0, carry, mult, base, add)
    ensures carry * Pow(base, |was|) + Value(now, base) == mult * Value(was, base) + add
  {
    assert was[0..] == was && now[0..] == now;
  }

  /** Nothing carried into a zero prefix: the loop may stop early. */
  lemma AccountedEarly(was: seq<nat>, now: seq<nat>, lo: nat, mult: nat, base: nat, add: nat)
    requires Accounted(was, now, lo, 0, mult, base, add) && forall k | 0 <= k < lo :: was[k] == 0
    ensures Value(now, base) == mult * Value(was, base) + add
    ensures forall k | 0 <= k < lo :: now[k] == 0
  {
    assert forall k | 0 <= k < lo :: now[k] == now[..lo][k] == was[..lo][k];
    ZeroPrefix(now, lo, base);
    ZeroPrefix(was, lo, base);
  }

  /** The inner loop of b58enc: buf := 256 * buf + byte.  It stops at the first position that is
      above the digits in use (high) and has nothing carried into it. */
  method AddByte(buf: array<nat>, high: nat, byte: nat) returns (j: nat)
    requires high < buf.Length && Digits(buf[..], 58)
    requires forall k | 0 <= k <= high :: buf[k] == 0
    requires 256 * Value(buf[..], 58) + byte < Pow(58, buf.Length)
    modifies buf
    ensures Digits(buf[..], 58) && Value(buf[..], 58) == 256 * old(Value(buf[..], 58)) + byte
    ensures j <= high && (forall k | 0 <= k < j :: buf[k] == 0) && (j > 0 ==> buf[j] == 0)
  {
    ghost var was := buf[..];
    var carry: nat := byte;
    j := buf.Length - 1;
    var stop := false;
    AccountedInit(was, 256, 58, byte);
    while !stop && (j > high || carry != 0)
      invariant j < buf.Length && (stop ==> j == 0)
      invariant Accounted(was, buf[..], if stop then 0 else j + 1, carry, 256, 58, byte)
      decreases if stop then 0 else j + 1
    {
      ghost var now, carried := buf[..], carry;
      var sum: nat := carry + 256 * buf[j];
      buf[j] := sum % 58;
      carry := sum / 58;
      AccountedStep(was, now, buf[..], j, carried, carry, 256, 58, byte);
      if j == 0 { stop := true; } else { j := j - 1; }
    }
    if stop {
      AccountedAll(was, buf[..], carry, 256, 58, byte);
      if carry > 0 { MulMono(1, carry, Pow(58, buf.Length)); }
    } else {
      AccountedEarly(was, buf[..], j + 1, 256, 58, byte);
    }
  }

  lemma TopDigitZero(d: seq<nat>)
    requires |d| > 0 && Digits(d, 58) && Value(d, 58) < Pow(58, |d| - 1)
    ensures d[0] == 0
  {
    SuffixStep(d, 0, 58);
    assert d[0..] == d;
    if d[0] > 0 { MulMono(1, d[0], Pow(58, |d| - 1)); }
  }

  lemma PrefixFits(d: seq<nat>, k: nat, n: nat)
    requires Digits(d, 256) && k <= |d| && k <= n
    ensures Value(d[..k], 256) < Pow(256, n)
  {
    ValueBound(d[..k], 256);
    PowMonoExp(256, k, n);
  }

  lemma NextByte(d: seq<nat>, i: nat)
    requires Digits(d, 256) && i < |d|
    ensures Value(d[..i + 1], 256) == 256 * Value(d[..i], 256) + d[i] < Pow(256, |d|)
  {
    assert d[..i + 1][..i] == d[..i];
    PrefixFits(d, i + 1, |d|);
  }

  /** The outer loop of b58enc: base-58 digits of a byte string, given a buffer of `size` digits
      that holds the string and has its top digit free before the last byte. */
  method FillDigits(rest: seq<nat>, size: nat) returns (buf: array<nat>)
    requires Digits(rest, 256) && size > 0 && Pow(256, |rest|) <= Pow(58, size)
    requires |rest| > 0 ==> Pow(256, |rest| - 1) <= Pow(58, size - 1)
    ensures buf.Length == size && Digits(buf[..], 58)
    ensures Value(buf[..], 58) == Value(rest, 256)
  {
    buf := new nat[size](_ => 0);
    assert buf[..] == Zeros(size);
    ZerosValue(size, 58);
    var high: nat := size - 1;
    for i := 0 to |rest|
      invariant high < size && Digits(buf[..], 58)
      invariant Value(buf[..], 58) == Value(rest[..i], 256)
      invariant i < |rest| ==> forall k | 0 <= k <= high :: buf[k] == 0
    {
      NextByte(rest, i);
      high := AddByte(buf, high, rest[i]);
      if i + 1 < |rest| {
        PrefixFits(rest, i + 1, |rest| - 1);
        TopDigitZero(buf[..]);
      }
    }
    assert rest[..|rest|] == rest;
  }

  method EncodeBase58(bin: seq<nat>, capacity: nat) returns (r: Option<string>)
    requires Digits(bin, 256)
    ensures r == if capacity <= |Encode(bin)| then None else Some(Encode(bin))
  {
    var zcount := LeadingZeros(bin);
    BufferSize(|bin| - zcount);
    var buf := FillDigits(bin[zcount..], (|bin| - zcount) * 138 / 100 + 1);
    ZeroPrefix(bin, zcount, 256);
    var text := WriteDigits(zcount, buf[..], Value(bin, 256));
    if capacity <= |text| { return None; }
    return Some(text);
  }

  /** The output step of b58enc: skip the buffer's leading zeros, write '1' for each zero byte. */
  method WriteDigits(zcount: nat, digits: seq<nat>, ghost v: nat) returns (text: string)
    requires Digits(digits, 58) && Value(digits, 58) == v
    ensures Digits(MinDigits(v, 58), 58) && text == Chars(Zeros(zcount) + MinDigits(v, 58))
  {
    var j := LeadingZeros(digits);
    StripZeros(digits, j, 58);
    text := seq(zcount, i => '1') + Chars(digits[j..]);
  }

  // ---- b58tobin ----

  /** outi := 58 * outi + digit over 32-bit words; the word carried out of the top. */
  method MulAdd(outi: array<nat>, digit: nat) returns (carry: nat)
    requires Digits(outi[..], WORD)
    modifies outi
    ensures Digits(outi[..], WORD)
    ensures carry * Pow(WORD, outi.Length) + Value(outi[..], WORD) == 58 * old(Value(outi[..], WORD)) + digit
  {
    ghost var was := outi[..];
    carry := digit;
    var j := outi.Length;
    AccountedInit(was, 58, WORD, digit);
    while j > 0
      invariant 0 <= j <= outi.Length
      invariant Accounted(was, outi[..], j, carry, 58, WORD, digit)
    {
      j := j - 1;
      ghost var now, carried := outi[..], carry;
      var t: nat := outi[j] * 58 + carry;
      carry := t / WORD;
      outi[j] := t % WORD;
      AccountedStep(was, now, outi[..], j, carried, carry, 58, WORD, digit);
    }
    AccountedAll(was, outi[..], carry, 58, WORD, digit);
  }

  /** Number of words for n bytes and the bytes that the top word may use (4 when it is full). */
  function Words(n: nat): nat { (n + 3) / 4 }
  function TopBytes(n: nat): nat { if n % 4 == 0 then 4 else n % 4 }

  lemma WordPow(k: nat)
    ensures Pow(WORD, k) == Pow(256, 4 * k)
  {
    assert Pow(256, 4) == WORD;
    PowMul(256, 4, k);
  }

  /** The top-word test is exactly "the number needs more than n bytes". */
  lemma TopWordTest(w: seq<nat>, n: nat)
    requires n > 0 && |w| == Words(n) && Digits(w, WORD)
    ensures w[0] < Pow(256, TopBytes(n)) <==> Value(w, WORD) < Pow(256, n)
  {
    SuffixStep(w, 0, WORD);
    assert w[0..] == w;
    ValueBound(w[1..], WORD);
    WordPow(|w| - 1);
    assert TopBytes(n) + 4 * (|w| - 1) == n;
    PowAdd(256, TopBytes(n), 4 * (|w| - 1));
    LeadingBlock(w[0], Pow(256, TopBytes(n)), Pow(WORD, |w| - 1), Value(w[1..], WORD));
  }

  lemma LeadingBlock(hi: nat, t: nat, p: nat, lo: nat)
    requires lo < p
    ensures hi < t <==> hi * p + lo < t * p
  {
    if hi < t {
      MulMono(hi + 1, t, p);
      MulDist(hi, 1, p);
    } else {
      MulMono(t, hi, p);
    }
  }

  /** The k low bytes of a word, most significant first. */
  function WordBytes(x: nat, k: nat): seq<nat> {
    seq(k, i requires 0 <= i < k => PowPositive(256, k - 1 - i); (x / Pow(256, k - 1 - i)) % 256)
  }

  lemma {:induction false} WordBytesAreDigits(x: nat, k: nat)
    ensures WordBytes(x, k) == ToDigits(x, 256, k)
    decreases k
  {
    if k > 0 {
      WordBytesAreDigits(x / 256, k - 1);
      forall i | 0 <= i < k - 1 ensures WordBytes(x, k)[i] == WordBytes(x / 256, k - 1)[i] {
        var p := Pow(256, k - 2 - i);
        PowPositive(256, k - 2 - i);
        DivOfMod(x, 256, p);
        assert Pow(256, k - 1 - i) == p * 256 == 256 * p;
      }
      assert Pow(256, 0) == 1;
      assert WordBytes(x, k)[k - 1] == x % 256;
    }
  }

  lemma FirstWord(w: seq<nat>, top: nat)
    requires |w| > 0
    ensures WordBytes(w[0], top) == ToDigits(Value(w[..1], WORD), 256, top)
  {
    WordBytesAreDigits(w[0], top);
    assert w[..1] == [] + [w[0]];
    ValueSnoc([], w[0], WORD);
  }

  lemma NextWord(w: seq<nat>, j: nat, top: nat)
    requires 0 < j < |w| && Digits(w, WORD)
    ensures ToDigits(Value(w[..j + 1], WORD), 256, top + WORD_BYTES * j)
         == ToDigits(Value(w[..j], WORD), 256, top + WORD_BYTES * (j - 1)) + WordBytes(w[j], WORD_BYTES)
  {
    assert w[..j + 1][..j] == w[..j];
    WordPow(1);
    assert Pow(WORD, 1) == WORD;
    ToDigitsConcat(Value(w[..j], WORD), w[j], 256, top + WORD_BYTES * (j - 1), WORD_BYTES);
    WordBytesAreDigits(w[j], WORD_BYTES);
  }

  lemma {:induction false} PrefixGrows(d: seq<nat>, k: nat, b: nat)
    requires k <= |d| && b > 0
    ensures Value(d[..k], b) <= Value(d, b)
    decreases |d|
  {
    if k == |d| {
      assert d[..k] == d;
    } else {
      PrefixGrows(d[..|d| - 1], k, b);
      assert d[..|d| - 1][..k] == d[..k];
      MulMono(1, b, Value(d[..|d| - 1], b));
    }
  }

  /** The digit loop of b58tobin; false when a character is no digit or the number has more
      than n bytes. */
  method Accumulate(s: string, n: nat, outi: array<nat>) returns (ok: bool)
    requires n > 0 && outi.Length == Words(n) && forall k | 0 <= k < outi.Length :: outi[k] == 0
    modifies outi
    ensures ok == Decode(s, n).Some?
    ensures ok ==> AllDigits(s) && Digits(outi[..], WORD) && Value(outi[..], WORD) == Value(DigitsOf(s), 58)
  {
    var i := 0;
    while i < |s| && s[i] == '1'
      invariant i <= |s| && forall k | 0 <= k < i :: s[k] == '1'
    {
      i := i + 1;
    }
    NothingYet(s, i, n, outi[..]);
    ok := AccumulateFrom(s, i, n, outi);
  }

  lemma NothingYet(s: string, i: nat, n: nat, w: seq<nat>)
    requires i <= |s| && (forall k | 0 <= k < i :: s[k] == '1') && forall k | 0 <= k < |w| :: w[k] == 0
    ensures ReadUpTo(s, i, n, w)
  {
    assert w == Zeros(|w|);
    ZerosValue(|w|, WORD);
    PowPositive(256, n);
    assert DigitsOf(s[..i]) == Zeros(i);
    ZerosValue(i, 58);
  }

  /** The words hold the number made by the first i characters, and it fits n bytes. */
  ghost predicate ReadUpTo(s: string, i: nat, n: nat, w: seq<nat>) {
    && i <= |s| && AllDigits(s[..i])
    && Digits(w, WORD) && Value(w, WORD) == Value(DigitsOf(s[..i]), 58) < Pow(256, n)
  }

  method AccumulateFrom(s: string, start: nat, n: nat, outi: array<nat>) returns (ok: bool)
    requires n > 0 && outi.Length == Words(n) && ReadUpTo(s, start, n, outi[..])
    modifies outi
    ensures ok == Decode(s, n).Some?
    ensures ok ==> AllDigits(s) && Digits(outi[..], WORD) && Value(outi[..], WORD) == Value(DigitsOf(s), 58)
  {
    var i := start;
    while i < |s|
      invariant ReadUpTo(s, i, n, outi[..])
    {
      if DigitOf(s[i]) == -1 { return false; }
      NextDigit(s, i);
      var c := MulAdd(outi, DigitOf(s[i]));
      i := i + 1;
      OverflowTest(s, i, n, c, outi[..]);
      if c != 0 || outi[0] >= Pow(256, TopBytes(n)) { return false; }
    }
    assert s[..i] == s;
    return true;
  }

  lemma NextDigit(s: string, i: nat)
    requires i < |s| && AllDigits(s[..i]) && DigitOf(s[i]) >= 0
    ensures AllDigits(s[..i + 1])
    ensures Value(DigitsOf(s[..i + 1]), 58) == 58 * Value(DigitsOf(s[..i]), 58) + DigitOf(s[i])
  {
    var d: nat := DigitOf(s[i]);
    assert DigitsOf(s[..i + 1]) == DigitsOf(s[..i]) + [d];
    ValueSnoc(DigitsOf(s[..i]), d, 58);
  }

  /** The output loops of b58tobin: `top` bytes of the first word, all four of the others. */
  method JoinWords(w: seq<nat>, top: nat) returns (bin: seq<nat>)
    requires |w| > 0 && Digits(w, WORD)
    ensures bin == ToDigits(Value(w, WORD), 256, top + WORD_BYTES * (|w| - 1))
  {
    FirstWord(w, top);
    bin := WordBytes(w[0], top);
    for j := 1 to |w|
      invariant bin == ToDigits(Value(w[..j], WORD), 256, top + WORD_BYTES * (j - 1))
    {
      NextWord(w, j, top);
      bin := bin + WordBytes(w[j], WORD_BYTES);
    }
    assert w[..|w|] == w;
  }

  method DecodeBase58(s: string, n: nat) returns (r: Option<seq<nat>>)
    requires n > 0
    ensures r == Decode(s, n)
  {
    var outi := new nat[Words(n)](_ => 0);
    var ok := Accumulate(s, n, outi);
    if !ok { return None; }
    var bin := JoinWords(outi[..], TopBytes(n));
    return Some(bin);
  }

  /** The two overflow tests after a digit: either one fires exactly when the digits so far make
      a number of more than n bytes, and then no continuation is accepted. */
  lemma OverflowTest(s: string, k: nat, n: nat, c: nat, w: seq<nat>)
    requires n > 0 && k <= |s| && AllDigits(s[..k]) && |w| == Words(n) && Digits(w, WORD)
    requires c * Pow(WORD, |w|) + Value(w, WORD) == Value(DigitsOf(s[..k]), 58)
    ensures (c != 0 || w[0] >= Pow(256, TopBytes(n))) <==> Value(DigitsOf(s[..k]), 58) >= Pow(256, n)
    ensures Value(DigitsOf(s[..k]), 58) >= Pow(256, n) ==> Decode(s, n) == None
    ensures c == 0 ==> Value(w, WORD) == Value(DigitsOf(s[..k]), 58)
  {
    TopWordTest(w, n);
    if c > 0 {
      MulMono(1, c, Pow(WORD, |w|));
      WordPow(|w|);
      PowMonoExp(256, n, 4 * |w|);
    }
    if AllDigits(s) {
      assert DigitsOf(s)[..k] == DigitsOf(s[..k]);
      PrefixGrows(DigitsOf(s), k, 58);
    }
  }
}
