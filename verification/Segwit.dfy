/** Bech32 text and segwit addresses of src/thirdparty_segwit_addr.c: the character maps,
    encode/decode with their rejections, and the regrouping of bits between bytes and
    five-bit groups. */
module Segwit {
  import opened Wrappers
  import opened LinearChecksum
  import opened Bech32Checksum

  // ---- characters ----

  /** charset */
  function CharOf(v: nat): char
    requires v < 32
  {
    match v
    case 0 => 'q' case 1 => 'p' case 2 => 'z' case 3 => 'r' case 4 => 'y' case 5 => '9' case 6 => 'x' case 7 => '8'
    case 8 => 'g' case 9 => 'f' case 10 => '2' case 11 => 't'
    case 12 => 'v' case 13 => 'd' case 14 => 'w' case 15 => '0'
    case 16 => 's' case 17 => '3' case 18 => 'j' case 19 => 'n'
    case 20 => '5' case 21 => '4' case 22 => 'k' case 23 => 'h'
    case 24 => 'c' case 25 => 'e' case 26 => '6' case 27 => 'm'
    case 28 => 'u' case 29 => 'a' case 30 => '7' case 31 => 'l'
  }

  predicate IsUpper(c: char) { 'A' <= c <= 'Z' }
  predicate IsLower(c: char) { 'a' <= c <= 'z' }
  function Lower(c: char): char { if IsUpper(c) then c - 'A' + 'a' else c }

  /** charset_rev: -1 outside the alphabet, letters in either case. */
  function ValueOf(c: char): (v: int)
    ensures -1 <= v < 32
  {
    match Lower(c)
    case 'q' => 0 case 'p' => 1 case 'z' => 2 case 'r' => 3 case 'y' => 4 case '9' => 5 case 'x' => 6 case '8' => 7
    case 'g' => 8 case 'f' => 9 case '2' => 10 case 't' => 11
    case 'v' => 12 case 'd' => 13 case 'w' => 14 case '0' => 15
    case 's' => 16 case '3' => 17 case 'j' => 18 case 'n' => 19
    case '5' => 20 case '4' => 21 case 'k' => 22 case 'h' => 23
    case 'c' => 24 case 'e' => 25 case '6' => 26 case 'm' => 27
    case 'u' => 28 case 'a' => 29 case '7' => 30 case 'l' => 31
    case _ => -1
  }

  lemma ValueOfChar(v: nat)
    requires v < 32
    ensures ValueOf(CharOf(v)) == v && CharOf(v) != '1' && !IsUpper(CharOf(v))
  {
  }

  function Chars(d: seq<nat>): (s: string)
    requires Quintets(d)
    ensures |s| == |d|
  {
    seq(|d|, i requires 0 <= i < |d| => CharOf(d[i]))
  }

  predicate AllValues(s: string) { forall i | 0 <= i < |s| :: ValueOf(s[i]) >= 0 }

  function Values(s: string): (d: seq<nat>)
    requires AllValues(s)
    ensures |d| == |s| && Quintets(d)
  {
    seq(|s|, i requires 0 <= i < |s| => ValueOf(s[i]))
  }

  lemma ValuesOfChars(d: seq<nat>)
    requires Quintets(d)
    ensures AllValues(Chars(d)) && Values(Chars(d)) == d
    ensures forall i | 0 <= i < |d| :: Chars(d)[i] != '1' && !IsUpper(Chars(d)[i])
  {
    forall i | 0 <= i < |d|
      ensures ValueOf(Chars(d)[i]) == d[i] && Chars(d)[i] != '1' && !IsUpper(Chars(d)[i])
    {
      ValueOfChar(d[i]);
    }
  }

  // ---- bech32_encode and bech32_decode ----

  function HighBits(hrp: string): seq<nat> { seq(|hrp|, i requires 0 <= i < |hrp| => hrp[i] as nat / 32) }
  function LowBits(hrp: string): seq<nat> { seq(|hrp|, i requires 0 <= i < |hrp| => hrp[i] as nat % 32) }
  function Expand(hrp: string): seq<nat> { HighBits(hrp) + [0] + LowBits(hrp) }

  predicate Printable(s: string) { forall i | 0 <= i < |s| :: 33 <= s[i] as int <= 126 }
  predicate NoUpper(s: string) { forall i | 0 <= i < |s| :: !IsUpper(s[i]) }
  predicate NoLower(s: string) { forall i | 0 <= i < |s| :: !IsLower(s[i]) }
  function LowerAll(s: string): string { seq(|s|, i requires 0 <= i < |s| => Lower(s[i])) }

  /** A checksum scheme: the six digits to append, and the encoding that a string of values with
      its checksum stands for, if any. */
  datatype Scheme = Scheme(check: (string, seq<nat>, Encoding) -> seq<nat>, sum: seq<nat> -> Option<Encoding>)

  ghost predicate Sound(c: Scheme) {
    forall hrp, data, enc ::
      var d := c.check(hrp, data, enc);
      |d| == CHECK_LEN && Quintets(d) && c.sum(Expand(hrp) + (data + d)) == Some(enc)
  }

  function Text(hrp: string, data: seq<nat>, check: seq<nat>): Option<string> {
    if !Printable(hrp) || !NoUpper(hrp) || |hrp| + 7 + |data| > 90 || !Quintets(data) || !Quintets(check) then None
    else Some(hrp + "1" + Chars(data + check))
  }

  function Encode(c: Scheme, hrp: string, data: seq<nat>, enc: Encoding): Option<string> {
    Text(hrp, data, c.check(hrp, data, enc))
  }

  /** Position of the last '1', or -1. */
  function LastOne(s: string): (k: int)
    ensures -1 <= k < |s| && (k >= 0 ==> s[k] == '1')
    ensures forall i | k < i < |s| :: s[i] != '1'
  {
    if s == [] then -1 else if s[|s| - 1] == '1' then |s| - 1 else LastOne(s[..|s| - 1])
  }

  datatype Decoded = Decoded(enc: Encoding, hrp: string, data: seq<nat>)

  datatype Parts = Parts(hrp: string, values: seq<nat>)

  /** Everything bech32_decode checks before it looks at the checksum. */
  function Split(input: string): Option<Parts> {
    var sep := LastOne(input);
    if |input| < 8 || |input| > 90 || sep < 1 || |input| - 1 - sep < 6 then None
    else
      var hrp, body := input[..sep], input[sep + 1..];
      if !Printable(hrp) || !AllValues(body) || (!NoLower(input) && !NoUpper(input)) then None
      else Some(Parts(LowerAll(hrp), Values(body)))
  }

  function Judge(p: Parts, enc: Option<Encoding>): Option<Decoded> {
    if enc.None? || |p.values| < 6 then None
    else Some(Decoded(enc.value, p.hrp, p.values[..|p.values| - 6]))
  }

  function Decode(c: Scheme, input: string): Option<Decoded> {
    var p := Split(input);
    if p.None? then None else Judge(p.value, c.sum(Expand(p.value.hrp) + p.value.values))
  }

  lemma {:induction false} Separator(hrp: string, body: string)
    requires forall i | 0 <= i < |body| :: body[i] != '1'
    ensures LastOne(hrp + "1" + body) == |hrp|
    decreases |body|
  {
    var s := hrp + "1" + body;
    if body == [] {
      assert s == hrp + "1";
    } else {
      assert s[..|s| - 1] == hrp + "1" + body[..|body| - 1];
      Separator(hrp, body[..|body| - 1]);
    }
  }

  lemma SplitText(hrp: string, d: seq<nat>)
    requires |hrp| >= 1 && Printable(hrp) && NoUpper(hrp) && Quintets(d) && |d| >= 6 && |hrp| + 1 + |d| <= 90
    ensures Split(hrp + "1" + Chars(d)) == Some(Parts(hrp, d))
  {
    var body := Chars(d);
    var text := hrp + "1" + body;
    ValuesOfChars(d);
    Separator(hrp, body);
    assert text[..|hrp|] == hrp && text[|hrp| + 1..] == body;
    assert LowerAll(hrp) == hrp;
    assert NoUpper(text);
  }

  /** Whatever the encoder accepts, the decoder gives back, encoding included. */
  lemma Bech32RoundTrip(c: Scheme, hrp: string, data: seq<nat>, enc: Encoding)
    requires Sound(c) && |hrp| >= 1 && Encode(c, hrp, data, enc).Some?
    ensures var text := Encode(c, hrp, data, enc).value;
            && Decode(c, text) == Some(Decoded(enc, hrp, data))
            && |text| == |hrp| + 7 + |data| && text[..|hrp| + 1] == hrp + "1"
  {
    var check := c.check(hrp, data, enc);
    assert |check| == 6 && c.sum(Expand(hrp) + (data + check)) == Some(enc);
    SplitText(hrp, data + check);
    assert (data + check)[..|data|] == data;
  }

  // ---- what is accepted ----

  /** The encoder accepts exactly a prefix of printable characters without upper-case letters and values below
      32 that make at most 90 characters together with the separator and the checksum. */
  lemma EncodesExactly(c: Scheme, hrp: string, data: seq<nat>, enc: Encoding)
    requires Sound(c)
    ensures Encode(c, hrp, data, enc).Some? <==>
            && (forall i | 0 <= i < |hrp| :: 33 <= hrp[i] as int <= 126 && !('A' <= hrp[i] <= 'Z'))
            && (forall i | 0 <= i < |data| :: data[i] < 32) && |hrp| + 7 + |data| <= 90
  {
    var check := c.check(hrp, data, enc);
    assert Quintets(check);
  }

  /** The separator: the last '1', with at least one character before it and six behind. */
  ghost predicate Separates(s: string, sep: nat) {
    1 <= sep && sep + 7 <= |s| && s[sep] == '1' && forall i | sep < i < |s| :: s[i] != '1'
  }

  /** The decoder accepts exactly 8 to 90 characters, not in both cases, with printable ones before the separator,
      ones of the alphabet behind it, and a checksum. */
  lemma DecodesExactly(c: Scheme, s: string, sep: nat)
    requires Separates(s, sep)
    ensures Decode(c, s).Some? <==>
            && 8 <= |s| <= 90
            && (forall i | 0 <= i < sep :: 33 <= s[i] as int <= 126)
            && (forall i | sep < i < |s| :: ValueOf(s[i]) >= 0)
            && !(exists i, j :: 0 <= i < |s| && 0 <= j < |s| && 'a' <= s[i] <= 'z' && 'A' <= s[j] <= 'Z')
            && AllValues(s[sep + 1..]) && c.sum(Expand(LowerAll(s[..sep])) + Values(s[sep + 1..])).Some?
  {
    SeparatorIs(s, sep);
    assert Printable(s[..sep]) <==> forall i | 0 <= i < sep :: 33 <= s[i] as int <= 126;
    Behind(s, sep);
    CasesMix(s);
  }

  lemma Behind(s: string, sep: nat)
    requires sep < |s|
    ensures AllValues(s[sep + 1..]) <==> forall i | sep < i < |s| :: ValueOf(s[i]) >= 0
  {
    if AllValues(s[sep + 1..]) {
      forall i | sep < i < |s| ensures ValueOf(s[i]) >= 0 { assert s[sep + 1..][i - sep - 1] == s[i]; }
    }
  }

  lemma CasesMix(s: string)
    ensures !NoLower(s) && !NoUpper(s)
            <==> exists i, j :: 0 <= i < |s| && 0 <= j < |s| && 'a' <= s[i] <= 'z' && 'A' <= s[j] <= 'Z'
  {
    if !NoLower(s) && !NoUpper(s) {
      var i :| 0 <= i < |s| && IsLower(s[i]);
      var j :| 0 <= j < |s| && IsUpper(s[j]);
    }
  }

  lemma SeparatorIs(s: string, sep: nat)
    requires Separates(s, sep)
    ensures LastOne(s) == sep
  {
  }

  /** Without such a separator nothing is accepted. */
  lemma DecodedSeparates(c: Scheme, s: string)
    requires Decode(c, s).Some?
    ensures exists sep: nat :: Separates(s, sep)
  {
    assert Separates(s, LastOne(s));
  }

  // ---- letters in either case ----

  function Upper(c: char): char { if 'a' <= c <= 'z' then c - 'a' + 'A' else c }
  function UpperAll(s: string): string { seq(|s|, i requires 0 <= i < |s| => Upper(s[i])) }

  lemma {:induction false} LastOneUpper(s: string)
    ensures LastOne(UpperAll(s)) == LastOne(s)
    decreases |s|
  {
    if s != [] {
      assert UpperAll(s)[..|s| - 1] == UpperAll(s[..|s| - 1]);
      LastOneUpper(s[..|s| - 1]);
    }
  }

  lemma SameValues(s: string)
    ensures AllValues(UpperAll(s)) <==> AllValues(s)
    ensures AllValues(s) ==> Values(UpperAll(s)) == Values(s)
    ensures LowerAll(UpperAll(s)) == LowerAll(s) && (Printable(UpperAll(s)) <==> Printable(s))
  {
    assert forall i | 0 <= i < |s| :: Lower(UpperAll(s)[i]) == Lower(s[i]);
    assert forall i | 0 <= i < |s| :: ValueOf(UpperAll(s)[i]) == ValueOf(s[i]);
  }

  /** A text without upper-case letters reads the same when they are all made upper case, and the mixture
      that lies between is refused. */
  lemma UpperReadsAlike(c: Scheme, s: string)
    requires NoUpper(s)
    ensures Decode(c, UpperAll(s)) == Decode(c, s)
  {
    SplitUpper(s);
  }

  lemma SplitUpper(s: string)
    requires NoUpper(s)
    ensures Split(UpperAll(s)) == Split(s)
  {
    LastOneUpper(s);
    NoneLower(s);
    var sep := LastOne(s);
    if sep >= 0 {
      UpperSlices(s, sep);
      SameValues(s[..sep]);
      SameValues(s[sep + 1..]);
    }
  }

  lemma NoneLower(s: string)
    ensures NoLower(UpperAll(s))
  {
  }

  lemma UpperSlices(s: string, k: nat)
    requires k < |s|
    ensures UpperAll(s)[..k] == UpperAll(s[..k]) && UpperAll(s)[k + 1..] == UpperAll(s[k + 1..])
  {
  }

  lemma MixedIsRefused(c: Scheme, s: string, i: nat, j: nat)
    requires i < |s| && j < |s| && 'a' <= s[i] <= 'z' && 'A' <= s[j] <= 'Z'
    ensures Decode(c, s) == None
  {
  }

  /** What is written and read, by the spelling of the values and of the checksum digits. */
  lemma Written(c: Scheme, hrp: string, data: seq<nat>, enc: Encoding, check: seq<nat>, spelled: string, end: string)
    requires Sound(c) && |hrp| >= 1 && Printable(hrp) && NoUpper(hrp) && |hrp| + 7 + |data| <= 90
    requires c.check(hrp, data, enc) == check && Quintets(data) && Quintets(check)
    requires Chars(data) == spelled && Chars(check) == end
    ensures Encode(c, hrp, data, enc) == Some(hrp + "1" + (spelled + end))
    ensures Decode(c, hrp + "1" + (spelled + end)) == Some(Decoded(enc, hrp, data))
  {
    assert Chars(data + check) == spelled + end;
    Bech32RoundTrip(c, hrp, data, enc);
  }

  // ---- the program's scheme ----

  function EncodingOf(chk: bv32): Option<Encoding> {
    if chk == FinalConstant(Plain) then Some(Plain)
    else if chk == FinalConstant(Modified) then Some(Modified)
    else None
  }

  function CheckDigits(hrp: string, data: seq<nat>, enc: Encoding): (d: seq<nat>)
    ensures |d| == CHECK_LEN && Quintets(d)
  {
    Checksum(Absorb(OPS, 1, Expand(hrp) + data), enc)
  }

  function SumEncoding(d: seq<nat>): Option<Encoding> { EncodingOf(Absorb(OPS, 1, d)) }

  const BECH32 := Scheme(CheckDigits, SumEncoding)

  lemma EncodingOfConstant(enc: Encoding)
    ensures EncodingOf(FinalConstant(enc)) == Some(enc)
  {
  }

  lemma EncodedSums(hrp: string, data: seq<nat>, enc: Encoding)
    ensures SumEncoding(Expand(hrp) + (data + CheckDigits(hrp, data, enc))) == Some(enc)
  {
    AbsorbThree(OPS, 1, Expand(hrp), data, CheckDigits(hrp, data, enc));
    ChecksumCloses(Absorb(OPS, 1, Expand(hrp) + data), enc);
    EncodingOfConstant(enc);
  }

  lemma ProgramCheck(hrp: string, data: seq<nat>, enc: Encoding)
    ensures BECH32.check(hrp, data, enc) == CheckDigits(hrp, data, enc)
  {
  }

  /** The checksums of the program are sound: this is where linearity over GF(2) is used. */
  lemma Bech32IsSound()
    ensures Sound(BECH32)
  {
    forall hrp, data, enc
      ensures var d := BECH32.check(hrp, data, enc);
              |d| == CHECK_LEN && Quintets(d) && BECH32.sum(Expand(hrp) + (data + d)) == Some(enc)
    {
      EncodedSums(hrp, data, enc);
    }
  }

  // ---- the loops ----

  method ChecksumState(hrp: string, data: seq<nat>) returns (chk: bv32)
    requires Printable(hrp) && Quintets(data)
    ensures chk == Absorb(OPS, 1, Expand(hrp) + data)
  {
    var hi := RunChecksum(OPS, 1, HighBits(hrp));
    var mid := RunChecksum(OPS, hi, [0]);
    var lo := RunChecksum(OPS, mid, LowBits(hrp));
    chk := RunChecksum(OPS, lo, data);
    AbsorbConcat(OPS, 1, HighBits(hrp), [0]);
    AbsorbConcat(OPS, 1, HighBits(hrp) + [0], LowBits(hrp));
    AbsorbConcat(OPS, 1, Expand(hrp), data);
  }

  /** The six extra steps and the constant of bech32_encode. */
  method FinishChecksum(chk: bv32, enc: Encoding) returns (d: seq<nat>)
    ensures d == Checksum(chk, enc)
  {
    var six := RunSteps(OPS, chk, CHECK_LEN);
    d := ClosingDigits(six, enc);
  }

  method EncodeBech32(hrp: string, data: seq<nat>, enc: Encoding) returns (r: Option<string>)
    ensures r == Encode(BECH32, hrp, data, enc)
  {
    if !Printable(hrp) || !Quintets(data) { return None; }
    var chk := ChecksumState(hrp, data);
    var check := FinishChecksum(chk, enc);
    assert check == BECH32.check(hrp, data, enc);
    return Text(hrp, data, check);
  }

  /** The scans of bech32_decode: the separator from the back, then both parts. */
  method SplitInput(input: string) returns (r: Option<Parts>)
    ensures r == Split(input)
  {
    var dataLen := 0;
    while dataLen < |input| && input[|input| - 1 - dataLen] != '1'
      invariant dataLen <= |input| && forall i | |input| - dataLen <= i < |input| :: input[i] != '1'
    {
      dataLen := dataLen + 1;
    }
    assert LastOne(input) == |input| - 1 - dataLen;
    if |input| < 8 || |input| > 90 || 1 + dataLen >= |input| || dataLen < 6 { return None; }
    var hrp, body := input[..|input| - 1 - dataLen], input[|input| - dataLen..];
    if !Printable(hrp) || !AllValues(body) || (!NoLower(input) && !NoUpper(input)) { return None; }
    return Some(Parts(LowerAll(hrp), Values(body)));
  }

  lemma SplitIsPrintable(input: string)
    requires Split(input).Some?
    ensures Printable(Split(input).value.hrp) && Quintets(Split(input).value.values)
  {
  }

  method SumValues(hrp: string, values: seq<nat>) returns (enc: Option<Encoding>)
    requires Printable(hrp) && Quintets(values)
    ensures enc == BECH32.sum(Expand(hrp) + values)
  {
    var chk := ChecksumState(hrp, values);
    enc := EncodingOf(chk);
  }

  method DecodeBech32(input: string) returns (r: Option<Decoded>)
    ensures r == Decode(BECH32, input)
  {
    var p := SplitInput(input);
    if p.None? { return None; }
    SplitIsPrintable(input);
    var enc := SumValues(p.value.hrp, p.value.values);
    return Judge(p.value, enc);
  }
}
