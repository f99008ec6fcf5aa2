/** Output scripts and addresses (src/datum_utils.c, src/thirdparty_base58.c,
    src/thirdparty_segwit_addr.c): output_script_2_addr, addr_2_output_script and the codecs
    between them.  Double SHA-256 is an arbitrary function with a 32-byte result. */
module Address {
  import opened Wrappers
  import opened Radix
  import Base58
  import Bech32Checksum
  import LinearChecksum
  import Segwit
  import BitGroups

  type Bytes = seq<nat>

  type Hash = Bytes -> Bytes

  ghost predicate IsHash(h: Hash) {
    forall b: Bytes :: |h(b)| == 32 && Digits(h(b), 256)
  }

  // ---- segwit_addr_encode and segwit_addr_decode ----

  function EncodingFor(version: nat): Bech32Checksum.Encoding {
    if version > 0 then Bech32Checksum.Modified else Bech32Checksum.Plain
  }

  predicate ProgramAllowed(version: nat, prog: Bytes) {
    version <= 16 && 2 <= |prog| <= 40 && (version == 0 ==> |prog| == 20 || |prog| == 32)
  }

  function SegwitEncode(c: Segwit.Scheme, hrp: string, version: nat, prog: Bytes): Option<string> {
    if !ProgramAllowed(version, prog) then None
    else Segwit.Encode(c, hrp, [version] + BitGroups.Padded(prog, 8, 5), EncodingFor(version))
  }

  datatype Witness = Witness(version: nat, prog: Bytes)

  /** The checks segwit_addr_decode makes on decoded text. */
  function WitnessOf(hrp: string, dec: Option<Segwit.Decoded>): Option<Witness> {
    if dec.None? || |dec.value.data| == 0 || |dec.value.data| > 65 || dec.value.hrp != hrp then None
    else
      var version := dec.value.data[0];
      var prog := BitGroups.Unpadded(dec.value.data[1..], 5, 8);
      if version > 16 || dec.value.enc != EncodingFor(version) || prog.None?
        || !ProgramAllowed(version, prog.value) then None
      else Some(Witness(version, prog.value))
  }

  function SegwitDecode(c: Segwit.Scheme, hrp: string, addr: string): Option<Witness> {
    WitnessOf(hrp, Segwit.Decode(c, addr))
  }

  lemma PaddedShape(prog: Bytes)
    requires Digits(prog, 256) && 2 <= |prog| <= 40
    ensures var q := BitGroups.Padded(prog, 8, 5);
            3 <= |q| <= 64 && LinearChecksum.Quintets(q)
  {
    assert Pow(2, 5) == 32;
  }

  lemma PaddedLength(prog: Bytes)
    requires |prog| == 20 || |prog| == 32
    ensures |BitGroups.Padded(prog, 8, 5)| == if |prog| == 20 then 32 else 52
  {
  }

  lemma WitnessOfData(version: nat, prog: Bytes)
    requires ProgramAllowed(version, prog) && Digits(prog, 256)
    ensures var data := [version] + BitGroups.Padded(prog, 8, 5);
            && LinearChecksum.Quintets(data) && 4 <= |data| <= 65
            && WitnessOf("bc", Some(Segwit.Decoded(EncodingFor(version), "bc", data))) == Some(Witness(version, prog))
  {
    PaddedShape(prog);
    var data := [version] + BitGroups.Padded(prog, 8, 5);
    assert data[1..] == BitGroups.Padded(prog, 8, 5);
    BitGroups.RegroupRoundTrip(prog);
  }

  lemma EncodeSucceeds(c: Segwit.Scheme, hrp: string, data: seq<nat>, enc: Bech32Checksum.Encoding)
    requires Segwit.Sound(c) && Segwit.Printable(hrp) && Segwit.NoUpper(hrp)
    requires LinearChecksum.Quintets(data) && |hrp| + 7 + |data| <= 90
    ensures Segwit.Encode(c, hrp, data, enc).Some?
  {
    var check := c.check(hrp, data, enc);
    assert |check| == LinearChecksum.CHECK_LEN && LinearChecksum.Quintets(check);
  }

  lemma SegwitRoundTrip(c: Segwit.Scheme, version: nat, prog: Bytes)
    requires Segwit.Sound(c) && ProgramAllowed(version, prog) && Digits(prog, 256)
    ensures SegwitEncode(c, "bc", version, prog).Some?
    ensures var addr := SegwitEncode(c, "bc", version, prog).value;
            && SegwitDecode(c, "bc", addr) == Some(Witness(version, prog))
            && |addr| == 10 + |BitGroups.Padded(prog, 8, 5)| && addr[..3] == "bc1"
  {
    WitnessOfData(version, prog);
    var data, enc := [version] + BitGroups.Padded(prog, 8, 5), EncodingFor(version);
    EncodeSucceeds(c, "bc", data, enc);
    MainnetRoundTrip(c, data, enc);
    assert SegwitEncode(c, "bc", version, prog) == Segwit.Encode(c, "bc", data, enc);
    assert |data| == 1 + |BitGroups.Padded(prog, 8, 5)|;
  }

  lemma MainnetRoundTrip(c: Segwit.Scheme, data: seq<nat>, enc: Bech32Checksum.Encoding)
    requires Segwit.Sound(c) && Segwit.Encode(c, "bc", data, enc).Some?
    ensures var text := Segwit.Encode(c, "bc", data, enc).value;
            && Segwit.Decode(c, text) == Some(Segwit.Decoded(enc, "bc", data))
            && |text| == 9 + |data| && text[..3] == "bc1"
  {
    Segwit.Bech32RoundTrip(c, "bc", data, enc);
    assert "bc" + "1" == "bc1";
  }

  // ---- addr_2_output_script ----

  predicate StartsWith(s: string, p: string) { |s| >= |p| && s[..|p|] == p }

  function HrpFor(addr: string): string
    requires |addr| >= 16
  {
    if addr[0] == 't' then "tb"
    else if addr[2] == 'r' && addr[3] == 't' && addr[4] == '1' then "bcrt"
    else "bc"
  }

  predicate KnownWitness(w: Witness) {
    (w.version == 0 && (|w.prog| == 20 || |w.prog| == 32)) || (w.version == 1 && |w.prog| == 32)
  }

  function WitnessScript(w: Witness): Bytes {
    [if w.version == 0 then 0 else w.version + 0x50, |w.prog|] + w.prog
  }

  /** b58check: the checksum matches, and the leading zero bytes are the leading '1's.  All zero
      bytes, where the program would read past its buffer, are rejected. */
  predicate ChecksBase58(h: Hash, bin: Bytes, addr: string)
    requires |bin| == 25
  {
    var z := Base58.LeadingZeros(bin);
    && |h(h(bin[..21]))| >= 4 && bin[21..] == h(h(bin[..21]))[..4]
    && z < 25 && z <= |addr|
    && (forall i | 0 <= i < z :: addr[i] == '1')
    && (z < |addr| ==> addr[z] != '1')
  }

  function HashScript(version: nat, hash: Bytes): Option<Bytes> {
    if version == 0 || version == 111 then Some([0x76, 0xa9, 0x14] + hash + [0x88, 0xac])
    else if version == 5 || version == 196 then Some([0xa9, 0x14] + hash + [0x87])
    else None
  }

  function WitnessToScript(w: Option<Witness>): Option<Bytes> {
    if w.None? || !KnownWitness(w.value) then None else Some(WitnessScript(w.value))
  }

  /** blkmk_address_to_script */
  function Base58ToScript(h: Hash, addr: string): Option<Bytes> {
    var bin := Base58.Decode(addr, 25);
    if bin.None? || !ChecksBase58(h, bin.value, addr) then None
    else HashScript(bin.value[0], bin.value[1..21])
  }

  predicate LooksLikeBech32(addr: string) { StartsWith(addr, "bc") || StartsWith(addr, "tb") }

  /** None stands for the returned length 0; the buffer is the 64 bytes all callers pass. */
  function AddressToScript(c: Segwit.Scheme, h: Hash, addr: string): Option<Bytes> {
    if |addr| < 16 then None
    else if LooksLikeBech32(addr) then WitnessToScript(SegwitDecode(c, HrpFor(addr), addr))
    else Base58ToScript(h, addr)
  }

  // ---- output_script_2_addr ----

  function Base58Payload(h: Hash, version: nat, hash: Bytes): Bytes
    requires |h(h([version] + hash))| >= 4
  {
    [version] + hash + h(h([version] + hash))[..4]
  }

  function Base58Address(h: Hash, version: nat, hash: Bytes): string
    requires |h(h([version] + hash))| >= 4
  {
    var text := Base58.Encode(Base58Payload(h, version, hash));
    if |text| >= 255 then "UNKNOWN" else text
  }

  function ScriptToAddress(c: Segwit.Scheme, h: Hash, script: Bytes): string
    requires IsHash(h)
  {
    if script == [] then ""
    else if script[0] == 0x6A then "OP_RETURN"
    else if script[0] == 0xA9 then if |script| != 23 then "" else Base58Address(h, 5, script[2..22])
    else if script[0] == 0x76 then if |script| != 25 then "" else Base58Address(h, 0, script[3..23])
    else if script[0] == 0 || script[0] == 0x51 then
      if |script| < 4 || |script| > 42 || script[1] < 2 || script[1] > 0x28 || 2 + script[1] > |script| then "UNKNOWN"
      else
        var r := SegwitEncode(c, "bc", if script[0] == 0 then 0 else 1, script[2..2 + script[1]]);
        if r.None? then "UNKNOWN" else r.value
    else "UNKNOWN"
  }

  // ---- the standard scripts ----

  predicate IsP2pkh(s: Bytes) { |s| == 25 && s[..3] == [0x76, 0xa9, 0x14] && s[23..] == [0x88, 0xac] }
  predicate IsP2sh(s: Bytes) { |s| == 23 && s[..2] == [0xa9, 0x14] && s[22..] == [0x87] }
  predicate IsP2wpkh(s: Bytes) { |s| == 22 && s[..2] == [0, 20] }
  predicate IsP2wsh(s: Bytes) { |s| == 34 && s[..2] == [0, 32] }
  predicate IsP2tr(s: Bytes) { |s| == 34 && s[..2] == [0x51, 32] }

  predicate IsWitnessScript(s: Bytes) { IsP2wpkh(s) || IsP2wsh(s) || IsP2tr(s) }

  lemma WitnessScriptRoundTrip(c: Segwit.Scheme, h: Hash, s: Bytes)
    requires Segwit.Sound(c) && IsHash(h) && Digits(s, 256) && IsWitnessScript(s)
    ensures AddressToScript(c, h, ScriptToAddress(c, h, s)) == Some(s)
  {
    var w := WitnessIn(s);
    WitnessInScript(s);
    PaddedLength(w.prog);
    SegwitRoundTrip(c, w.version, w.prog);
    var addr := SegwitEncode(c, "bc", w.version, w.prog).value;
    WitnessScriptToAddress(c, h, s, addr);
    WitnessAddressToScript(c, h, addr, w);
  }

  function WitnessIn(s: Bytes): Witness
    requires IsWitnessScript(s)
  {
    Witness(if s[0] == 0 then 0 else 1, s[2..])
  }

  lemma WitnessInScript(s: Bytes)
    requires IsWitnessScript(s) && Digits(s, 256)
    ensures var w := WitnessIn(s);
            && KnownWitness(w) && ProgramAllowed(w.version, w.prog) && Digits(w.prog, 256)
            && WitnessScript(w) == s
  {
    assert s[0] == s[..2][0] && s[1] == s[..2][1];
  }

  lemma WitnessScriptToAddress(c: Segwit.Scheme, h: Hash, s: Bytes, addr: string)
    requires IsHash(h) && IsWitnessScript(s)
    requires var w := WitnessIn(s); SegwitEncode(c, "bc", w.version, w.prog) == Some(addr)
    ensures ScriptToAddress(c, h, s) == addr
  {
    assert s[0] == s[..2][0] && s[1] == s[..2][1];
    assert s[2..2 + s[1]] == s[2..];
  }

  lemma WitnessAddressToScript(c: Segwit.Scheme, h: Hash, addr: string, w: Witness)
    requires |addr| >= 16 && addr[..3] == "bc1" && SegwitDecode(c, "bc", addr) == Some(w) && KnownWitness(w)
    ensures AddressToScript(c, h, addr) == Some(WitnessScript(w))
  {
    assert addr[0] == addr[..3][0] == 'b' && addr[1] == addr[..3][1] == 'c' && addr[2] == addr[..3][2] == '1';
    assert addr[..2] == "bc";
  }

  // ---- base58 addresses ----

  /** A number with a nonzero leading byte has at least as many base-58 digits as bytes. */
  lemma EnoughDigits(bin: Bytes)
    requires Digits(bin, 256) && Base58.LeadingZeros(bin) < |bin|
    ensures |Base58.Encode(bin)| >= |bin|
  {
    var z := Base58.LeadingZeros(bin);
    var rest := bin[z..];
    Base58.ZeroPrefix(bin, z, 256);
    var v := Value(rest, 256);
    Base58.SuffixStep(rest, 0, 256);
    assert rest[0..] == rest;
    var k := |rest| - 1;
    MulMono(1, rest[0], Pow(256, k));
    PowMonoBase(58, 256, k);
    MinDigitsLength(v, 58, k);
  }

  lemma NotTooManyDigits(bin: Bytes)
    requires Digits(bin, 256) && |bin| == 25
    ensures |Base58.Encode(bin)| <= 60
  {
    ValueBound(bin, 256);
    Base58.BytesFit(25, 35);
    MinDigitsLength(Value(bin, 256), 58, 35);
  }

  lemma PayloadBytes(h: Hash, version: nat, hash: Bytes)
    requires IsHash(h) && version < 256 && |hash| == 20 && Digits(hash, 256)
    ensures var bin := Base58Payload(h, version, hash);
            && Digits(bin, 256) && |bin| == 25 && bin[0] == version && bin[1..21] == hash
            && bin[..21] == [version] + hash && bin[21..] == h(h(bin[..21]))[..4]
  {
    var bin := Base58Payload(h, version, hash);
    var sum := h(h([version] + hash));
    assert bin[..21] == [version] + hash;
    assert forall i | 21 <= i < 25 :: bin[i] == sum[i - 21];
    assert forall i | 1 <= i < 21 :: bin[i] == hash[i - 1];
  }

  lemma PayloadChecks(h: Hash, bin: Bytes)
    requires Digits(bin, 256) && |bin| == 25 && Base58.LeadingZeros(bin) < 25
    requires |h(h(bin[..21]))| >= 4 && bin[21..] == h(h(bin[..21]))[..4]
    ensures ChecksBase58(h, bin, Base58.Encode(bin))
  {
    Base58.LeadingOnes(bin);
  }

  lemma PayloadText(h: Hash, bin: Bytes)
    requires Digits(bin, 256) && |bin| == 25 && Base58.LeadingZeros(bin) < 25
    requires |h(h(bin[..21]))| >= 4 && bin[21..] == h(h(bin[..21]))[..4]
    ensures Base58ToScript(h, Base58.Encode(bin)) == HashScript(bin[0], bin[1..21])
  {
    Base58.RoundTrip(bin);
    PayloadChecks(h, bin);
  }

  /** What the version byte of a text with a good checksum stands for, on both networks. */
  lemma VersionDecides(h: Hash, version: nat, hash: Bytes)
    requires IsHash(h) && 0 < version < 256 && |hash| == 20 && Digits(hash, 256)
    ensures Base58ToScript(h, Base58.Encode(Base58Payload(h, version, hash)))
      == if version == 111 then Some([0x76, 0xa9, 0x14] + hash + [0x88, 0xac])
         else if version == 5 || version == 196 then Some([0xa9, 0x14] + hash + [0x87])
         else None
  {
    PayloadBytes(h, version, hash);
    PayloadText(h, Base58Payload(h, version, hash));
  }

  lemma NotBech32(c: Segwit.Scheme, h: Hash, addr: string)
    requires |addr| >= 16 && addr[0] != 'b' && addr[0] != 't'
    ensures AddressToScript(c, h, addr) == Base58ToScript(h, addr)
  {
    OtherPrefix(addr);
  }

  lemma OtherPrefix(addr: string)
    requires |addr| >= 2 && addr[0] != 'b' && addr[0] != 't'
    ensures !LooksLikeBech32(addr)
  {
    assert addr[..2][0] == addr[0];
  }

  /** Text that a 25-byte payload with a good checksum was written as is read back as its script. */
  lemma PayloadToScript(c: Segwit.Scheme, h: Hash, bin: Bytes)
    requires Digits(bin, 256) && |bin| == 25 && Base58.LeadingZeros(bin) < 25
    requires |h(h(bin[..21]))| >= 4 && bin[21..] == h(h(bin[..21]))[..4]
    ensures var addr := Base58.Encode(bin);
            && 25 <= |addr| <= 60
            && (addr[0] != 'b' && addr[0] != 't' ==> AddressToScript(c, h, addr) == HashScript(bin[0], bin[1..21]))
  {
    EnoughDigits(bin);
    NotTooManyDigits(bin);
    PayloadText(h, bin);
    var addr := Base58.Encode(bin);
    if addr[0] != 'b' && addr[0] != 't' { NotBech32(c, h, addr); }
  }

  lemma Pow58To33()
    ensures Pow(58, 33) == 15599970876632771988160814054146447252125923204784443097088
  {
    PowAdd(58, 11, 22);
    PowAdd(58, 11, 11);
    assert Pow(58, 11) == 24986644000165537792;
  }

  lemma Pow256To24()
    ensures Pow(256, 24) == 6277101735386680763835789423207666416102355444464034512896
  {
    PowMul(256, 8, 3);
    assert Pow(256, 8) == 18446744073709551616;
    assert Pow(18446744073709551616, 3) == 6277101735386680763835789423207666416102355444464034512896;
  }

  lemma DigitCount(v: nat, n: nat, k: nat, p: nat)
    requires 0 < k < 58 && p == Pow(58, n) && k * p <= v < (k + 1) * p
    ensures |MinDigits(v, 58)| == n + 1
  {
    BlockBounds(v, k, p);
    DigitCountBetween(v, n);
  }

  lemma BlockBounds(v: nat, k: nat, p: nat)
    requires 0 < k < 58 && k * p <= v < (k + 1) * p
    ensures p <= v < p * 58
  {
    MulMono(1, k, p);
    MulMono(k + 1, 58, p);
  }

  lemma DigitCountBetween(v: nat, n: nat)
    requires Pow(58, n) <= v < Pow(58, n) * 58
    ensures |MinDigits(v, 58)| == n + 1
  {
    MinDigitsLength(v, 58, n);
    MinDigitsLength(v, 58, n + 1);
  }

  lemma LeadingDigit(v: nat, n: nat, k: nat, p: nat)
    requires 0 < k < 58 && p == Pow(58, n) && k * p <= v < (k + 1) * p
    ensures |MinDigits(v, 58)| == n + 1 && MinDigits(v, 58)[0] == k
  {
    DigitCount(v, n, k, p);
    MinDigitsValue(v, 58);
    FirstDigitIs(MinDigits(v, 58), v, n, k, p);
  }

  lemma FirstDigitIs(m: seq<nat>, v: nat, n: nat, k: nat, p: nat)
    requires |m| == n + 1 && Digits(m, 58) && Value(m, 58) == v
    requires p == Pow(58, n) && k * p <= v < (k + 1) * p
    ensures m[0] == k
  {
    Base58.SuffixStep(m, 0, 58);
    assert m[0..] == m;
    ValueBound(m[1..], 58);
    LeadingBlockIs(m[0], k, p, Value(m[1..], 58), v);
  }

  lemma LeadingBlockIs(d: nat, k: nat, p: nat, lo: nat, v: nat)
    requires v == d * p + lo && lo < p && k * p <= v < (k + 1) * p
    ensures d == k
  {
    MulDist(k, 1, p);
    MulDist(d, 1, p);
    if d < k { MulMono(d + 1, k, p); }
    if d > k { MulMono(k + 1, d, p); }
  }

  /** Version 5 payloads are written with a leading '3', so they are never taken for bech32. */
  lemma ScriptHashLeadsWithThree(bin: Bytes)
    requires Digits(bin, 256) && |bin| == 25 && bin[0] == 5
    ensures |Base58.Encode(bin)| > 0 && Base58.Encode(bin)[0] == '3'
  {
    Base58.SuffixStep(bin, 0, 256);
    assert bin[0..] == bin;
    ValueBound(bin[1..], 256);
    Pow58To33();
    Pow256To24();
    LeadingDigit(Value(bin, 256), 33, 2, Pow(58, 33));
    assert Base58.LeadingZeros(bin) == 0;
    assert Base58.EncodedDigits(bin)[0] == 2;
  }

  /** Double SHA-256 of 21 zero bytes does not start with four zero bytes. */
  ghost predicate ZeroPayloadHasChecksum(h: Hash) {
    |h(h(Zeros(21)))| >= 4 && h(h(Zeros(21)))[..4] != Zeros(4)
  }

  lemma PayloadNotZero(h: Hash, hash: Bytes)
    requires IsHash(h) && ZeroPayloadHasChecksum(h) && |hash| == 20
    ensures Base58.LeadingZeros(Base58Payload(h, 0, hash)) < 25
  {
    var bin := Base58Payload(h, 0, hash);
    assert bin[..21] == [0] + hash && bin[21..] == h(h([0] + hash))[..4];
    if Base58.LeadingZeros(bin) == 25 {
      AllZero(bin);
    }
  }

  lemma AllZero(bin: Bytes)
    requires |bin| == 25 && Base58.LeadingZeros(bin) == 25
    ensures bin[..21] == Zeros(21) && bin[21..] == Zeros(4)
  {
  }

  lemma StartsWithOne(bin: Bytes)
    requires Base58.LeadingZeros(bin) >= 1
    ensures |Base58.Encode(bin)| > 0 && Base58.Encode(bin)[0] == '1'
  {
    assert Base58.EncodedDigits(bin)[0] == 0;
  }

  lemma HashScriptRoundTrip(c: Segwit.Scheme, h: Hash, version: nat, hash: Bytes, s: Bytes)
    requires IsHash(h) && ZeroPayloadHasChecksum(h) && |hash| == 20 && Digits(hash, 256)
    requires version == 0 || version == 5
    requires ScriptToAddress(c, h, s) == Base58Address(h, version, hash) && HashScript(version, hash) == Some(s)
    ensures AddressToScript(c, h, ScriptToAddress(c, h, s)) == Some(s)
  {
    PayloadBytes(h, version, hash);
    var bin := Base58Payload(h, version, hash);
    if version == 0 {
      PayloadNotZero(h, hash);
      StartsWithOne(bin);
    } else {
      ScriptHashLeadsWithThree(bin);
    }
    PayloadToScript(c, h, bin);
  }

  lemma P2pkhRoundTrip(c: Segwit.Scheme, h: Hash, s: Bytes)
    requires IsHash(h) && ZeroPayloadHasChecksum(h) && Digits(s, 256) && IsP2pkh(s)
    ensures AddressToScript(c, h, ScriptToAddress(c, h, s)) == Some(s)
  {
    assert s[0] == s[..3][0];
    assert s == s[..3] + s[3..23] + s[23..];
    HashScriptRoundTrip(c, h, 0, s[3..23], s);
  }

  lemma P2shRoundTrip(c: Segwit.Scheme, h: Hash, s: Bytes)
    requires IsHash(h) && ZeroPayloadHasChecksum(h) && Digits(s, 256) && IsP2sh(s)
    ensures AddressToScript(c, h, ScriptToAddress(c, h, s)) == Some(s)
  {
    assert s[0] == s[..2][0];
    assert s == s[..2] + s[2..22] + s[22..];
    HashScriptRoundTrip(c, h, 5, s[2..22], s);
  }

  lemma SchemeRoundTrip(c: Segwit.Scheme, h: Hash, s: Bytes)
    requires Segwit.Sound(c) && IsHash(h) && ZeroPayloadHasChecksum(h) && Digits(s, 256)
    requires IsP2pkh(s) || IsP2sh(s) || IsWitnessScript(s)
    ensures AddressToScript(c, h, ScriptToAddress(c, h, s)) == Some(s)
  {
    if IsP2pkh(s) {
      P2pkhRoundTrip(c, h, s);
    } else if IsP2sh(s) {
      P2shRoundTrip(c, h, s);
    } else {
      WitnessScriptRoundTrip(c, h, s);
    }
  }

  /** Every standard script (P2PKH, P2SH, P2WPKH, P2WSH, P2TR) survives being written as an
      address and read back. */
  lemma ScriptRoundTrip(h: Hash, s: Bytes)
    requires IsHash(h) && ZeroPayloadHasChecksum(h) && Digits(s, 256)
    requires IsP2pkh(s) || IsP2sh(s) || IsP2wpkh(s) || IsP2wsh(s) || IsP2tr(s)
    ensures AddressToScript(Segwit.BECH32, h, ScriptToAddress(Segwit.BECH32, h, s)) == Some(s)
  {
    Segwit.Bech32IsSound();
    SchemeRoundTrip(Segwit.BECH32, h, s);
  }
}
