/** The estimate of chirp_output_bytes (src/datum_chirp.c) against the scripts that
    addr_2_output_script (src/datum_utils.c) really makes: it is never too small. */
module AddressSize {
  import opened Wrappers
  import opened Radix
  import Base58
  import Segwit
  import BitGroups
  import Bech32Checksum
  import opened Address
  import ChirpSplit

  // ---- bech32 addresses ----

  lemma DecodedLength(c: Segwit.Scheme, addr: string)
    requires Segwit.Decode(c, addr).Some?
    ensures var dec := Segwit.Decode(c, addr).value; |dec.data| == |addr| - |dec.hrp| - 7
  {
  }

  lemma ProgramLength(hrp: string, dec: Option<Segwit.Decoded>)
    requires WitnessOf(hrp, dec).Some?
    ensures |WitnessOf(hrp, dec).value.prog| == (|dec.value.data| - 1) * 5 / 8 && dec.value.hrp == hrp
  {
  }

  lemma WitnessSize(c: Segwit.Scheme, h: Hash, addr: string)
    requires LooksLikeBech32(addr) && AddressToScript(c, h, addr).Some?
    ensures |AddressToScript(c, h, addr).value| <= 34
    ensures HrpFor(addr) == "bc" && |addr| <= 44 ==> |AddressToScript(c, h, addr).value| == 22
  {
    ProgramLength(HrpFor(addr), Segwit.Decode(c, addr));
    DecodedLength(c, addr);
  }

  // ---- base58 addresses ----

  lemma FirstByteValue(bin: Bytes)
    requires |bin| == 25 && Digits(bin, 256)
    ensures bin[0] * Pow(256, 24) <= Value(bin, 256) < (bin[0] + 1) * Pow(256, 24)
  {
    LeadingValue(bin, 256);
  }

  /** The value of a numeral by its first digit. */
  lemma LeadingValue(d: seq<nat>, b: nat)
    requires |d| > 0 && b > 1 && Digits(d, b)
    ensures d[0] * Pow(b, |d| - 1) <= Value(d, b) < (d[0] + 1) * Pow(b, |d| - 1)
  {
    Base58.SuffixStep(d, 0, b);
    assert d[0..] == d;
    ValueBound(d[1..], b);
    MulDist(d[0], 1, Pow(b, |d| - 1));
  }

  /** No 25-byte number with first byte 111 has the leading base-58 digit 2. */
  lemma DigitTwoIsNotTestnet(v: nat, n: nat, p: nat, q: nat)
    requires n > 0 && p == Pow(58, n - 1) && 2 * p <= v < 3 * p && q == Pow(256, 24)
    ensures !(111 * q <= v < 112 * q)
  {
    Pow58To33();
    Pow256To24();
    assert Pow(58, 34) == Pow(58, 33) * 58;
    if n <= 34 {
      PowMonoExp(58, n - 1, 33);
    } else {
      PowMonoExp(58, 34, n - 1);
    }
  }

  lemma ThreeIsNotTestnet(addr: string, bin: Bytes)
    requires Base58.Decode(addr, 25) == Some(bin) && |addr| > 0 && addr[0] == '3'
    ensures bin[0] != 111
  {
    var d := Base58.DigitsOf(addr);
    var v := Value(d, 58);
    ToDigitsFits(v, 256, 25);
    FirstByteValue(bin);
    LeadingValue(d, 58);
    assert d[0] == 2;
    DigitTwoIsNotTestnet(v, |d|, Pow(58, |d| - 1), Pow(256, 24));
  }

  lemma Base58Size(h: Hash, addr: string)
    requires |addr| > 0 && Base58ToScript(h, addr).Some?
    ensures |Base58ToScript(h, addr).value| <= 25
    ensures addr[0] == '3' ==> |Base58ToScript(h, addr).value| == 23
  {
    var bin := Base58.Decode(addr, 25).value;
    assert |bin[1..21]| == 20;
    assert bin[0] == 0 ==> Base58.LeadingZeros(bin) > 0;
    if addr[0] == '3' { ThreeIsNotTestnet(addr, bin); }
  }

  lemma Prefix(addr: string, p: string)
    requires |p| == 4 && p[..2] == "bc" && |addr| >= 4 && addr[..4] == p
    ensures addr[..2] == "bc" && addr[0] == 'b' && addr[2] == p[2]
  {
    assert addr[..2] == addr[..4][..2];
    assert addr[..4][2] == addr[2] && addr[..4][0] == addr[0] && p[0] == p[..2][0];
  }

  lemma Bech32Fits(c: Segwit.Scheme, h: Hash, addr: string)
    requires LooksLikeBech32(addr) && AddressToScript(c, h, addr).Some?
    ensures 9 + |AddressToScript(c, h, addr).value| <= ChirpSplit.OutputBytes(addr)
  {
    WitnessSize(c, h, addr);
    assert addr[0] == addr[..2][0];
    if addr[..4] == "bc1q" { Prefix(addr, "bc1q"); }
  }

  lemma Base58Fits(c: Segwit.Scheme, h: Hash, addr: string)
    requires !LooksLikeBech32(addr) && AddressToScript(c, h, addr).Some?
    ensures 9 + |AddressToScript(c, h, addr).value| <= ChirpSplit.OutputBytes(addr)
  {
    Base58Size(h, addr);
    if addr[..4] == "bc1q" {
      Prefix(addr, "bc1q");
    } else if addr[..4] == "bc1p" {
      Prefix(addr, "bc1p");
    }
  }

  // ---- for standard scripts the charge is exact ----

  lemma VersionCharacter(version: nat)
    requires version <= 1
    ensures Segwit.CharOf(version) == if version == 0 then 'q' else 'p'
  {
  }

  /** A mainnet witness address begins with bc1 and the character of its version. */
  lemma WitnessAddressStarts(c: Segwit.Scheme, version: nat, prog: Bytes)
    requires Segwit.Sound(c) && ProgramAllowed(version, prog) && Digits(prog, 256) && version <= 1
    ensures SegwitEncode(c, "bc", version, prog).Some?
    ensures var addr := SegwitEncode(c, "bc", version, prog).value;
            |addr| == 10 + |BitGroups.Padded(prog, 8, 5)|
            && addr[..4] == if version == 0 then "bc1q" else "bc1p"
  {
    SegwitRoundTrip(c, version, prog);
    var addr := SegwitEncode(c, "bc", version, prog).value;
    var data := [version] + BitGroups.Padded(prog, 8, 5);
    FirstAfterSeparator(c, data, EncodingFor(version));
    VersionCharacter(version);
    assert addr[..4] == addr[..3] + [addr[3]];
  }

  lemma FirstAfterSeparator(c: Segwit.Scheme, data: seq<nat>, enc: Bech32Checksum.Encoding)
    requires data != [] && Segwit.Encode(c, "bc", data, enc).Some?
    ensures |Segwit.Encode(c, "bc", data, enc).value| > 3 && data[0] < 32
    ensures Segwit.Encode(c, "bc", data, enc).value[3] == Segwit.CharOf(data[0])
  {
    assert (data + c.check("bc", data, enc))[0] == data[0];
  }

  lemma PaddedLengths(prog: Bytes)
    requires |prog| == 20 || |prog| == 32
    ensures |BitGroups.Padded(prog, 8, 5)| == if |prog| == 20 then 32 else 52
  {
  }

  /** The address of a witness script is charged the script's bytes. */
  lemma WitnessCharge(c: Segwit.Scheme, h: Hash, s: Bytes)
    requires Segwit.Sound(c) && IsHash(h) && Digits(s, 256) && IsWitnessScript(s)
    ensures ChirpSplit.OutputBytes(ScriptToAddress(c, h, s)) == 9 + |s|
  {
    var w := WitnessIn(s);
    WitnessInScript(s);
    PaddedLengths(w.prog);
    WitnessAddressStarts(c, w.version, w.prog);
    WitnessScriptToAddress(c, h, s, SegwitEncode(c, "bc", w.version, w.prog).value);
  }

  lemma Base58Charge(h: Hash, version: nat, hash: Bytes)
    requires IsHash(h) && (version == 0 || version == 5) && |hash| == 20 && Digits(hash, 256)
    ensures ChirpSplit.OutputBytes(Base58Address(h, version, hash)) == if version == 0 then 34 else 32
  {
    PayloadBytes(h, version, hash);
    var bin := Base58Payload(h, version, hash);
    NotTooManyDigits(bin);
    if version == 0 { StartsWithOne(bin); } else { ScriptHashLeadsWithThree(bin); }
    NotSegwitPrefix(Base58.Encode(bin));
  }

  lemma NotSegwitPrefix(addr: string)
    requires |addr| > 0 && (addr[0] == '1' || addr[0] == '3')
    ensures |addr| > 4 ==> addr[..4] != "bc1q" && addr[..4] != "bc1p"
  {
    if |addr| > 4 { assert addr[..4][0] == addr[0]; }
  }

  /** The addresses of all five standard scripts are charged exactly the bytes of their outputs. */
  lemma ChargeIsExact(h: Hash, s: Bytes)
    requires IsHash(h) && Digits(s, 256)
    requires IsP2pkh(s) || IsP2sh(s) || IsP2wpkh(s) || IsP2wsh(s) || IsP2tr(s)
    ensures ChirpSplit.OutputBytes(ScriptToAddress(Segwit.BECH32, h, s)) == 9 + |s|
  {
    Segwit.Bech32IsSound();
    ChargeWith(Segwit.BECH32, h, s);
  }

  lemma ChargeWith(c: Segwit.Scheme, h: Hash, s: Bytes)
    requires Segwit.Sound(c) && IsHash(h) && Digits(s, 256)
    requires IsP2pkh(s) || IsP2sh(s) || IsWitnessScript(s)
    ensures ChirpSplit.OutputBytes(ScriptToAddress(c, h, s)) == 9 + |s|
  {
    if IsP2pkh(s) {
      assert s[0] == s[..3][0];
      Base58Charge(h, 0, s[3..23]);
    } else if IsP2sh(s) {
      assert s[0] == s[..2][0];
      Base58Charge(h, 5, s[2..22]);
    } else {
      WitnessCharge(c, h, s);
    }
  }

  /** A payout output never takes more bytes than the budget charged for it. */
  lemma ScriptFits(c: Segwit.Scheme, h: Hash, addr: string)
    requires AddressToScript(c, h, addr).Some?
    ensures 9 + |AddressToScript(c, h, addr).value| <= ChirpSplit.OutputBytes(addr)
  {
    if LooksLikeBech32(addr) {
      Bech32Fits(c, h, addr);
    } else {
      Base58Fits(c, h, addr);
    }
  }
}
