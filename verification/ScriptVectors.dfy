/** The scripts of published addresses: the P2WPKH example of BIP-173 and the P2PKH address of the first
    block, and the characters of base58 one by one. */
module ScriptVectors {
  import opened Wrappers
  import opened Radix
  import opened AddressVectors
  import opened Address
  import opened Bech32Checksum
  import Base58
  import BitGroups
  import Segwit

  lemma ValueThree(a: nat, b: nat, c: nat, r: nat)
    ensures Value([a, b, c], r) == (a * r + b) * r + c
  {
    assert [a, b, c] == [] + [a] + [b] + [c];
    ValueSnoc([], a, r);
    ValueSnoc([] + [a], b, r);
    ValueSnoc([] + [a] + [b], c, r);
  }

  lemma ValueFive(a: nat, b: nat, c: nat, d: nat, e: nat, r: nat)
    ensures Value([a, b, c, d, e], r) == (((a * r + b) * r + c) * r + d) * r + e
  {
    assert [a, b, c, d, e] == [a, b, c] + [d] + [e];
    ValueThree(a, b, c, r);
    ValueSnoc([a, b, c], d, r);
    ValueSnoc([a, b, c] + [d], e, r);
  }

  /** The numeral d followed by e. */
  lemma Follow(d: seq<nat>, x: nat, e: seq<nat>, y: nat, r: nat, p: nat)
    requires Value(d, r) == x && Value(e, r) == y && Pow(r, |e|) == p
    ensures Value(d + e, r) == x * p + y
  {
    ValueConcat(d, e, r);
  }

  // ---- the witness program of the example ----

  const PROGRAM: seq<nat> :=
    [0x75, 0x1e, 0x76, 0xe8, 0x19, 0x91, 0x96, 0xd4, 0x54, 0x94, 0x1c, 0x45, 0xd1, 0xb3,
     0xa3, 0x23, 0xf1, 0x43, 0x3b, 0xd6]

  const QUINTETS: seq<nat> :=
    [14, 20, 15, 7, 13, 26, 0, 25, 18, 6, 11, 13, 8, 21, 4, 20,
     3, 17, 2, 29, 3, 12, 29, 3, 4, 15, 24, 20, 6, 14, 30, 22]

  lemma Part0()
    ensures Value([117, 30, 118, 232, 25], 256) == 503022282777
    ensures Value([14, 20, 15, 7, 13, 26, 0, 25], 32) == 503022282777
  {
    ValueFive(117, 30, 118, 232, 25, 256);
    ValueThree(14, 20, 15, 32);
    ValueFive(7, 13, 26, 0, 25, 32);
    Fifth();
    Follow([14, 20, 15], 14991, [7, 13, 26, 0, 25], 7792665, 32, 33554432);
    assert [14, 20, 15] + [7, 13, 26, 0, 25] == [14, 20, 15, 7, 13, 26, 0, 25];
  }

  lemma Part1()
    ensures Value([145, 150, 212, 84, 148], 256) == 625300755604
    ensures Value([18, 6, 11, 13, 8, 21, 4, 20], 32) == 625300755604
  {
    ValueFive(145, 150, 212, 84, 148, 256);
    ValueThree(18, 6, 11, 32);
    ValueFive(13, 8, 21, 4, 20, 32);
    Fifth();
    Follow([18, 6, 11], 18635, [13, 8, 21, 4, 20], 13915284, 32, 33554432);
    assert [18, 6, 11] + [13, 8, 21, 4, 20] == [18, 6, 11, 13, 8, 21, 4, 20];
  }

  lemma Part2()
    ensures Value([28, 69, 209, 179, 163], 256) == 121430455203
    ensures Value([3, 17, 2, 29, 3, 12, 29, 3], 32) == 121430455203
  {
    ValueFive(28, 69, 209, 179, 163, 256);
    ValueThree(3, 17, 2, 32);
    ValueFive(29, 3, 12, 29, 3, 32);
    Fifth();
    Follow([3, 17, 2], 3618, [29, 3, 12, 29, 3], 30520227, 32, 33554432);
    assert [3, 17, 2] + [29, 3, 12, 29, 3] == [3, 17, 2, 29, 3, 12, 29, 3];
  }

  lemma Part3()
    ensures Value([35, 241, 67, 59, 214], 256) == 154371570646
    ensures Value([4, 15, 24, 20, 6, 14, 30, 22], 32) == 154371570646
  {
    ValueFive(35, 241, 67, 59, 214, 256);
    ValueThree(4, 15, 24, 32);
    ValueFive(20, 6, 14, 30, 22, 32);
    Fifth();
    Follow([4, 15, 24], 4600, [20, 6, 14, 30, 22], 21183446, 32, 33554432);
    assert [4, 15, 24] + [20, 6, 14, 30, 22] == [4, 15, 24, 20, 6, 14, 30, 22];
  }

  lemma Fifth()
    ensures Pow(32, 5) == 33554432 && Pow(32, 8) == 1099511627776 && Pow(256, 5) == 1099511627776
  {
    assert Pow(32, 3) == 32768;
    PowAdd(32, 5, 3);
  }

  lemma ProgramValueParts()
    ensures PROGRAM ==
      [117, 30, 118, 232, 25] +
      [145, 150, 212, 84, 148] +
      [28, 69, 209, 179, 163] +
      [35, 241, 67, 59, 214]
  {
  }

  lemma ProgramValue()
    ensures Value(PROGRAM, 256) == 668631300771580858519448973337422070966705667030
  {
    Part0();
    Part1();
    Part2();
    Part3();
    Fifth();
    Follow([117, 30, 118, 232, 25],
           503022282777, [145, 150, 212, 84, 148], 625300755604, 256, 1099511627776);
    Follow([117, 30, 118, 232, 25] + [145, 150, 212, 84, 148],
           553078848944363940369556, [28, 69, 209, 179, 163], 121430455203, 256, 1099511627776);
    Follow([117, 30, 118, 232, 25] + [145, 150, 212, 84, 148] + [28, 69, 209, 179, 163],
           608116625491294015336688037984842659, [35, 241, 67, 59, 214], 154371570646, 256, 1099511627776);
    ProgramValueParts();
  }

  lemma QuintetsValueParts()
    ensures QUINTETS ==
      [14, 20, 15, 7, 13, 26, 0, 25] +
      [18, 6, 11, 13, 8, 21, 4, 20] +
      [3, 17, 2, 29, 3, 12, 29, 3] +
      [4, 15, 24, 20, 6, 14, 30, 22]
  {
  }

  lemma QuintetsValue()
    ensures Value(QUINTETS, 32) == 668631300771580858519448973337422070966705667030
  {
    Part0();
    Part1();
    Part2();
    Part3();
    Fifth();
    Follow([14, 20, 15, 7, 13, 26, 0, 25],
           503022282777, [18, 6, 11, 13, 8, 21, 4, 20], 625300755604, 32, 1099511627776);
    Follow([14, 20, 15, 7, 13, 26, 0, 25] + [18, 6, 11, 13, 8, 21, 4, 20],
           553078848944363940369556, [3, 17, 2, 29, 3, 12, 29, 3], 121430455203, 32, 1099511627776);
    Follow([14, 20, 15, 7, 13, 26, 0, 25] + [18, 6, 11, 13, 8, 21, 4, 20] + [3, 17, 2, 29, 3, 12, 29, 3],
           608116625491294015336688037984842659, [4, 15, 24, 20, 6, 14, 30, 22], 154371570646, 32, 1099511627776);
    QuintetsValueParts();
  }

  lemma Regrouped()
    ensures BitGroups.Unpadded(QUINTETS, 5, 8) == Some(PROGRAM)
  {
    assert Pow(2, 5) == 32 && Pow(2, 8) == 256 && Pow(2, 0) == 1;
    ProgramValue();
    QuintetsValue();
    ToDigitsOfValue(PROGRAM, 256);
  }

  lemma ProgramOfSample()
    ensures |SAMPLE_VALUES| == 33 && SAMPLE_VALUES[0] == 0 && SAMPLE_VALUES[1..] == QUINTETS
    ensures WitnessOf("bc", Some(Segwit.Decoded(Plain, "bc", SAMPLE_VALUES))) == Some(Witness(0, PROGRAM))
  {
    assert SAMPLE_VALUES[1..] == QUINTETS;
    Regrouped();
  }

  /** The example of BIP-173 pays to its witness program. */
  lemma ExampleScript(h: Hash)
    ensures AddressToScript(Segwit.BECH32, h, "bc1qw508d6qejxtdg4y5r3zarvary0c5xw7kv8f3t4") == Some([0, 20] + PROGRAM)
  {
    SampleText();
    ScriptOfSample(Segwit.BECH32, h);
  }

  lemma ScriptOfSample(c: Segwit.Scheme, h: Hash)
    requires Segwit.Decode(c, "bc1qw508d6qejxtdg4y5r3zarvary0c5xw7kv8f3t4")
      == Some(Segwit.Decoded(Plain, "bc", SAMPLE_VALUES))
    ensures AddressToScript(c, h, "bc1qw508d6qejxtdg4y5r3zarvary0c5xw7kv8f3t4") == Some([0, 20] + PROGRAM)
  {
    ProgramOfSample();
    SampleLooks();
    DecodedScript(c, h, "bc1qw508d6qejxtdg4y5r3zarvary0c5xw7kv8f3t4", Segwit.Decoded(Plain, "bc", SAMPLE_VALUES),
                  PROGRAM);
  }

  lemma SampleLooks()
    ensures var addr := "bc1qw508d6qejxtdg4y5r3zarvary0c5xw7kv8f3t4";
            |addr| == 42 && LooksLikeBech32(addr) && HrpFor(addr) == "bc"
  {
    SampleJoined();
    MainnetLooks("qw508d6qejxtdg4y5r3zarvary0c5xw7k" + "v8f3t4");
  }

  lemma MainnetLooks(rest: string)
    requires |rest| >= 13
    ensures LooksLikeBech32("bc" + "1" + rest) && HrpFor("bc" + "1" + rest) == "bc"
  {
    assert ("bc" + "1" + rest)[..2] == "bc";
  }

  lemma DecodedScript(c: Segwit.Scheme, h: Hash, addr: string, d: Segwit.Decoded, prog: Bytes)
    requires |addr| >= 16 && LooksLikeBech32(addr) && HrpFor(addr) == "bc" && Segwit.Decode(c, addr) == Some(d)
    requires WitnessOf("bc", Some(d)) == Some(Witness(0, prog)) && |prog| == 20
    ensures AddressToScript(c, h, addr) == Some([0, 20] + prog)
  {
  }

  // ---- base58 ----

  const PAYLOAD: seq<nat> :=
    [0x00, 0x62, 0xe9, 0x07, 0xb1, 0x5c, 0xbf, 0x27, 0xd5, 0x42, 0x53, 0x99, 0xeb,
     0xf6, 0xf0, 0xfb, 0x50, 0xeb, 0xb8, 0x8f, 0x18, 0xc2, 0x9b, 0x7d, 0x93]

  const DIGITS: seq<nat> :=
    [0, 9, 0, 57, 22, 0, 37, 22, 4, 23, 15, 37, 38, 41, 1, 12, 20,
     22, 26, 38, 26, 19, 4, 25, 19, 44, 53, 6, 12, 41, 53, 38, 21, 33]

  lemma Powers()
    ensures Pow(58, 5) == 656356768 && Pow(58, 3) == 195112 && Pow(256, 5) == 1099511627776
  {
    assert Pow(58, 3) == 195112 && Pow(256, 3) == 16777216;
  }

  lemma PayloadChunks()
    ensures Value([0, 98, 233, 7, 177], 256) == 1659439025
    ensures Value([92, 191, 39, 213, 66], 256) == 398344049986
    ensures Value([83, 153, 235, 246, 240], 256) == 359064663792
    ensures Value([251, 80, 235, 184, 143], 256) == 1079394416783
    ensures Value([24, 194, 155, 125, 147], 256) == 106344185235
  {
    ValueFive(0, 98, 233, 7, 177, 256);
    ValueFive(92, 191, 39, 213, 66, 256);
    ValueFive(83, 153, 235, 246, 240, 256);
    ValueFive(251, 80, 235, 184, 143, 256);
    ValueFive(24, 194, 155, 125, 147, 256);
  }

  lemma PayloadParts()
    ensures PAYLOAD ==
      [0, 98, 233, 7, 177] + [92, 191, 39, 213, 66] + [83, 153, 235, 246, 240] + [251, 80, 235, 184, 143] +
      [24, 194, 155, 125, 147]
  {
  }

  lemma PayloadValue()
    ensures Value(PAYLOAD, 256) == 2425272852617787204149748718533766320022242666561985543571
  {
    PayloadChunks();
    Powers();
    Follow([0, 98, 233, 7, 177],
           1659439025, [92, 191, 39, 213, 66], 398344049986, 256, 1099511627776);
    Follow([0, 98, 233, 7, 177] + [92, 191, 39, 213, 66],
           1824572503971112408386, [83, 153, 235, 246, 240], 359064663792, 256, 1099511627776);
    Follow([0, 98, 233, 7, 177] + [92, 191, 39, 213, 66] + [83, 153, 235, 246, 240],
           2006138683836610028226321597593328, [251, 80, 235, 184, 143], 1079394416783, 256, 1099511627776);
    Follow([0, 98, 233, 7, 177] + [92, 191, 39, 213, 66] + [83, 153, 235, 246, 240] + [251, 80, 235, 184, 143],
           2205772809809593312956848165898705992751495311, [24, 194, 155, 125, 147], 106344185235, 256, 1099511627776);
    PayloadParts();
  }

  lemma DigitsChunks()
    ensures Value([0], 58) == 0
    ensures Value([9, 0, 57], 58) == 30333
    ensures Value([22, 0, 37, 22, 4], 58) == 249088660
    ensures Value([23, 15, 37, 38, 41], 58) == 263332801
    ensures Value([1, 12, 20, 22, 26], 58) == 13726422
    ensures Value([38, 26, 19, 4, 25], 58) == 435163933
    ensures Value([19, 44, 53, 6, 12], 58) == 223777004
    ensures Value([41, 53, 38, 21, 33], 58) == 474446355
  {
    ValueThree(9, 0, 57, 58);
    ValueFive(22, 0, 37, 22, 4, 58);
    ValueFive(23, 15, 37, 38, 41, 58);
    ValueFive(1, 12, 20, 22, 26, 58);
    ValueFive(38, 26, 19, 4, 25, 58);
    ValueFive(19, 44, 53, 6, 12, 58);
    ValueFive(41, 53, 38, 21, 33, 58);
  }

  lemma DigitsParts()
    ensures DIGITS ==
      [0] + [9, 0, 57] + [22, 0, 37, 22, 4] + [23, 15, 37, 38, 41] + [1, 12, 20, 22, 26] + [38, 26, 19, 4, 25] +
      [19, 44, 53, 6, 12] + [41, 53, 38, 21, 33]
  {
  }

  lemma DigitsValue()
    ensures Value(DIGITS, 58) == 2425272852617787204149748718533766320022242666561985543571
  {
    DigitsChunks();
    Powers();
    Follow([0],
           0, [9, 0, 57], 30333, 58, 195112);
    Follow([0] + [9, 0, 57],
           30333, [22, 0, 37, 22, 4], 249088660, 58, 656356768);
    Follow([0] + [9, 0, 57] + [22, 0, 37, 22, 4],
           19909518932404, [23, 15, 37, 38, 41], 263332801, 58, 656356768);
    Follow([0] + [9, 0, 57] + [22, 0, 37, 22, 4] + [23, 15, 37, 38, 41],
           13067747498907763243073, [1, 12, 20, 22, 26], 13726422, 58, 656356768);
    Follow([0] + [9, 0, 57] + [22, 0, 37, 22, 4] + [23, 15, 37, 38, 41] + [1, 12, 20, 22, 26],
           8577104513423183012332606394486, [38, 26, 19, 4, 25], 435163933, 58, 656356768);
    Follow([0] + [9, 0, 57] + [22, 0, 37, 22, 4] + [23, 15, 37, 38, 41] + [1, 12, 20, 22, 26] +
           [38, 26, 19, 4, 25],
           5629640597228653018247133674101399145181, [19, 44, 53, 6, 12], 223777004, 58, 656356768);
    Follow([0] + [9, 0, 57] + [22, 0, 37, 22, 4] + [23, 15, 37, 38, 41] + [1, 12, 20, 22, 26] +
           [38, 26, 19, 4, 25] + [19, 44, 53, 6, 12],
           3695052707398588452050133683597159647209187712012, [41, 53, 38, 21, 33], 474446355, 58, 656356768);
    DigitsParts();
  }

  lemma FirstDigits()
    ensures Base58.AllDigits("1A1zP1eP5QGefi2DM")
    ensures Base58.DigitsOf("1A1zP1eP5QGefi2DM") == [0, 9, 0, 57, 22, 0, 37, 22, 4, 23, 15, 37, 38, 41, 1, 12, 20]
  {
  }

  lemma SecondDigits()
    ensures Base58.AllDigits("PTfTL5SLmv7DivfNa")
    ensures Base58.DigitsOf("PTfTL5SLmv7DivfNa") == [22, 26, 38, 26, 19, 4, 25, 19, 44, 53, 6, 12, 41, 53, 38, 21, 33]
  {
  }

  lemma DigitsJoin(a: string, b: string)
    requires Base58.AllDigits(a) && Base58.AllDigits(b)
    ensures Base58.AllDigits(a + b) && Base58.DigitsOf(a + b) == Base58.DigitsOf(a) + Base58.DigitsOf(b)
  {
  }

  lemma GenesisText()
    ensures "1A1zP1eP5QGefi2DM" + "PTfTL5SLmv7DivfNa" == "1A1zP1eP5QGefi2DMPTfTL5SLmv7DivfNa"
  {
  }

  lemma GenesisHalves()
    ensures [0, 9, 0, 57, 22, 0, 37, 22, 4, 23, 15, 37, 38, 41, 1, 12, 20] +
      [22, 26, 38, 26, 19, 4, 25, 19, 44, 53, 6, 12, 41, 53, 38, 21, 33] == DIGITS
  {
  }

  lemma GenesisDigits()
    ensures Base58.AllDigits("1A1zP1eP5QGefi2DMPTfTL5SLmv7DivfNa")
    ensures Base58.DigitsOf("1A1zP1eP5QGefi2DMPTfTL5SLmv7DivfNa") == DIGITS
  {
    FirstDigits();
    SecondDigits();
    DigitsJoin("1A1zP1eP5QGefi2DM", "PTfTL5SLmv7DivfNa");
    GenesisText();
    GenesisHalves();
  }

  lemma GenesisDecodes()
    ensures Base58.Decode("1A1zP1eP5QGefi2DMPTfTL5SLmv7DivfNa", 25) == Some(PAYLOAD)
  {
    GenesisDigits();
    DigitsValue();
    PayloadValue();
    ValueBound(PAYLOAD, 256);
    ToDigitsOfValue(PAYLOAD, 256);
  }

  /** The address of the first block pays to its key hash, for any hash with its checksum. */
  lemma GenesisScript(h: Hash)
    requires |h(h(PAYLOAD[..21]))| >= 4 && h(h(PAYLOAD[..21]))[..4] == [0xc2, 0x9b, 0x7d, 0x93]
    ensures AddressToScript(Segwit.BECH32, h, "1A1zP1eP5QGefi2DMPTfTL5SLmv7DivfNa")
      == Some([0x76, 0xa9, 0x14] + PAYLOAD[1..21] + [0x88, 0xac])
  {
    var addr := "1A1zP1eP5QGefi2DMPTfTL5SLmv7DivfNa";
    GenesisDecodes();
    PayloadEnds();
    ChecksOut(h, PAYLOAD, addr);
    NotBech32(Segwit.BECH32, h, addr);
  }

  lemma PayloadEnds()
    ensures |PAYLOAD| == 25 && PAYLOAD[0] == 0 && PAYLOAD[1] != 0 && PAYLOAD[21..] == [0xc2, 0x9b, 0x7d, 0x93]
  {
  }

  lemma ChecksOut(h: Hash, bin: Bytes, addr: string)
    requires |bin| == 25 && bin[0] == 0 && bin[1] != 0 && |addr| > 1 && addr[0] == '1' && addr[1] != '1'
    requires |h(h(bin[..21]))| >= 4 && h(h(bin[..21]))[..4] == bin[21..]
    ensures ChecksBase58(h, bin, addr)
  {
    assert Base58.LeadingZeros(bin) == 1;
  }

  const BASE58: string := "123456789ABCDEFGHJKLMNPQRSTUVWXYZ" + "abcdefghijkmnopqrstuvwxyz"

  /** Every single byte below 58 but zero is written as its character, and read back. */
  lemma OneCharacter(d: nat)
    requires 0 < d < 58
    ensures Base58.Encode([d]) == [BASE58[d]] && Base58.Decode([BASE58[d]], 1) == Some([d])
  {
    CharacterIs(d);
    Base58.RoundTrip([d]);
    OneByte(d);
    assert Base58.EncodedDigits([d]) == [d];
  }

  lemma OneByte(d: nat)
    requires 0 < d < 58
    ensures Value([d], 256) == d && Base58.LeadingZeros([d]) == 0 && MinDigits(d, 58) == [d]
  {
    assert [d] == [] + [d];
    ValueSnoc([], d, 256);
    DivModUnique(d, 58, 0, d);
    assert MinDigits(0, 58) == [];
  }

  lemma CharacterBlocks()
    ensures BASE58 == ("123456789" + "ABCDEFGH" + "JKLMN" + "PQRSTUVWXYZ") + ("abcdefghijk" + "mnopqrstuvwxyz")
  {
    assert "123456789ABCDEFGHJKLMNPQRSTUVWXYZ" == "123456789" + "ABCDEFGH" + "JKLMN" + "PQRSTUVWXYZ";
    assert "abcdefghijkmnopqrstuvwxyz" == "abcdefghijk" + "mnopqrstuvwxyz";
  }

  lemma Block0(d: nat)
    requires d < 9
    ensures Base58.CharOf(d) == "123456789"[d]
  {
  }

  lemma Block1(d: nat)
    requires 9 <= d < 17
    ensures Base58.CharOf(d) == "ABCDEFGH"[d - 9]
  {
  }

  lemma Block2(d: nat)
    requires 17 <= d < 22
    ensures Base58.CharOf(d) == "JKLMN"[d - 17]
  {
  }

  lemma Block3(d: nat)
    requires 22 <= d < 33
    ensures Base58.CharOf(d) == "PQRSTUVWXYZ"[d - 22]
  {
  }

  lemma Block4(d: nat)
    requires 33 <= d < 44
    ensures Base58.CharOf(d) == "abcdefghijk"[d - 33]
  {
  }

  lemma Block5(d: nat)
    requires 44 <= d < 58
    ensures Base58.CharOf(d) == "mnopqrstuvwxyz"[d - 44]
  {
  }

  lemma CharacterIs(d: nat)
    requires d < 58
    ensures Base58.CharOf(d) == BASE58[d]
  {
    CharacterBlocks();
    if d < 9 { Block0(d); }
    else if d < 17 { Block1(d); }
    else if d < 22 { Block2(d); }
    else if d < 33 { Block3(d); }
    else if d < 44 { Block4(d); }
    else { Block5(d); }
  }
}
