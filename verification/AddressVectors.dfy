/** Published texts read and written whole: the string of BIP-173 that has every character of the bech32
    alphabet, its example of a P2WPKH address, the base58 alphabet, and the address of the first block. */
module AddressVectors {
  import opened Wrappers
  import opened Radix
  import opened LinearChecksum
  import opened Bech32Checksum
  import Segwit
  import opened Bech32Vectors

  // ---- checksum states, five values at a time ----

  function Next(a: bv32, v: nat): bv32 { Xor(Step(a), Word(v)) }

  /** The values d lead from state a to state b. */
  predicate Leads(a: bv32, d: seq<nat>, b: bv32) { Absorb(OPS, a, d) == b }

  lemma Join(a: bv32, d: seq<nat>, b: bv32, e: seq<nat>, c: bv32)
    requires Leads(a, d, b) && Leads(b, e, c)
    ensures Leads(a, d + e, c)
  {
    AbsorbConcat(OPS, a, d, e);
  }

  lemma Three<W>(o: Ops<W>, u: nat, v: nat, w: nat, a: W, b: W, c: W, d: W)
    requires o.xor(o.step(a), o.word(u)) == b && o.xor(o.step(b), o.word(v)) == c && o.xor(o.step(c), o.word(w)) == d
    ensures Absorb(o, a, [u, v, w]) == d
  {
    assert [u, v, w] == [u, v] + [w] && [u, v] == [u] + [v] && [u] == [] + [u];
    AbsorbSnoc(o, a, [], u);
    AbsorbSnoc(o, a, [u], v);
    AbsorbSnoc(o, a, [u, v], w);
  }

  lemma Five<W>(o: Ops<W>, u: nat, v: nat, w: nat, x: nat, y: nat, a: W, b: W, c: W, d: W, e: W, f: W)
    requires o.xor(o.step(a), o.word(u)) == b && o.xor(o.step(b), o.word(v)) == c && o.xor(o.step(c), o.word(w)) == d
    requires o.xor(o.step(d), o.word(x)) == e && o.xor(o.step(e), o.word(y)) == f
    ensures Absorb(o, a, [u, v, w, x, y]) == f
  {
    assert [u, v, w, x, y] == [u, v, w, x] + [y] && [u, v, w, x] == [u, v, w] + [x];
    Three(o, u, v, w, a, b, c, d);
    AbsorbSnoc(o, a, [u, v, w], x);
    AbsorbSnoc(o, a, [u, v, w, x], y);
  }

  // ---- the whole alphabet ----

  const ALL_VALUES: seq<nat> := [0, 1, 2, 3, 4, 5, 6, 7, 8, 9, 10, 11, 12, 13, 14, 15,
   16, 17, 18, 19, 20, 21, 22, 23, 24, 25, 26, 27, 28, 29, 30, 31]

  lemma AlphabetPrefix0Steps()
    ensures Next(0x1, 3) == 0x23 && Next(0x23, 3) == 0x463 && Next(0x463, 3) == 0x8c63 && Next(0x8c63, 3) == 0x118c63
    ensures Next(0x118c63, 3) == 0x2318c63
  {
  }

  lemma AlphabetPrefix0()
    ensures Leads(0x1, [3, 3, 3, 3, 3], 0x2318c63)
  {
    AlphabetPrefix0Steps();
    Five(OPS, 3, 3, 3, 3, 3, 0x1, 0x23, 0x463, 0x8c63, 0x118c63, 0x2318c63);
  }

  lemma AlphabetPrefix1Steps()
    ensures Next(0x2318c63, 3) == 0x3d5bdbd1 && Next(0x3d5bdbd1, 0) == 0x4dcbcd9 && Next(0x4dcbcd9, 1) == 0x3dc7154c
    ensures Next(0x3dc7154c, 2) == 0x17456f7b && Next(0x17456f7b, 3) == 0x8d50561
  {
  }

  lemma AlphabetPrefix1()
    ensures Leads(0x2318c63, [3, 0, 1, 2, 3], 0x8d50561)
  {
    AlphabetPrefix1Steps();
    Five(OPS, 3, 0, 1, 2, 3, 0x2318c63, 0x3d5bdbd1, 0x4dcbcd9, 0x3dc7154c, 0x17456f7b, 0x8d50561);
  }

  lemma AlphabetPrefix2Steps()
    ensures Next(0x8d50561, 4) == 0x401b5de && Next(0x401b5de, 5) == 0x266635a8 && Next(0x266635a8, 6) == 0x3be80e6a
  {
  }

  lemma AlphabetPrefix2()
    ensures Leads(0x8d50561, [4, 5, 6], 0x3be80e6a)
  {
    AlphabetPrefix2Steps();
    Three(OPS, 4, 5, 6, 0x8d50561, 0x401b5de, 0x266635a8, 0x3be80e6a);
  }

  lemma AlphabetPrefixValues()
    ensures Leads(0x1, [3, 3, 3, 3, 3] + [3, 0, 1, 2, 3] + [4, 5, 6], 0x3be80e6a)
  {
    AlphabetPrefix0();
    AlphabetPrefix1();
    Join(0x1, [3, 3, 3, 3, 3], 0x2318c63, [3, 0, 1, 2, 3], 0x8d50561);
    AlphabetPrefix2();
    Join(0x1, [3, 3, 3, 3, 3] + [3, 0, 1, 2, 3], 0x8d50561, [4, 5, 6], 0x3be80e6a);
  }

  lemma AlphabetExpanded()
    ensures Segwit.Expand("abcdef") == [3, 3, 3, 3, 3] + [3, 0, 1, 2, 3] + [4, 5, 6]
  {
  }

  lemma AlphabetData0Steps()
    ensures Next(0x3be80e6a, 0) == 0xf9cd266 && Next(0xf9cd266, 1) == 0x30018ce4 && Next(0x30018ce4, 2) == 0x1767cdec
    ensures Next(0x1767cdec, 3) == 0xc815781 && Next(0xc815781, 4) == 0x28db67b3
  {
  }

  lemma AlphabetData0()
    ensures Leads(0x3be80e6a, [0, 1, 2, 3, 4], 0x28db67b3)
  {
    AlphabetData0Steps();
    Five(OPS, 0, 1, 2, 3, 4, 0x3be80e6a, 0xf9cd266, 0x30018ce4, 0x1767cdec, 0xc815781, 0x28db67b3);
  }

  lemma AlphabetData1Steps()
    ensures Next(0x28db67b3, 5) == 0x2fd98d2c && Next(0x2fd98d2c, 6) == 0x12be0710
    ensures Next(0x12be0710, 7) == 0x11e88668 && Next(0x11e88668, 8) == 0x52fed5 && Next(0x52fed5, 9) == 0xa5fdaa9
  {
  }

  lemma AlphabetData1()
    ensures Leads(0x28db67b3, [5, 6, 7, 8, 9], 0xa5fdaa9)
  {
    AlphabetData1Steps();
    Five(OPS, 5, 6, 7, 8, 9, 0x28db67b3, 0x2fd98d2c, 0x12be0710, 0x11e88668, 0x52fed5, 0xa5fdaa9);
  }

  lemma AlphabetData2Steps()
    ensures Next(0xa5fdaa9, 10) == 0x2e301b62 && Next(0x2e301b62, 11) == 0x2f8ccedd
    ensures Next(0x2f8ccedd, 12) == 0x1816793a && Next(0x1816793a, 13) == 0x212c0d6a
    ensures Next(0x212c0d6a, 14) == 0xf95cffd
  {
  }

  lemma AlphabetData2()
    ensures Leads(0xa5fdaa9, [10, 11, 12, 13, 14], 0xf95cffd)
  {
    AlphabetData2Steps();
    Five(OPS, 10, 11, 12, 13, 14, 0xa5fdaa9, 0x2e301b62, 0x2f8ccedd, 0x1816793a, 0x212c0d6a, 0xf95cffd);
  }

  lemma AlphabetData3Steps()
    ensures Next(0xf95cffd, 15) == 0x31223f8a && Next(0x31223f8a, 16) == 0x3311a03e
    ensures Next(0x3311a03e, 17) == 0xe08010d && Next(0xe08010d, 18) == 0x29be197 && Next(0x29be197, 19) == 0x28166541
  {
  }

  lemma AlphabetData3()
    ensures Leads(0xf95cffd, [15, 16, 17, 18, 19], 0x28166541)
  {
    AlphabetData3Steps();
    Five(OPS, 15, 16, 17, 18, 19, 0xf95cffd, 0x31223f8a, 0x3311a03e, 0xe08010d, 0x29be197, 0x28166541);
  }

  lemma AlphabetData4Steps()
    ensures Next(0x28166541, 20) == 0x3679d37d && Next(0x3679d37d, 21) == 0x556e704
    ensures Next(0x556e704, 22) == 0xc8c6efb
  {
  }

  lemma AlphabetData4()
    ensures Leads(0x28166541, [20, 21, 22], 0xc8c6efb)
  {
    AlphabetData4Steps();
    Three(OPS, 20, 21, 22, 0x28166541, 0x3679d37d, 0x556e704, 0xc8c6efb);
  }

  lemma AlphabetData5Steps()
    ensures Next(0xc8c6efb, 23) == 0x297c48e0 && Next(0x297c48e0, 24) == 0x1b3c6751
    ensures Next(0x1b3c6751, 25) == 0x3f0597ac
  {
  }

  lemma AlphabetData5()
    ensures Leads(0xc8c6efb, [23, 24, 25], 0x3f0597ac)
  {
    AlphabetData5Steps();
    Three(OPS, 23, 24, 25, 0xc8c6efb, 0x297c48e0, 0x1b3c6751, 0x3f0597ac);
  }

  lemma AlphabetData6Steps()
    ensures Next(0x3f0597ac, 26) == 0x347f64d1 && Next(0x347f64d1, 27) == 0x3eea4538
    ensures Next(0x3eea4538, 28) == 0x9853657
  {
  }

  lemma AlphabetData6()
    ensures Leads(0x3f0597ac, [26, 27, 28], 0x9853657)
  {
    AlphabetData6Steps();
    Three(OPS, 26, 27, 28, 0x3f0597ac, 0x347f64d1, 0x3eea4538, 0x9853657);
  }

  lemma AlphabetData7Steps()
    ensures Next(0x9853657, 29) == 0x2e07d307 && Next(0x2e07d307, 30) == 0x2975c268
    ensures Next(0x2975c268, 31) == 0x1a0d3656
  {
  }

  lemma AlphabetData7()
    ensures Leads(0x9853657, [29, 30, 31], 0x1a0d3656)
  {
    AlphabetData7Steps();
    Three(OPS, 29, 30, 31, 0x9853657, 0x2e07d307, 0x2975c268, 0x1a0d3656);
  }

  lemma AlphabetFirst()
    ensures Leads(0x3be80e6a, [0, 1, 2, 3, 4] + [5, 6, 7, 8, 9] + [10, 11, 12, 13, 14] + [15, 16, 17, 18, 19],
                  0x28166541)
  {
    AlphabetData0();
    AlphabetData1();
    Join(0x3be80e6a, [0, 1, 2, 3, 4], 0x28db67b3, [5, 6, 7, 8, 9], 0xa5fdaa9);
    AlphabetData2();
    Join(0x3be80e6a, [0, 1, 2, 3, 4] + [5, 6, 7, 8, 9], 0xa5fdaa9, [10, 11, 12, 13, 14], 0xf95cffd);
    AlphabetData3();
    Join(0x3be80e6a, [0, 1, 2, 3, 4] + [5, 6, 7, 8, 9] + [10, 11, 12, 13, 14],
         0xf95cffd, [15, 16, 17, 18, 19], 0x28166541);
  }

  lemma AlphabetSecond()
    ensures Leads(0x28166541, [20, 21, 22] + [23, 24, 25] + [26, 27, 28] + [29, 30, 31], 0x1a0d3656)
  {
    AlphabetData4();
    AlphabetData5();
    Join(0x28166541, [20, 21, 22], 0xc8c6efb, [23, 24, 25], 0x3f0597ac);
    AlphabetData6();
    Join(0x28166541, [20, 21, 22] + [23, 24, 25], 0x3f0597ac, [26, 27, 28], 0x9853657);
    AlphabetData7();
    Join(0x28166541, [20, 21, 22] + [23, 24, 25] + [26, 27, 28], 0x9853657, [29, 30, 31], 0x1a0d3656);
  }

  lemma AlphabetGroups()
    ensures ALL_VALUES == ([0, 1, 2, 3, 4] + [5, 6, 7, 8, 9] + [10, 11, 12, 13, 14] + [15, 16, 17, 18, 19]) +
      ([20, 21, 22] + [23, 24, 25] + [26, 27, 28] + [29, 30, 31])
  {
  }

  lemma AlphabetData()
    ensures Leads(0x3be80e6a, ALL_VALUES, 0x1a0d3656)
  {
    AlphabetGroups();
    AlphabetFirst();
    AlphabetSecond();
    Join(0x3be80e6a, [0, 1, 2, 3, 4] + [5, 6, 7, 8, 9] + [10, 11, 12, 13, 14] + [15, 16, 17, 18, 19],
         0x28166541,
        [20, 21, 22] + [23, 24, 25] + [26, 27, 28] + [29, 30, 31], 0x1a0d3656);
  }

  lemma AlphabetSix()
    ensures Step(0x1a0d3656) == 0x192fb755 && Step(0x192fb755) == 0x615c087
    ensures Step(0x615c087) == 0x1f82c93f && Step(0x1f82c93f) == 0xe80d418
    ensures Step(0xe80d418) == 0x13814325 && Step(0x13814325) == 0x360000cf
  {
  }

  lemma AlphabetSteps()
    ensures Steps(OPS, 0x1a0d3656, CHECK_LEN) == 0x360000cf
  {
    AlphabetSix();
    SixSteps(OPS, 0x1a0d3656, 0x192fb755, 0x615c087, 0x1f82c93f, 0xe80d418, 0x13814325, 0x360000cf);
  }

  lemma AlphabetClosing()
    ensures ClosingDigits(0x360000cf, Plain) == [27, 0, 0, 0, 6, 14]
  {
  }

  /** The checksum digits of the published text. */
  lemma AlphabetCheck()
    ensures Segwit.CheckDigits("abcdef", ALL_VALUES, Plain) == [27, 0, 0, 0, 6, 14]
  {
    AlphabetExpanded();
    AlphabetPrefixValues();
    AlphabetData();
    Join(1, Segwit.Expand("abcdef"), 0x3be80e6a, ALL_VALUES, 0x1a0d3656);
    AlphabetSteps();
    AlphabetClosing();
  }

  lemma AlphabetSpelled()
    ensures Segwit.Chars(ALL_VALUES) == "qpzry9x8gf2tvdw0s3jn54khce6mua7l"
  {
  }

  lemma AlphabetCheckSpelled()
    ensures Segwit.Chars([27, 0, 0, 0, 6, 14]) == "mqqqxw"
  {
  }

  lemma AlphabetJoined()
    ensures "abcdef" + "1" + ("qpzry9x8gf2tvdw0s3jn54khce6mua7l" + "mqqqxw")
      == "abcdef1qpzry9x8gf2tvdw0s3jn54khce6mua7lmqqqxw"
  {
  }

  lemma AlphabetFits()
    ensures Segwit.Printable("abcdef") && Segwit.NoUpper("abcdef")
    ensures Quintets(ALL_VALUES) && |ALL_VALUES| == 32 && Quintets([27, 0, 0, 0, 6, 14])
  {
  }

  lemma AlphabetTextOf(c: Segwit.Scheme)
    requires Segwit.Sound(c) && c.check("abcdef", ALL_VALUES, Plain) == [27, 0, 0, 0, 6, 14]
    ensures Segwit.Encode(c, "abcdef", ALL_VALUES, Plain) == Some("abcdef1qpzry9x8gf2tvdw0s3jn54khce6mua7lmqqqxw")
    ensures Segwit.Decode(c, "abcdef1qpzry9x8gf2tvdw0s3jn54khce6mua7lmqqqxw")
      == Some(Segwit.Decoded(Plain, "abcdef", ALL_VALUES))
  {
    AlphabetFits();
    AlphabetSpelled();
    AlphabetCheckSpelled();
    Segwit.Written(c, "abcdef", ALL_VALUES, Plain, [27, 0, 0, 0, 6, 14], "qpzry9x8gf2tvdw0s3jn54khce6mua7l", "mqqqxw");
    AlphabetJoined();
  }

  /** The program writes this text of BIP-173, and reads it. */
  lemma AlphabetText()
    ensures Segwit.Encode(Segwit.BECH32, "abcdef", ALL_VALUES, Plain)
      == Some("abcdef1qpzry9x8gf2tvdw0s3jn54khce6mua7lmqqqxw")
    ensures Segwit.Decode(Segwit.BECH32, "abcdef1qpzry9x8gf2tvdw0s3jn54khce6mua7lmqqqxw")
      == Some(Segwit.Decoded(Plain, "abcdef", ALL_VALUES))
  {
    AlphabetCheck();
    Segwit.ProgramCheck("abcdef", ALL_VALUES, Plain);
    Segwit.Bech32IsSound();
    AlphabetTextOf(Segwit.BECH32);
  }

  // ---- an address ----

  const SAMPLE_VALUES: seq<nat> := [0, 14, 20, 15, 7, 13, 26, 0, 25, 18, 6, 11, 13, 8, 21, 4,
   20, 3, 17, 2, 29, 3, 12, 29, 3, 4, 15, 24, 20, 6, 14, 30, 22]

  lemma SamplePrefix0Steps()
    ensures Next(0x1, 3) == 0x23 && Next(0x23, 3) == 0x463 && Next(0x463, 0) == 0x8c60 && Next(0x8c60, 2) == 0x118c02
    ensures Next(0x118c02, 3) == 0x2318043
  {
  }

  lemma SamplePrefix0()
    ensures Leads(0x1, [3, 3, 0, 2, 3], 0x2318043)
  {
    SamplePrefix0Steps();
    Five(OPS, 3, 3, 0, 2, 3, 0x1, 0x23, 0x463, 0x8c60, 0x118c02, 0x2318043);
  }

  lemma SamplePrefixValues()
    ensures Leads(0x1, [3, 3, 0, 2, 3], 0x2318043)
  {
    SamplePrefix0();
  }

  lemma SampleExpanded()
    ensures Segwit.Expand("bc") == [3, 3, 0, 2, 3]
  {
  }

  lemma SampleData0Steps()
    ensures Next(0x2318043, 0) == 0x3d5a5fd2 && Next(0x3d5a5fd2, 14) == 0x4ec3cb7 && Next(0x4ec3cb7, 20) == 0x3bd71899
    ensures Next(0x3bd71899, 15) == 0x87e0c09 && Next(0x87e0c09, 7) == 0x116098dd
  {
  }

  lemma SampleData0()
    ensures Leads(0x2318043, [0, 14, 20, 15, 7], 0x116098dd)
  {
    SampleData0Steps();
    Five(OPS, 0, 14, 20, 15, 7, 0x2318043, 0x3d5a5fd2, 0x4ec3cb7, 0x3bd71899, 0x87e0c09, 0x116098dd);
  }

  lemma SampleData1Steps()
    ensures Next(0x116098dd, 13) == 0x11512870 && Next(0x11512870, 26) == 0x17673dc7
    ensures Next(0x17673dc7, 0) == 0xc9f52e2 && Next(0xc9f52e2, 25) == 0x2b1bcbce
    ensures Next(0x2b1bcbce, 18) == 0x2ca65529
  {
  }

  lemma SampleData1()
    ensures Leads(0x116098dd, [13, 26, 0, 25, 18], 0x2ca65529)
  {
    SampleData1Steps();
    Five(OPS, 13, 26, 0, 25, 18, 0x116098dd, 0x11512870, 0x17673dc7, 0xc9f52e2, 0x2b1bcbce, 0x2ca65529);
  }

  lemma SampleData2Steps()
    ensures Next(0x2ca65529, 6) == 0x62f5002 && Next(0x62f5002, 11) == 0x18d0d994
    ensures Next(0x18d0d994, 13) == 0x39f818aa && Next(0x39f818aa, 8) == 0x36f45ddc
    ensures Next(0x36f45ddc, 21) == 0x14e73324
  {
  }

  lemma SampleData2()
    ensures Leads(0x2ca65529, [6, 11, 13, 8, 21], 0x14e73324)
  {
    SampleData2Steps();
    Five(OPS, 6, 11, 13, 8, 21, 0x2ca65529, 0x62f5002, 0x18d0d994, 0x39f818aa, 0x36f45ddc, 0x14e73324);
  }

  lemma SampleData3Steps()
    ensures Next(0x14e73324, 4) == 0x7f4d934 && Next(0x7f4d934, 20) == 0x23a1ff4b && Next(0x23a1ff4b, 3) == 0x2541dc62
    ensures Next(0x2541dc62, 17) == 0x247f608f && Next(0x247f608f, 2) == 0x3a8fd3c
  {
  }

  lemma SampleData3()
    ensures Leads(0x14e73324, [4, 20, 3, 17, 2], 0x3a8fd3c)
  {
    SampleData3Steps();
    Five(OPS, 4, 20, 3, 17, 2, 0x14e73324, 0x7f4d934, 0x23a1ff4b, 0x2541dc62, 0x247f608f, 0x3a8fd3c);
  }

  lemma SampleData4Steps()
    ensures Next(0x3a8fd3c, 29) == 0xe75f02f && Next(0xe75f02f, 3) == 0xd25c5c6 && Next(0xd25c5c6, 12) == 0x1c492f5b
    ensures Next(0x1c492f5b, 29) == 0xc964f37 && Next(0xc964f37, 3) == 0x2a387174
  {
  }

  lemma SampleData4()
    ensures Leads(0x3a8fd3c, [29, 3, 12, 29, 3], 0x2a387174)
  {
    SampleData4Steps();
    Five(OPS, 29, 3, 12, 29, 3, 0x3a8fd3c, 0xe75f02f, 0xd25c5c6, 0x1c492f5b, 0xc964f37, 0x2a387174);
  }

  lemma SampleData5Steps()
    ensures Next(0x2a387174, 4) == 0x8d1027f && Next(0x8d1027f, 15) == 0x4815615 && Next(0x4815615, 24) == 0x367a4cd5
    ensures Next(0x367a4cd5, 20) == 0x5251205 && Next(0x5251205, 6) == 0x2f2cecb
  {
  }

  lemma SampleData5()
    ensures Leads(0x2a387174, [4, 15, 24, 20, 6], 0x2f2cecb)
  {
    SampleData5Steps();
    Five(OPS, 4, 15, 24, 20, 6, 0x2a387174, 0x8d1027f, 0x4815615, 0x367a4cd5, 0x5251205, 0x2f2cecb);
  }

  lemma SampleData6Steps()
    ensures Next(0x2f2cecb, 14) == 0x25338edc && Next(0x25338edc, 30) == 0x2a353740
    ensures Next(0x2a353740, 22) == 0x979c4ed
  {
  }

  lemma SampleData6()
    ensures Leads(0x2f2cecb, [14, 30, 22], 0x979c4ed)
  {
    SampleData6Steps();
    Three(OPS, 14, 30, 22, 0x2f2cecb, 0x25338edc, 0x2a353740, 0x979c4ed);
  }

  lemma SampleFirst()
    ensures Leads(0x2318043, [0, 14, 20, 15, 7] + [13, 26, 0, 25, 18] + [6, 11, 13, 8, 21] + [4, 20, 3, 17, 2],
                  0x3a8fd3c)
  {
    SampleData0();
    SampleData1();
    Join(0x2318043, [0, 14, 20, 15, 7], 0x116098dd, [13, 26, 0, 25, 18], 0x2ca65529);
    SampleData2();
    Join(0x2318043, [0, 14, 20, 15, 7] + [13, 26, 0, 25, 18], 0x2ca65529, [6, 11, 13, 8, 21], 0x14e73324);
    SampleData3();
    Join(0x2318043, [0, 14, 20, 15, 7] + [13, 26, 0, 25, 18] + [6, 11, 13, 8, 21],
         0x14e73324, [4, 20, 3, 17, 2], 0x3a8fd3c);
  }

  lemma SampleSecond()
    ensures Leads(0x3a8fd3c, [29, 3, 12, 29, 3] + [4, 15, 24, 20, 6] + [14, 30, 22], 0x979c4ed)
  {
    SampleData4();
    SampleData5();
    Join(0x3a8fd3c, [29, 3, 12, 29, 3], 0x2a387174, [4, 15, 24, 20, 6], 0x2f2cecb);
    SampleData6();
    Join(0x3a8fd3c, [29, 3, 12, 29, 3] + [4, 15, 24, 20, 6], 0x2f2cecb, [14, 30, 22], 0x979c4ed);
  }

  lemma SampleGroups()
    ensures SAMPLE_VALUES == ([0, 14, 20, 15, 7] + [13, 26, 0, 25, 18] + [6, 11, 13, 8, 21] + [4, 20, 3, 17, 2]) +
      ([29, 3, 12, 29, 3] + [4, 15, 24, 20, 6] + [14, 30, 22])
  {
  }

  lemma SampleData()
    ensures Leads(0x2318043, SAMPLE_VALUES, 0x979c4ed)
  {
    SampleGroups();
    SampleFirst();
    SampleSecond();
    Join(0x2318043, [0, 14, 20, 15, 7] + [13, 26, 0, 25, 18] + [6, 11, 13, 8, 21] + [4, 20, 3, 17, 2],
         0x3a8fd3c,
        [29, 3, 12, 29, 3] + [4, 15, 24, 20, 6] + [14, 30, 22], 0x979c4ed);
  }

  lemma SampleSix()
    ensures Step(0x979c4ed) == 0x3199845a && Step(0x3199845a) == 0x2466da2e
    ensures Step(0x2466da2e) == 0x9fa91e && Step(0x9fa91e) == 0x13f523c0
    ensures Step(0x13f523c0) == 0x388c1c6f && Step(0x388c1c6f) == 0x1874c574
  {
  }

  lemma SampleSteps()
    ensures Steps(OPS, 0x979c4ed, CHECK_LEN) == 0x1874c574
  {
    SampleSix();
    SixSteps(OPS, 0x979c4ed, 0x3199845a, 0x2466da2e, 0x9fa91e, 0x13f523c0, 0x388c1c6f, 0x1874c574);
  }

  lemma SampleClosing()
    ensures ClosingDigits(0x1874c574, Plain) == [12, 7, 9, 17, 11, 21]
  {
  }

  /** The checksum digits of the published text. */
  lemma SampleCheck()
    ensures Segwit.CheckDigits("bc", SAMPLE_VALUES, Plain) == [12, 7, 9, 17, 11, 21]
  {
    SampleExpanded();
    SamplePrefixValues();
    SampleData();
    Join(1, Segwit.Expand("bc"), 0x2318043, SAMPLE_VALUES, 0x979c4ed);
    SampleSteps();
    SampleClosing();
  }

  lemma SampleSpelled()
    ensures Segwit.Chars(SAMPLE_VALUES) == "qw508d6qejxtdg4y5r3zarvary0c5xw7k"
  {
  }

  lemma SampleCheckSpelled()
    ensures Segwit.Chars([12, 7, 9, 17, 11, 21]) == "v8f3t4"
  {
  }

  lemma SampleJoined()
    ensures "bc" + "1" + ("qw508d6qejxtdg4y5r3zarvary0c5xw7k" + "v8f3t4")
      == "bc1qw508d6qejxtdg4y5r3zarvary0c5xw7kv8f3t4"
  {
  }

  lemma SampleFits()
    ensures Segwit.Printable("bc") && Segwit.NoUpper("bc")
    ensures Quintets(SAMPLE_VALUES) && |SAMPLE_VALUES| == 33 && Quintets([12, 7, 9, 17, 11, 21])
  {
  }

  lemma SampleTextOf(c: Segwit.Scheme)
    requires Segwit.Sound(c) && c.check("bc", SAMPLE_VALUES, Plain) == [12, 7, 9, 17, 11, 21]
    ensures Segwit.Encode(c, "bc", SAMPLE_VALUES, Plain) == Some("bc1qw508d6qejxtdg4y5r3zarvary0c5xw7kv8f3t4")
    ensures Segwit.Decode(c, "bc1qw508d6qejxtdg4y5r3zarvary0c5xw7kv8f3t4")
      == Some(Segwit.Decoded(Plain, "bc", SAMPLE_VALUES))
  {
    SampleFits();
    SampleSpelled();
    SampleCheckSpelled();
    Segwit.Written(c, "bc", SAMPLE_VALUES, Plain, [12, 7, 9, 17, 11, 21],
                   "qw508d6qejxtdg4y5r3zarvary0c5xw7k", "v8f3t4");
    SampleJoined();
  }

  /** And this address. */
  lemma SampleText()
    ensures Segwit.Encode(Segwit.BECH32, "bc", SAMPLE_VALUES, Plain)
      == Some("bc1qw508d6qejxtdg4y5r3zarvary0c5xw7kv8f3t4")
    ensures Segwit.Decode(Segwit.BECH32, "bc1qw508d6qejxtdg4y5r3zarvary0c5xw7kv8f3t4")
      == Some(Segwit.Decoded(Plain, "bc", SAMPLE_VALUES))
  {
    SampleCheck();
    Segwit.ProgramCheck("bc", SAMPLE_VALUES, Plain);
    Segwit.Bech32IsSound();
    SampleTextOf(Segwit.BECH32);
  }

}
