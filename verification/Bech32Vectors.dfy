/** Test vectors of the standards, "a12uel5l" of BIP-173 and "a1lqfn3a" of BIP-350: they fix the
    generator of the checksum step and both constants. */
module Bech32Vectors {
  import opened LinearChecksum
  import opened Bech32Checksum
  import Segwit

  lemma Step0()
    ensures Xor(Step(1), Word(3)) == 0x23 && Xor(Step(0x23), Word(0)) == 0x460 && Xor(Step(0x460), Word(1)) == 0x8c01
  {
  }
  lemma Step1() ensures Step(0x8c01) == 0x118020 && Step(0x118020) == 0x2300400 {}
  lemma Step2() ensures Step(0x2300400) == 0x3d6ad7b2 {}
  lemma Step3() ensures Step(0x3d6ad7b2) == 0x2fd30b9 {}
  lemma Step4() ensures Step(0x2fd30b9) == 0x24cc4092 {}
  lemma Step5() ensures Step(0x24cc4092) == 0x15ccfe9e {}

  /** The state after the part before the separator, in terms of the operations. */
  lemma AbsorbA<W(!new)>(o: Ops<W>, one: W)
    ensures Absorb(o, one, [3, 0, 1])
      == o.xor(o.step(o.xor(o.step(o.xor(o.step(one), o.word(3))), o.word(0))), o.word(1))
  {
    assert [3, 0, 1] == [3, 0] + [1] && [3, 0] == [3] + [0] && [3] == [] + [3];
    AbsorbSnoc(o, one, [], 3);
    AbsorbSnoc(o, one, [3], 0);
    AbsorbSnoc(o, one, [3, 0], 1);
  }

  lemma StateOfA()
    ensures Absorb(OPS, 1, [3, 0, 1]) == 0x8c01
  {
    AbsorbA(OPS, 1);
    Step0();
  }

  lemma SixSteps<W(!new)>(o: Ops<W>, a: W, b: W, c: W, d: W, e: W, f: W, g: W)
    requires o.step(a) == b && o.step(b) == c && o.step(c) == d && o.step(d) == e && o.step(e) == f && o.step(f) == g
    ensures Steps(o, a, CHECK_LEN) == g
  {
    assert Steps(o, a, 0) == a && Steps(o, a, 1) == b && Steps(o, a, 2) == c;
    assert Steps(o, a, 3) == d && Steps(o, a, 4) == e && Steps(o, a, 5) == f;
  }

  lemma StepsOfA()
    ensures Steps(OPS, 0x8c01, CHECK_LEN) == 0x15ccfe9e
  {
    Step1(); Step2(); Step3(); Step4(); Step5();
    SixSteps(OPS, 0x8c01, 0x118020, 0x2300400, 0x3d6ad7b2, 0x2fd30b9, 0x24cc4092, 0x15ccfe9e);
  }

  lemma DigitsOfA()
    ensures ClosingDigits(0x15ccfe9e, Plain) == [10, 28, 25, 31, 20, 31]
    ensures ClosingDigits(0x15ccfe9e, Modified) == [31, 0, 9, 19, 17, 29]
  {
  }

  lemma ExpandedA()
    ensures Segwit.Expand("a") + [] == [3, 0, 1]
  {
  }

  /** The checksum digits of the empty data part under "a", as the standards print them. */
  lemma StandardVectors()
    ensures Segwit.CheckDigits("a", [], Plain) == [10, 28, 25, 31, 20, 31]
    ensures Segwit.CheckDigits("a", [], Modified) == [31, 0, 9, 19, 17, 29]
  {
    ExpandedA();
    StateOfA();
    StepsOfA();
    DigitsOfA();
  }

  /** Those digits spell the strings of the standards. */
  lemma StandardTexts()
    ensures Segwit.Chars([10, 28, 25, 31, 20, 31]) == "2uel5l" && Segwit.Chars([31, 0, 9, 19, 17, 29]) == "lqfn3a"
  {
  }
}
