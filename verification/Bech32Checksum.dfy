/** The checksum of Bech32 and Bech32m (src/thirdparty_segwit_addr.c; sections "Bech32" of
    BIP-173 and "Bech32m" of BIP-350) as arithmetic over GF(2): the step is linear, and the six
    digits the encoder appends make the whole string sum to the encoding's constant. */
module Bech32Checksum {
  import opened LinearChecksum

  datatype Encoding = Plain | Modified

  /** bech32_final_constant */
  function FinalConstant(enc: Encoding): bv32 {
    if enc == Plain then 1 else 0x2bc830a3
  }

  /** Exclusive or, named so that linearity can be argued on terms rather than on bits. */
  function Xor(a: bv32, b: bv32): bv32 { a ^ b }

  // ---- bech32_polymod_step ----

  function Shifted(x: bv32): bv32 { (x & 0x1FFFFFF) << 5 }
  function Select0(x: bv32): bv32 { if (x >> 25) & 1 != 0 then 0x3b6a57b2 else 0 }
  function Select1(x: bv32): bv32 { if (x >> 26) & 1 != 0 then 0x26508e6d else 0 }
  function Select2(x: bv32): bv32 { if (x >> 27) & 1 != 0 then 0x1ea119fa else 0 }
  function Select3(x: bv32): bv32 { if (x >> 28) & 1 != 0 then 0x3d4233dd else 0 }
  function Select4(x: bv32): bv32 { if (x >> 29) & 1 != 0 then 0x2a1462b3 else 0 }

  function Step(x: bv32): bv32 {
    Xor(Xor(Xor(Xor(Xor(Shifted(x), Select0(x)), Select1(x)), Select2(x)), Select3(x)), Select4(x))
  }

  lemma ShiftedLinear(a: bv32, b: bv32) ensures Shifted(a ^ b) == Shifted(a) ^ Shifted(b) {}
  lemma Select0Linear(a: bv32, b: bv32) ensures Select0(a ^ b) == Select0(a) ^ Select0(b) {}
  lemma Select1Linear(a: bv32, b: bv32) ensures Select1(a ^ b) == Select1(a) ^ Select1(b) {}
  lemma Select2Linear(a: bv32, b: bv32) ensures Select2(a ^ b) == Select2(a) ^ Select2(b) {}
  lemma Select3Linear(a: bv32, b: bv32) ensures Select3(a ^ b) == Select3(a) ^ Select3(b) {}
  lemma Select4Linear(a: bv32, b: bv32) ensures Select4(a ^ b) == Select4(a) ^ Select4(b) {}

  lemma PartsLinear(a: bv32, b: bv32)
    ensures Shifted(Xor(a, b)) == Xor(Shifted(a), Shifted(b))
    ensures Select0(Xor(a, b)) == Xor(Select0(a), Select0(b))
    ensures Select1(Xor(a, b)) == Xor(Select1(a), Select1(b))
    ensures Select2(Xor(a, b)) == Xor(Select2(a), Select2(b))
    ensures Select3(Xor(a, b)) == Xor(Select3(a), Select3(b))
    ensures Select4(Xor(a, b)) == Xor(Select4(a), Select4(b))
  {
    ShiftedLinear(a, b); Select0Linear(a, b); Select1Linear(a, b);
    Select2Linear(a, b); Select3Linear(a, b); Select4Linear(a, b);
  }

  lemma XorAssoc(a: bv32, b: bv32, c: bv32)
    ensures Xor(Xor(a, b), c) == Xor(a, Xor(b, c))
  {
  }

  lemma XorComm(a: bv32, b: bv32)
    ensures Xor(a, b) == Xor(b, a)
  {
  }

  lemma XorSwap(a: bv32, b: bv32, c: bv32, d: bv32)
    ensures Xor(Xor(a, b), Xor(c, d)) == Xor(Xor(a, c), Xor(b, d))
  {
    XorAssoc(a, b, Xor(c, d));
    XorAssoc(b, c, d);
    XorComm(b, c);
    XorAssoc(c, b, d);
    XorAssoc(a, c, Xor(b, d));
  }

  lemma XorZero(a: bv32)
    ensures Xor(a, 0) == a
  {
  }

  function Sum6(a0: bv32, a1: bv32, a2: bv32, a3: bv32, a4: bv32, a5: bv32): bv32 {
    Xor(Xor(Xor(Xor(Xor(a0, a1), a2), a3), a4), a5)
  }

  lemma Sum6Linear(a0: bv32, b0: bv32, a1: bv32, b1: bv32, a2: bv32, b2: bv32,
                   a3: bv32, b3: bv32, a4: bv32, b4: bv32, a5: bv32, b5: bv32)
    ensures Sum6(Xor(a0, b0), Xor(a1, b1), Xor(a2, b2), Xor(a3, b3), Xor(a4, b4), Xor(a5, b5))
         == Xor(Sum6(a0, a1, a2, a3, a4, a5), Sum6(b0, b1, b2, b3, b4, b5))
  {
    XorSwap(a0, b0, a1, b1);
    XorSwap(Xor(a0, a1), Xor(b0, b1), a2, b2);
    XorSwap(Xor(Xor(a0, a1), a2), Xor(Xor(b0, b1), b2), a3, b3);
    XorSwap(Xor(Xor(Xor(a0, a1), a2), a3), Xor(Xor(Xor(b0, b1), b2), b3), a4, b4);
    XorSwap(Xor(Xor(Xor(Xor(a0, a1), a2), a3), a4), Xor(Xor(Xor(Xor(b0, b1), b2), b3), b4), a5, b5);
  }

  /** The checksum step is linear over GF(2). */
  lemma StepLinear(a: bv32, b: bv32)
    ensures Step(Xor(a, b)) == Xor(Step(a), Step(b))
  {
    PartsLinear(a, b);
    Sum6Linear(Shifted(a), Shifted(b), Select0(a), Select0(b), Select1(a), Select1(b),
               Select2(a), Select2(b), Select3(a), Select3(b), Select4(a), Select4(b));
  }

  function Shl5(x: bv32): bv32 { x << 5 }
  predicate IsLow(x: bv32) { x < 0x2000000 }

  lemma LowParts(d: bv32)
    requires IsLow(d)
    ensures Shifted(d) == Shl5(d)
    ensures Select0(d) == Select1(d) == Select2(d) == Select3(d) == Select4(d) == 0
  {
  }

  /** A value below 2^25 is only shifted. */
  lemma StepSmall(d: bv32)
    requires IsLow(d)
    ensures Step(d) == Shl5(d)
  {
    LowParts(d);
    XorZero(Shl5(d));
  }

  lemma StepBound(d: bv32)
    ensures Step(d) < 0x40000000
  {
  }

  /** A five-bit value as a word. */
  function Word(x: nat): bv32 { if x < 32 then x as bv32 else 0 }

  const OPS: Ops<bv32> := Ops(Xor, Step, Shl5, IsLow, Word)

  lemma StepLaw(a: bv32, h: bv32)
    requires IsLow(h)
    ensures Step(Xor(a, h)) == Xor(Step(a), Shl5(h))
  {
    StepLinear(a, h);
    StepSmall(h);
  }

  lemma OpsLaws()
    ensures Laws(OPS)
  {
    forall a: bv32, b: bv32, c: bv32 ensures OPS.xor(OPS.xor(a, b), c) == OPS.xor(a, OPS.xor(b, c)) {
      XorAssoc(a, b, c);
    }
    forall a: bv32, h: bv32 | OPS.low(h) ensures OPS.step(OPS.xor(a, h)) == OPS.xor(OPS.step(a), OPS.shl(h)) {
      StepLaw(a, h);
    }
  }

  // ---- the six checksum digits ----

  function Group(x: bv32): (g: nat)
    ensures g < 32
  {
    GroupSmall(x);
    (x & 31) as nat
  }

  lemma GroupSmall(x: bv32)
    ensures (x & 31) as nat < 32 && Word((x & 31) as nat) == x & 31
  {
  }

  /** The six five-bit groups of a 30-bit word, most significant first. */
  function Groups(s: bv32): (d: seq<nat>)
    ensures |d| == CHECK_LEN && Quintets(d)
  {
    Six(Group(s >> 25), Group(s >> 20), Group(s >> 15), Group(s >> 10), Group(s >> 5), Group(s))
  }

  /** hi extended by the low group of next. */
  lemma GroupExtends(hi: bv32, next: bv32)
    requires IsLow(hi) && next == (hi << 5) ^ (next & 31)
    ensures Extends(OPS, hi, next, Group(next))
  {
    GroupSmall(next);
  }

  lemma Split0(s: bv32) requires s < 0x40000000 ensures s >> 25 == (0 << 5) ^ ((s >> 25) & 31) {}

  lemma Split1(s: bv32)
    requires s < 0x40000000
    ensures IsLow(s >> 25) && s >> 20 == ((s >> 25) << 5) ^ ((s >> 20) & 31)
  {
  }

  lemma Split2(s: bv32)
    requires s < 0x40000000
    ensures IsLow(s >> 20) && s >> 15 == ((s >> 20) << 5) ^ ((s >> 15) & 31)
  {
  }

  lemma Split3(s: bv32)
    requires s < 0x40000000
    ensures IsLow(s >> 15) && s >> 10 == ((s >> 15) << 5) ^ ((s >> 10) & 31)
  {
  }

  lemma Split4(s: bv32)
    requires s < 0x40000000
    ensures IsLow(s >> 10) && s >> 5 == ((s >> 10) << 5) ^ ((s >> 5) & 31)
  {
  }

  lemma Split5(s: bv32) requires s < 0x40000000 ensures IsLow(s >> 5) && s == ((s >> 5) << 5) ^ (s & 31) {}

  lemma Extends0(s: bv32)
    requires s < 0x40000000
    ensures Extends(OPS, 0, s >> 25, Group(s >> 25))
  {
    Split0(s);
    GroupExtends(0, s >> 25);
  }

  lemma Extends1(s: bv32)
    requires s < 0x40000000
    ensures Extends(OPS, s >> 25, s >> 20, Group(s >> 20))
  {
    Split1(s);
    GroupExtends(s >> 25, s >> 20);
  }

  lemma Extends2(s: bv32)
    requires s < 0x40000000
    ensures Extends(OPS, s >> 20, s >> 15, Group(s >> 15))
  {
    Split2(s);
    GroupExtends(s >> 20, s >> 15);
  }

  lemma Extends3(s: bv32)
    requires s < 0x40000000
    ensures Extends(OPS, s >> 15, s >> 10, Group(s >> 10))
  {
    Split3(s);
    GroupExtends(s >> 15, s >> 10);
  }

  lemma Extends4(s: bv32)
    requires s < 0x40000000
    ensures Extends(OPS, s >> 10, s >> 5, Group(s >> 5))
  {
    Split4(s);
    GroupExtends(s >> 10, s >> 5);
  }

  lemma Extends5(s: bv32)
    requires s < 0x40000000
    ensures Extends(OPS, s >> 5, s, Group(s))
  {
    Split5(s);
    GroupExtends(s >> 5, s);
  }

  lemma ZeroLaw()
    ensures forall a: bv32 :: OPS.xor(a, 0) == a
  {
    forall a: bv32 ensures OPS.xor(a, 0) == a { XorZero(a); }
  }

  lemma GroupsLead(s: bv32) returns (lead: seq<bv32>)
    requires s < 0x40000000
    ensures Leading(OPS, lead, Groups(s)) && lead[CHECK_LEN] == s
  {
    Extends0(s); Extends1(s); Extends2(s); Extends3(s); Extends4(s); Extends5(s);
    ZeroLaw();
    var d;
    lead, d := Assemble(OPS, 0, s >> 25, s >> 20, s >> 15, s >> 10, s >> 5, s,
                        Group(s >> 25), Group(s >> 20), Group(s >> 15), Group(s >> 10), Group(s >> 5), Group(s));
  }

  function ClosingDigits(six: bv32, enc: Encoding): (d: seq<nat>)
    ensures |d| == CHECK_LEN && Quintets(d)
  {
    Groups(Xor(six, FinalConstant(enc)))
  }

  /** The checksum the encoder appends after state chk. */
  function Checksum(chk: bv32, enc: Encoding): (d: seq<nat>)
    ensures |d| == CHECK_LEN && Quintets(d)
  {
    ClosingDigits(Steps(OPS, chk, CHECK_LEN), enc)
  }

  lemma ChecksumCloses(chk: bv32, enc: Encoding)
    ensures Absorb(OPS, chk, Checksum(chk, enc)) == FinalConstant(enc)
  {
    var six, k := Steps(OPS, chk, CHECK_LEN), FinalConstant(enc);
    SixStepsBound(chk);
    var lead, sum := ClosingLead(six, enc);
    OpsLaws();
    Closes(OPS, chk, lead, Checksum(chk, enc), sum, k);
  }

  /** The digits that lead to the constant, as numbers. */
  lemma ClosingLead(six: bv32, enc: Encoding) returns (lead: seq<bv32>, sum: bv32)
    requires six < 0x40000000
    ensures Leading(OPS, lead, ClosingDigits(six, enc)) && lead[CHECK_LEN] == sum
    ensures OPS.xor(six, sum) == FinalConstant(enc)
  {
    sum := Xor(six, FinalConstant(enc));
    ConstantSmall(enc);
    XorSmall(six, FinalConstant(enc));
    lead := GroupsLead(sum);
    XorCancel(six, FinalConstant(enc));
  }

  lemma ConstantSmall(enc: Encoding)
    ensures FinalConstant(enc) < 0x40000000
  {
  }

  lemma SixStepsBound(chk: bv32)
    ensures Steps(OPS, chk, CHECK_LEN) < 0x40000000
  {
    StepBound(Steps(OPS, chk, CHECK_LEN - 1));
  }

  lemma XorSmall(a: bv32, b: bv32)
    requires a < 0x40000000 && b < 0x40000000
    ensures Xor(a, b) < 0x40000000
  {
  }

  lemma XorCancel(a: bv32, b: bv32)
    ensures Xor(a, Xor(a, b)) == b
  {
  }
}
