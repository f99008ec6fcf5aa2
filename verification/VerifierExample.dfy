/** Candidates on which the verifier of ChirpVerifier does not reproduce the payouts: 490 members with
    mainnet addresses of P2PKH scripts and equal weights. */
module VerifierExample {
  import opened Wrappers
  import opened Radix
  import opened ChirpDraw
  import opened ChirpSplit
  import opened ChirpVerifier
  import opened Address
  import Segwit
  import ChirpRegistry

  /** The script of member i. */
  function ScriptOfMember(i: nat): Bytes
    requires i < MAX_N
  {
    [0x76, 0xa9, 0x14] + HashOfMember(i) + [0x88, 0xac]
  }

  function HashOfMember(i: nat): Bytes
    requires i < MAX_N
  {
    [i / 256, i % 256] + Zeros(18)
  }

  function AddressOfMember(h: Hash, i: nat): string
    requires IsHash(h) && i < MAX_N
  {
    ScriptToAddress(Segwit.BECH32, h, ScriptOfMember(i))
  }

  function Members(h: Hash): seq<Cand>
    requires IsHash(h)
  {
    seq(MAX_N, i requires 0 <= i < MAX_N => Cand(AddressOfMember(h, i), 1.0))
  }

  lemma MemberScript(i: nat)
    requires i < MAX_N
    ensures IsP2pkh(ScriptOfMember(i)) && Digits(ScriptOfMember(i), 256)
    ensures ScriptOfMember(i)[3..23] == HashOfMember(i) && |HashOfMember(i)| == 20
    ensures ScriptOfMember(i)[3] == i / 256 && ScriptOfMember(i)[4] == i % 256
  {
  }

  /** The address decodes to the member's script, starts with '1' and fits the field for it. */
  lemma MemberAddress(h: Hash, i: nat)
    requires IsHash(h) && ZeroPayloadHasChecksum(h) && i < MAX_N
    ensures var addr := AddressOfMember(h, i);
            && AddressToScript(Segwit.BECH32, h, addr) == Some(ScriptOfMember(i))
            && 0 < |addr| <= ChirpRegistry.ADDR_LEN && addr[0] == '1'
  {
    var s := ScriptOfMember(i);
    MemberScript(i);
    P2pkhRoundTrip(Segwit.BECH32, h, s);
    PayloadBytes(h, 0, HashOfMember(i));
    var bin := Base58Payload(h, 0, HashOfMember(i));
    NotTooManyDigits(bin);
    StartsWithOne(bin);
  }

  /** Different members have different addresses. */
  lemma MembersDiffer(h: Hash)
    requires IsHash(h) && ZeroPayloadHasChecksum(h)
    ensures DistinctAddresses(Members(h)) && FullHouse(Members(h))
  {
    forall i | 0 <= i < MAX_N ensures |Members(h)[i].addr| > 0 && Members(h)[i].addr[0] == '1' {
      MemberAddress(h, i);
    }
    forall i, j | 0 <= i < j < MAX_N ensures Members(h)[i].addr != Members(h)[j].addr {
      MemberAddress(h, i);
      MemberAddress(h, j);
      MemberScript(i);
      MemberScript(j);
    }
  }

  /** Whatever the keys and the sort, and for any fee that leaves 490000 satoshis, all are drawn, and the
      verifier does not reproduce the payouts. */
  lemma MembersDisagree(h: Hash, key: Key, sort: Sort, fit: nat, total: nat, bps: nat)
    requires IsHash(h) && ZeroPayloadHasChecksum(h) && Sorts(sort, key)
    requires Distributable(total, bps) >= MAX_N * MIN_PAYOUT
    requires FitsBudget(Draw(sort, Members(h), MAX_N), fit)
    ensures SplitAmong(Draw(sort, Members(h), MAX_N)[..fit], total, bps).payouts
            != SplitAmong(Draw(sort, Members(h), MAX_N), total, bps).payouts
  {
    MembersDiffer(h);
    DrawnIsFull(key, sort, Members(h));
    FullHouseDisagrees(Draw(sort, Members(h), MAX_N), fit, total, bps);
  }
}
