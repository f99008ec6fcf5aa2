/** The split of src/datum_chirp.c (chirp_split): the fee, the byte budget, the proportional
    payouts; and the second implementation in tools/verify_chirp_block.py (recompute), which
    anyone can run against a published snapshot. */
module ChirpSplit {
  import opened ChirpDraw

  const MAX_N: nat := 490
  const BUDGET: nat := 14800
  const MIN_PAYOUT: nat := 1000

  datatype Payout = Payout(addr: string, sats: nat)
  datatype Result = Result(payouts: seq<Payout>, pool: nat)

  // ---- money ----

  /** What is left after the fee of bps ten-thousandths. */
  function Distributable(total: nat, bps: nat): (d: nat)
    ensures d <= total
  {
    var fee := total * bps / 10000;
    if total > fee then total - fee else 0
  }

  function Weight(ws: seq<Cand>): real {
    if ws == [] then 0.0 else Weight(ws[..|ws| - 1]) + ws[|ws| - 1].weight
  }

  ghost predicate Positives(ws: seq<Cand>) { forall i | 0 <= i < |ws| :: ws[i].weight > 0.0 }

  lemma {:induction false} WeightPositive(ws: seq<Cand>)
    requires Positives(ws)
    ensures Weight(ws) >= 0.0 && (ws != [] ==> Weight(ws) > 0.0)
    decreases |ws|
  {
    if ws != [] { WeightPositive(ws[..|ws| - 1]); }
  }

  /** The part of one winner, before rounding. */
  function Share(dist: nat, w: real, total: real): real
    requires total > 0.0
  {
    dist as real * (w / total)
  }

  /** The sats each winner is due, rounded down. */
  function Amounts(dist: nat, total: real): Cand -> int
    requires total > 0.0
  {
    (w: Cand) => Share(dist, w.weight, total).Floor
  }

  /** The winners that are due at least the minimum, in order. */
  function PayoutsOf(ws: seq<Cand>, due: Cand -> int): seq<Payout> {
    if ws == [] then []
    else
      var w := ws[|ws| - 1];
      PayoutsOf(ws[..|ws| - 1], due) + if due(w) >= MIN_PAYOUT then [Payout(w.addr, due(w))] else []
  }

  function Paid(ps: seq<Payout>): nat { if ps == [] then 0 else Paid(ps[..|ps| - 1]) + ps[|ps| - 1].sats }

  lemma PaidSnoc(ps: seq<Payout>, p: Payout)
    ensures Paid(ps + [p]) == Paid(ps) + p.sats
  {
    assert (ps + [p])[..|ps|] == ps;
  }

  /** Sum of real parts. */
  ghost function Parts(ws: seq<Cand>, part: Cand -> real): real {
    if ws == [] then 0.0 else Parts(ws[..|ws| - 1], part) + part(ws[|ws| - 1])
  }

  /** Rounded-down payouts sum to no more than the parts. */
  lemma {:induction false} PaidWithinParts(ws: seq<Cand>, due: Cand -> int, part: Cand -> real)
    requires forall w | w in ws :: due(w) as real <= part(w) && part(w) >= 0.0
    ensures Paid(PayoutsOf(ws, due)) as real <= Parts(ws, part)
    decreases |ws|
  {
    if ws != [] {
      var front, w := ws[..|ws| - 1], ws[|ws| - 1];
      PaidWithinParts(front, due, part);
      assert w in ws;
      if due(w) >= MIN_PAYOUT {
        PaidSnoc(PayoutsOf(front, due), Payout(w.addr, due(w)));
      } else {
        assert PayoutsOf(ws, due) == PayoutsOf(front, due);
      }
    }
  }

  lemma ShareIsRate(dist: nat, w: real, total: real, r: real)
    requires total > 0.0 && r == dist as real / total
    ensures Share(dist, w, total) == r * w
  {
    assert r * total == dist as real;
    var x := w / total;
    assert x * total == w;
    assert (r * total) * x == r * (x * total);
  }

  lemma DistributeOver(r: real, a: real, b: real, c: real)
    requires c == a + b
    ensures r * c == r * a + r * b
  {
  }

  function PartOf(dist: nat, total: real): Cand -> real
    requires total > 0.0
  {
    (w: Cand) => Share(dist, w.weight, total)
  }

  /** The parts of some winners are the rate times their weight. */
  lemma {:induction false} PartsAreRate(ws: seq<Cand>, dist: nat, total: real, r: real)
    requires total > 0.0 && r == dist as real / total
    ensures Parts(ws, PartOf(dist, total)) == r * Weight(ws)
    decreases |ws|
  {
    if ws != [] {
      var front, w := ws[..|ws| - 1], ws[|ws| - 1];
      PartsAreRate(front, dist, total, r);
      ShareIsRate(dist, w.weight, total, r);
      DistributeOver(r, Weight(front), w.weight, Weight(ws));
    }
  }

  lemma RateNotNegative(dist: nat, w: real, total: real)
    requires total > 0.0 && w > 0.0
    ensures Share(dist, w, total) >= 0.0
  {
    assert w / total > 0.0;
  }

  lemma RoundedDown(ws: seq<Cand>, dist: nat, total: real)
    requires total > 0.0 && Positives(ws)
    ensures forall w | w in ws ::
      Amounts(dist, total)(w) as real <= PartOf(dist, total)(w) && PartOf(dist, total)(w) >= 0.0
  {
    forall w | w in ws
      ensures Amounts(dist, total)(w) as real <= PartOf(dist, total)(w) && PartOf(dist, total)(w) >= 0.0
    {
      RateNotNegative(dist, w.weight, total);
    }
  }

  /** The winners' total never exceeds the distributable part. */
  lemma WinnersWithinDistributable(ws: seq<Cand>, dist: nat, tw: real)
    requires Positives(ws) && tw == Weight(ws) > 0.0
    ensures Paid(PayoutsOf(ws, Amounts(dist, tw))) <= dist
  {
    RoundedDown(ws, dist, tw);
    PaidWithinParts(ws, Amounts(dist, tw), PartOf(dist, tw));
    PartsTotal(ws, dist, tw);
  }

  lemma RateTotal(dist: nat, tw: real) returns (r: real)
    requires tw > 0.0
    ensures r == dist as real / tw && r * tw == dist as real
  {
    r := dist as real / tw;
  }

  lemma PartsTotal(ws: seq<Cand>, dist: nat, tw: real)
    requires tw == Weight(ws) > 0.0
    ensures Parts(ws, PartOf(dist, tw)) == dist as real
  {
    var r := RateTotal(dist, tw);
    PartsAreRate(ws, dist, tw, r);
  }

  // ---- what is due, without divisions of reals ----

  /** x is the greatest whole number of satoshis whose ratio to rest is at most that of w to tw. */
  ghost predicate WholeSats(x: nat, rest: nat, w: real, tw: real) {
    x as real * tw <= rest as real * w < (x + 1) as real * tw
  }

  /** dues are the parts of rest by weight, rounded down. */
  ghost predicate DueByWeight(ws: seq<Cand>, rest: nat, dues: seq<nat>) {
    |dues| == |ws| && forall i | 0 <= i < |ws| :: WholeSats(dues[i], rest, ws[i].weight, Weight(ws))
  }

  /** ps pays every winner that is due at least 1000 satoshis, in order, once, and nobody else; at[k] is the
      winner of payout k. */
  ghost predicate PaysDueAt(ws: seq<Cand>, dues: seq<nat>, ps: seq<Payout>, at: seq<nat>) {
    && |dues| == |ws| && |at| == |ps| && (forall j, k | 0 <= j < k < |at| :: at[j] < at[k])
    && (forall k | 0 <= k < |at| ::
          at[k] < |ws| && dues[at[k]] >= 1000 && ps[k] == Payout(ws[at[k]].addr, dues[at[k]]))
    && (forall i | 0 <= i < |ws| && dues[i] >= 1000 :: i in at)
  }

  ghost predicate PaysDue(ws: seq<Cand>, dues: seq<nat>, ps: seq<Payout>) { exists at :: PaysDueAt(ws, dues, ps, at) }

  function Sum(dues: seq<nat>): nat { if dues == [] then 0 else Sum(dues[..|dues| - 1]) + dues[|dues| - 1] }

  /** What is due to winners that are not paid. */
  function Dust(dues: seq<nat>): nat {
    if dues == [] then 0 else Dust(dues[..|dues| - 1]) + if dues[|dues| - 1] < 1000 then dues[|dues| - 1] else 0
  }

  /** The fee is taken, the rest is due by weight, who is due enough is paid, and the pool keeps the fee,
      what is due to the others and less than a satoshi for each winner. */
  ghost predicate FairSplit(ws: seq<Cand>, total: nat, bps: nat, r: Result) {
    FairRest(ws, total, total * bps / 10000, r)
  }

  ghost predicate FairRest(ws: seq<Cand>, total: nat, fee: nat, r: Result) {
    fee <= total && exists dues ::
      && DueByWeight(ws, total - fee, dues) && PaysDue(ws, dues, r.payouts)
      && fee + Dust(dues) <= r.pool < fee + Dust(dues) + |ws|
  }

  ghost predicate NotNegative(ws: seq<Cand>, due: Cand -> int) { forall i | 0 <= i < |ws| :: due(ws[i]) >= 0 }

  /** The rounded parts as a list. */
  function Dues(ws: seq<Cand>, due: Cand -> int): (dues: seq<nat>)
    requires NotNegative(ws, due)
    ensures |dues| == |ws| && forall i | 0 <= i < |ws| :: dues[i] == due(ws[i])
  {
    seq<nat>(|ws|, i requires 0 <= i < |ws| => due(ws[i]))
  }

  lemma DuesLast(ws: seq<Cand>, due: Cand -> int)
    requires ws != [] && NotNegative(ws, due)
    ensures var front, w := ws[..|ws| - 1], ws[|ws| - 1];
            && NotNegative(front, due) && due(w) >= 0 && Dues(ws, due) == Dues(front, due) + [due(w)]
            && Sum(Dues(ws, due)) == Sum(Dues(front, due)) + due(w)
            && Dust(Dues(ws, due)) == Dust(Dues(front, due)) + if due(w) < 1000 then due(w) else 0
  {
    var front, w := ws[..|ws| - 1], ws[|ws| - 1];
    assert forall i | 0 <= i < |front| :: front[i] == ws[i];
    assert Dues(ws, due)[..|front|] == Dues(front, due);
  }

  /** ps, with the payout of w if it is due enough. */
  function With(ps: seq<Payout>, w: Cand, x: int): seq<Payout> {
    if x >= 1000 then ps + [Payout(w.addr, x)] else ps
  }

  lemma PaysDueNext(ws: seq<Cand>, dues: seq<nat>, ps: seq<Payout>, w: Cand, x: nat)
    requires PaysDue(ws, dues, ps)
    ensures PaysDue(ws + [w], dues + [x], With(ps, w, x))
  {
    var at :| PaysDueAt(ws, dues, ps, at);
    if x >= 1000 {
      PaidNext(ws, dues, ps, at, w, x, |ws|);
    } else {
      UnpaidNext(ws, dues, ps, at, w, x);
    }
  }

  lemma PaidNext(ws: seq<Cand>, dues: seq<nat>, ps: seq<Payout>, at: seq<nat>, w: Cand, x: nat, n: nat)
    requires PaysDueAt(ws, dues, ps, at) && x >= 1000 && n == |ws|
    ensures PaysDueAt(ws + [w], dues + [x], ps + [Payout(w.addr, x)], at + [n])
  {
    var ws', dues', at' := ws + [w], dues + [x], at + [n];
    forall i | 0 <= i < |ws'| && dues'[i] >= 1000 ensures i in at' {
      if i < n { assert dues[i] >= 1000; assert i in at; }
    }
  }

  lemma UnpaidNext(ws: seq<Cand>, dues: seq<nat>, ps: seq<Payout>, at: seq<nat>, w: Cand, x: nat)
    requires PaysDueAt(ws, dues, ps, at) && x < 1000
    ensures PaysDueAt(ws + [w], dues + [x], ps, at)
  {
    var ws', dues' := ws + [w], dues + [x];
    forall i | 0 <= i < |ws'| && dues'[i] >= 1000 ensures i in at { assert dues[i] >= 1000; }
  }

  /** The payouts are of the rounded parts. */
  lemma {:induction false} PayoutsAreDue(ws: seq<Cand>, due: Cand -> int)
    requires NotNegative(ws, due)
    ensures PaysDue(ws, Dues(ws, due), PayoutsOf(ws, due))
    decreases |ws|
  {
    if ws == [] {
      assert Dues(ws, due) == [] && PaysDueAt(ws, [], [], []);
    } else {
      var front, w := ws[..|ws| - 1], ws[|ws| - 1];
      assert front + [w] == ws;
      DuesLast(ws, due);
      PayoutsAreDue(front, due);
      PaysDueNext(front, Dues(front, due), PayoutsOf(front, due), w, due(w));
      PayoutsSplit(ws, due);
    }
  }

  lemma PayoutsSplit(ws: seq<Cand>, due: Cand -> int)
    requires ws != []
    ensures var front, w := PayoutsOf(ws[..|ws| - 1], due), ws[|ws| - 1];
            && PayoutsOf(ws, due) == With(front, w, due(w))
            && Paid(PayoutsOf(ws, due)) == Paid(front) + if due(w) >= 1000 then due(w) else 0
  {
    var w := ws[|ws| - 1];
    if due(w) >= 1000 {
      PaidSnoc(PayoutsOf(ws[..|ws| - 1], due), Payout(w.addr, due(w)));
    } else {
      assert PayoutsOf(ws, due) == PayoutsOf(ws[..|ws| - 1], due);
    }
  }

  /** They and the dust are all that is due. */
  lemma {:induction false} PaidAndDust(ws: seq<Cand>, due: Cand -> int)
    requires NotNegative(ws, due)
    ensures Paid(PayoutsOf(ws, due)) + Dust(Dues(ws, due)) == Sum(Dues(ws, due))
    decreases |ws|
  {
    if ws != [] {
      DuesLast(ws, due);
      PaidAndDust(ws[..|ws| - 1], due);
      PayoutsSplit(ws, due);
    }
  }

  ghost predicate Rounds(ws: seq<Cand>, due: Cand -> int, part: Cand -> real) {
    forall i | 0 <= i < |ws| :: due(ws[i]) >= 0 && due(ws[i]) as real <= part(ws[i]) < due(ws[i]) as real + 1.0
  }

  /** Rounding loses less than a satoshi for each winner. */
  lemma {:induction false} RoundingLoss(ws: seq<Cand>, due: Cand -> int, part: Cand -> real)
    requires NotNegative(ws, due) && Rounds(ws, due, part)
    ensures Sum(Dues(ws, due)) as real <= Parts(ws, part)
    ensures ws != [] ==> Parts(ws, part) < Sum(Dues(ws, due)) as real + |ws| as real
    decreases |ws|
  {
    if ws != [] {
      var front := ws[..|ws| - 1];
      assert Rounds(front, due, part) by { assert forall i | 0 <= i < |front| :: front[i] == ws[i]; }
      DuesLast(ws, due);
      RoundingLoss(front, due, part);
    }
  }

  lemma RoundedByWeight(dist: nat, w: real, tw: real, x: nat)
    requires tw > 0.0 && w > 0.0 && x as real <= Share(dist, w, tw) < x as real + 1.0
    ensures WholeSats(x, dist, w, tw)
  {
    ShareTimesTotal(dist as real, w, tw);
    ScaleBounds(x as real, Share(dist, w, tw), (x + 1) as real, tw, dist as real * w);
  }

  lemma ScaleBounds(x: real, s: real, y: real, tw: real, p: real)
    requires x <= s < y && tw > 0.0 && s * tw == p
    ensures x * tw <= p < y * tw
  {
    TimesMono(x, s, tw);
    TimesLess(s, y, tw);
  }

  lemma ShareTimesTotal(d: real, w: real, tw: real)
    requires tw > 0.0
    ensures (d * (w / tw)) * tw == d * w
  {
    var q := w / tw;
    assert q * tw == w;
    assert (d * q) * tw == d * (q * tw);
  }

  lemma TimesMono(x: real, y: real, z: real)
    requires x <= y && z > 0.0
    ensures x * z <= y * z
  {
  }

  lemma TimesLess(x: real, y: real, z: real)
    requires x < y && z > 0.0
    ensures x * z < y * z
  {
  }

  lemma RoundsParts(ws: seq<Cand>, dist: nat)
    requires Positives(ws) && Weight(ws) > 0.0
    ensures NotNegative(ws, Amounts(dist, Weight(ws)))
    ensures Rounds(ws, Amounts(dist, Weight(ws)), PartOf(dist, Weight(ws)))
  {
    forall i | 0 <= i < |ws| ensures Share(dist, ws[i].weight, Weight(ws)) >= 0.0 {
      RateNotNegative(dist, ws[i].weight, Weight(ws));
    }
  }

  lemma RoundedParts(ws: seq<Cand>, dist: nat)
    requires Positives(ws) && Weight(ws) > 0.0 && NotNegative(ws, Amounts(dist, Weight(ws)))
    requires Rounds(ws, Amounts(dist, Weight(ws)), PartOf(dist, Weight(ws)))
    ensures DueByWeight(ws, dist, Dues(ws, Amounts(dist, Weight(ws))))
  {
    var dues := Dues(ws, Amounts(dist, Weight(ws)));
    forall i | 0 <= i < |ws|
      ensures WholeSats(dues[i], dist, ws[i].weight, Weight(ws))
    {
      assert PartOf(dist, Weight(ws))(ws[i]) == Share(dist, ws[i].weight, Weight(ws));
      RoundedByWeight(dist, ws[i].weight, Weight(ws), dues[i]);
    }
  }

  lemma FeeWithin(total: nat, bps: nat)
    requires bps <= 10000
    ensures total * bps / 10000 <= total
  {
    assert total * bps <= total * 10000;
  }

  /** The split pays fairly what the fee leaves. */
  lemma SplitIsFair(ws: seq<Cand>, total: nat, bps: nat)
    requires Positives(ws) && ws != [] && bps <= 10000
    ensures FairSplit(ws, total, bps, SplitAmong(ws, total, bps))
  {
    WeightPositive(ws);
    FeeWithin(total, bps);
    var rest, tw := total - total * bps / 10000, Weight(ws);
    assert Distributable(total, bps) == rest;
    RestIsFair(ws, rest, tw);
    assert Paid(PayoutsOf(ws, Amounts(rest, tw))) <= rest by { WinnersWithinDistributable(ws, rest, tw); }
  }

  lemma RestIsFair(ws: seq<Cand>, rest: nat, tw: real)
    requires Positives(ws) && ws != [] && tw == Weight(ws) > 0.0
    ensures exists dues :: DueByWeight(ws, rest, dues) && PaysDue(ws, dues, PayoutsOf(ws, Amounts(rest, tw)))
              && Dust(dues) <= rest - Paid(PayoutsOf(ws, Amounts(rest, tw))) < Dust(dues) + |ws|
  {
    var due := Amounts(rest, tw);
    RoundsParts(ws, rest);
    RoundedParts(ws, rest);
    PayoutsAreDue(ws, due);
    PaidAndDust(ws, due);
    RoundingLoss(ws, due, PartOf(rest, tw));
    PartsTotal(ws, rest, tw);
    WithinLoss(rest, Sum(Dues(ws, due)), |ws|);
  }

  lemma WithinLoss(rest: nat, sum: nat, n: nat)
    requires sum as real <= rest as real < sum as real + n as real
    ensures sum <= rest < sum + n
  {
  }

  /** A single winner gets all that the fee leaves, if that is enough to be paid. */
  lemma OnlyWinner(w: Cand, total: nat, bps: nat, r: Result)
    requires w.weight > 0.0 && FairSplit([w], total, bps, r)
    ensures var rest := total - total * bps / 10000;
            r.payouts == if rest >= 1000 then [Payout(w.addr, rest)] else []
  {
    var rest := total - total * bps / 10000;
    var dues :| DueByWeight([w], rest, dues) && PaysDue([w], dues, r.payouts);
    DueAlone(w, rest, dues);
    PaidAlone(w, dues, r.payouts);
  }

  lemma DueAlone(w: Cand, rest: nat, dues: seq<nat>)
    requires w.weight > 0.0 && DueByWeight([w], rest, dues)
    ensures |dues| == 1 && dues[0] == rest
  {
    WeightOfOne(w);
    assert [w][0] == w;
    WholePart(dues[0], rest, w.weight);
  }

  lemma WeightOfOne(w: Cand)
    ensures Weight([w]) == w.weight
  {
    assert [w][..0] == [];
  }

  lemma PaidAlone(w: Cand, dues: seq<nat>, ps: seq<Payout>)
    requires PaysDue([w], dues, ps)
    ensures |dues| == 1 && ps == if dues[0] >= 1000 then [Payout(w.addr, dues[0])] else []
  {
    var at :| PaysDueAt([w], dues, ps, at);
    FirstTwo(at);
    if |at| == 1 { assert ps == [ps[0]] && at[0] == 0; }
    if dues[0] >= 1000 { assert 0 in at; }
  }

  lemma FirstTwo(at: seq<nat>)
    requires forall j, k | 0 <= j < k < |at| :: at[j] < at[k]
    ensures |at| > 1 ==> at[0] < at[1]
  {
  }

  lemma WholePart(x: nat, rest: nat, w: real)
    requires w > 0.0 && WholeSats(x, rest, w, w)
    ensures x == rest
  {
    if x < rest { TimesMono((x + 1) as real, rest as real, w); }
    if x > rest { TimesLess(rest as real, x as real, w); }
  }

  // ---- the byte budget ----

  /** chirp_output_bytes: bytes of an output, judged by the form of the address. */
  function OutputBytes(addr: string): (b: nat)
    ensures 31 <= b <= 43
  {
    var l := |addr|;
    9 + if l > 4 && addr[..4] == "bc1q" then (if l <= 44 then 22 else 34)
        else if l > 4 && addr[..4] == "bc1p" then 34
        else if l > 0 && addr[0] == '1' then 25
        else if l > 0 && addr[0] == '3' then 23
        else 34
  }

  function Bytes(ws: seq<Cand>): nat { if ws == [] then 0 else Bytes(ws[..|ws| - 1]) + OutputBytes(ws[|ws| - 1].addr) }

  lemma {:induction false} BytesMonotone(ws: seq<Cand>, k: nat)
    requires k <= |ws|
    ensures Bytes(ws[..k]) <= Bytes(ws)
    decreases |ws|
  {
    if k < |ws| {
      BytesMonotone(ws[..|ws| - 1], k);
      assert ws[..|ws| - 1][..k] == ws[..k];
    } else {
      assert ws[..k] == ws;
    }
  }

  /** fit is the longest front of the winners that stays within the budget. */
  ghost predicate FitsBudget(ws: seq<Cand>, fit: nat) {
    && fit <= |ws| && Bytes(ws[..fit]) <= 14800
    && (fit < |ws| ==> Bytes(ws[..fit + 1]) > 14800)
  }

  /** The budget loop of chirp_split: stops at the first winner that does not fit. */
  method BudgetPass(ws: seq<Cand>) returns (fit: nat)
    ensures FitsBudget(ws, fit)
    ensures fit == |ws| <==> Bytes(ws) <= BUDGET
  {
    var used := 0;
    fit := 0;
    while fit < |ws|
      invariant fit <= |ws| && used == Bytes(ws[..fit]) <= BUDGET
    {
      assert ws[..fit + 1][..fit] == ws[..fit];
      var b := OutputBytes(ws[fit].addr);
      if used + b > BUDGET {
        BytesMonotone(ws, fit + 1);
        return;
      }
      used := used + b;
      fit := fit + 1;
    }
    assert ws[..|ws|] == ws;
  }

  // ---- the two implementations ----

  function SplitAmong(ws: seq<Cand>, total: nat, bps: nat): Result {
    if ws == [] || Weight(ws) <= 0.0 then Result([], total)
    else
      var ps := PayoutsOf(ws, Amounts(Distributable(total, bps), Weight(ws)));
      Result(ps, if total > Paid(ps) then total - Paid(ps) else 0)
  }

  /** The payout loop, over winners whose weights sum to tw. */
  method PayoutPass(ws: seq<Cand>, due: Cand -> int) returns (ps: seq<Payout>, given: nat)
    ensures ps == PayoutsOf(ws, due) && given == Paid(ps)
  {
    ps, given := [], 0;
    for i := 0 to |ws|
      invariant ps == PayoutsOf(ws[..i], due) && given == Paid(ps)
    {
      assert ws[..i + 1][..i] == ws[..i];
      var amt := due(ws[i]);
      if amt >= MIN_PAYOUT {
        PaidSnoc(ps, Payout(ws[i].addr, amt));
        ps, given := ps + [Payout(ws[i].addr, amt)], given + amt;
      }
    }
    assert ws[..|ws|] == ws;
  }

  method TotalWeight(ws: seq<Cand>) returns (tw: real)
    ensures tw == Weight(ws)
  {
    tw := 0.0;
    for i := 0 to |ws|
      invariant tw == Weight(ws[..i])
    {
      assert ws[..i + 1][..i] == ws[..i];
      tw := tw + ws[i].weight;
    }
    assert ws[..|ws|] == ws;
  }

  /** chirp_split */
  method Split(sort: Sort, ghost key: Key, cands: seq<Cand>, total: nat, bps: nat) returns (r: Result, ghost fit: nat)
    requires Sorts(sort, key)
    ensures FitsBudget(Draw(sort, cands, MAX_N), fit)
    ensures r == SplitAmong(Draw(sort, cands, MAX_N)[..fit], total, bps)
    ensures Paid(r.payouts) <= Distributable(total, bps) && Paid(r.payouts) + r.pool == total
    ensures |r.payouts| <= MAX_N
    ensures fit == 0 ==> r == Result([], total)
    ensures fit > 0 && bps <= 10000 ==> FairSplit(Draw(sort, cands, MAX_N)[..fit], total, bps, r)
    ensures fit == 1 && bps <= 10000 && total - total * bps / 10000 >= 1000 ==>
      r.payouts == [Payout(Draw(sort, cands, MAX_N)[0].addr, total - total * bps / 10000)]
    ensures bps <= 10000 ==> r.pool >= total * bps / 10000
    ensures total * bps / 10000 >= total ==> r == Result([], total)
  {
    var winners := WeightedDraw(sort, cands, MAX_N);
    fit := 0;
    var nw := BudgetPass(winners);
    fit := nw;
    winners := winners[..nw];
    DrawnArePositive(key, sort, cands, nw);
    WeightPositive(winners);
    var tw := TotalWeight(winners);
    if nw == 0 || tw <= 0.0 { FeeAtMost(total, bps); return Result([], total), nw; }
    SplitFacts(winners, total, bps);
    var ps, given := PayoutPass(winners, Amounts(Distributable(total, bps), tw));
    WinnersWithinDistributable(winners, Distributable(total, bps), tw);
    PayoutsNoMore(winners, Amounts(Distributable(total, bps), tw));
    r := Result(ps, if total > given then total - given else 0);
  }

  lemma FeeAtMost(total: nat, bps: nat)
    ensures bps <= 10000 ==> total * bps / 10000 <= total
  {
    if bps <= 10000 { FeeWithin(total, bps); }
  }

  /** Of nothing, nobody is paid. */
  lemma NothingDue(ws: seq<Cand>, tw: real)
    requires tw > 0.0
    ensures PayoutsOf(ws, Amounts(0, tw)) == []
  {
    forall w: Cand ensures Amounts(0, tw)(w) == 0 { assert 0.0 * (w.weight / tw) == 0.0; }
    NobodyPaid(ws, Amounts(0, tw));
  }

  lemma {:induction false} NobodyPaid(ws: seq<Cand>, due: Cand -> int)
    requires forall w: Cand :: due(w) == 0
    ensures PayoutsOf(ws, due) == []
    decreases |ws|
  {
    if ws != [] { NobodyPaid(ws[..|ws| - 1], due); }
  }

  lemma SplitFacts(ws: seq<Cand>, total: nat, bps: nat)
    requires Positives(ws) && ws != []
    ensures bps <= 10000 ==> FairSplit(ws, total, bps, SplitAmong(ws, total, bps))
    ensures bps <= 10000 ==> SplitAmong(ws, total, bps).pool >= total * bps / 10000
    ensures |ws| == 1 && bps <= 10000 && total - total * bps / 10000 >= 1000 ==>
      SplitAmong(ws, total, bps).payouts == [Payout(ws[0].addr, total - total * bps / 10000)]
    ensures total * bps / 10000 >= total ==> SplitAmong(ws, total, bps) == Result([], total)
  {
    WeightPositive(ws);
    if total * bps / 10000 >= total { NothingDue(ws, Weight(ws)); }
    if bps <= 10000 {
      SplitIsFair(ws, total, bps);
      if |ws| == 1 {
        assert ws == [ws[0]];
        OnlyWinner(ws[0], total, bps, SplitAmong(ws, total, bps));
      }
    }
  }

  lemma DrawnArePositive(key: Key, sort: Sort, cands: seq<Cand>, k: nat)
    requires Sorts(sort, key) && k <= |Draw(sort, cands, MAX_N)|
    ensures |Draw(sort, cands, MAX_N)| <= MAX_N && Positives(Draw(sort, cands, MAX_N)[..k])
  {
    var out := DrawIsTop(key, sort, cands, MAX_N);
    var d := Draw(sort, cands, MAX_N);
    assert forall i | 0 <= i < k :: d[..k][i] == d[i] && d[i] in d;
  }

  lemma {:induction false} PayoutsNoMore(ws: seq<Cand>, due: Cand -> int)
    ensures |PayoutsOf(ws, due)| <= |ws|
    decreases |ws|
  {
    if ws != [] { PayoutsNoMore(ws[..|ws| - 1], due); }
  }

  /** recompute of the verifier: the same draw and split, with no byte budget. */
  method Recompute(sort: Sort, ghost key: Key, cands: seq<Cand>, total: nat, bps: nat) returns (r: Result)
    requires Sorts(sort, key)
    ensures r == SplitAmong(Draw(sort, cands, MAX_N), total, bps)
  {
    var winners := WeightedDraw(sort, cands, MAX_N);
    var tw := TotalWeight(winners);
    if |winners| == 0 || tw <= 0.0 { return Result([], total); }
    DrawnArePositive(key, sort, cands, |winners|);
    assert winners[..|winners|] == winners;
    var ps, given := PayoutPass(winners, Amounts(Distributable(total, bps), tw));
    WinnersWithinDistributable(winners, Distributable(total, bps), tw);
    r := Result(ps, total - given);
  }
}
