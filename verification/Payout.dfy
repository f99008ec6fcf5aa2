/** The lottery payout from the draw to the coinbase: chirp_glue_fill_outputs
    (src/datum_chirp_glue.c) and the sizing of coinbase type 4 (src/datum_coinbaser.c), proved to
    pay every winner with a decodable address in full. */
module Payout {
  import opened Wrappers
  import opened Radix
  import opened TxFormat
  import opened Coinbase
  import opened ChirpDraw
  import ChirpSplit
  import Address
  import AddressSize
  import Segwit

  // ---- the list of available outputs ----

  type ScriptOf = string -> Option<Bytes>

  /** The budget never charges an address less than its output takes. */
  ghost predicate Estimated(script: ScriptOf) {
    forall a: string :: script(a).Some? ==> 9 + |script(a).value| <= ChirpSplit.OutputBytes(a)
  }

  datatype Plan = Plan(value: nat, supplier: Option<string>, supplierBps: nat, feeBps: nat, snapshot: Option<Bytes>)

  /** What the configuration check guarantees. */
  predicate PlanOk(plan: Plan) {
    && 0 < plan.value < U64 && plan.supplierBps <= 10000
    && (plan.snapshot.Some? ==> |plan.snapshot.value| == 32)
  }

  const TAG: Bytes := [0x43, 0x48, 0x49, 0x52, 0x50, 0x31]

  function SnapshotOutput(hash: Bytes): Output { Output(0, [0x6A, 38] + TAG + hash) }

  function SupplierSats(script: ScriptOf, plan: Plan): nat {
    if plan.supplier.Some? && script(plan.supplier.value).Some? then plan.value * plan.supplierBps / 10000 else 0
  }

  function SplitTotal(script: ScriptOf, plan: Plan): int { plan.value - SupplierSats(script, plan) }

  predicate PaysSupplier(script: ScriptOf, plan: Plan) {
    && plan.supplier.Some? && script(plan.supplier.value).Some?
    && SupplierSats(script, plan) >= ChirpSplit.MIN_PAYOUT
  }

  function HeadOutputs(script: ScriptOf, plan: Plan): seq<Output> {
    (if plan.snapshot.Some? then [SnapshotOutput(plan.snapshot.value)] else [])
      + if PaysSupplier(script, plan) then [Output(SupplierSats(script, plan), script(plan.supplier.value).value)]
        else []
  }

  /** Payouts whose address has a script, in order. */
  function Decodable(script: ScriptOf, ps: seq<ChirpSplit.Payout>): seq<Output> {
    if ps == [] then []
    else
      var p := ps[|ps| - 1];
      Decodable(script, ps[..|ps| - 1]) + if script(p.addr).Some? then [Output(p.sats, script(p.addr).value)] else []
  }

  function Filled(script: ScriptOf, plan: Plan, ps: seq<ChirpSplit.Payout>): seq<Output> {
    HeadOutputs(script, plan) + Decodable(script, ps)
  }

  /** The winner loop of chirp_glue_fill_outputs; its limit of 500 outputs is never reached. */
  method FillWinners(script: ScriptOf, head: seq<Output>, ps: seq<ChirpSplit.Payout>) returns (outs: seq<Output>)
    requires |head| <= 2 && |ps| <= ChirpSplit.MAX_N
    ensures outs == head + Decodable(script, ps)
  {
    outs := head;
    var i := 0;
    while i < |ps| && |outs| < 500
      invariant i <= |ps| && |outs| <= |head| + i && outs == head + Decodable(script, ps[..i])
    {
      assert ps[..i + 1][..i] == ps[..i];
      var s := script(ps[i].addr);
      if s.Some? { outs := outs + [Output(ps[i].sats, s.value)]; }
      i := i + 1;
    }
    assert ps[..|ps|] == ps;
  }

  // ---- sizes ----

  lemma {:induction false} TotalSizeConcat(a: seq<Output>, b: seq<Output>)
    ensures TotalSize(a + b) == TotalSize(a) + TotalSize(b)
    decreases |a|
  {
    if a == [] {
      assert a + b == b;
    } else {
      TotalSizeConcat(a[1..], b);
      assert (a + b)[1..] == a[1..] + b;
    }
  }

  lemma OneSize(o: Output)
    ensures TotalSize([o]) == Size(o)
  {
    assert [o][1..] == [];
  }

  function Charged(ps: seq<ChirpSplit.Payout>): nat {
    if ps == [] then 0 else Charged(ps[..|ps| - 1]) + ChirpSplit.OutputBytes(ps[|ps| - 1].addr)
  }

  lemma {:induction false} DecodableSize(script: ScriptOf, ps: seq<ChirpSplit.Payout>)
    requires Estimated(script)
    ensures TotalSize(Decodable(script, ps)) <= Charged(ps)
    decreases |ps|
  {
    if ps != [] {
      var front, p := ps[..|ps| - 1], ps[|ps| - 1];
      DecodableSize(script, front);
      if script(p.addr).Some? {
        TotalSizeConcat(Decodable(script, front), [Output(p.sats, script(p.addr).value)]);
        OneSize(Output(p.sats, script(p.addr).value));
      } else {
        assert Decodable(script, ps) == Decodable(script, front);
      }
    }
  }

  /** Winners that are not paid are not charged. */
  lemma {:induction false} ChargedWithinBudget(ws: seq<Cand>, due: Cand -> int)
    ensures Charged(ChirpSplit.PayoutsOf(ws, due)) <= ChirpSplit.Bytes(ws)
    decreases |ws|
  {
    if ws != [] {
      var front, w := ws[..|ws| - 1], ws[|ws| - 1];
      ChargedWithinBudget(front, due);
      var ps := ChirpSplit.PayoutsOf(front, due);
      if due(w) >= ChirpSplit.MIN_PAYOUT {
        assert (ps + [ChirpSplit.Payout(w.addr, due(w))])[..|ps|] == ps;
      } else {
        assert ChirpSplit.PayoutsOf(ws, due) == ps;
      }
    }
  }

  lemma HeadSize(script: ScriptOf, plan: Plan)
    requires PlanOk(plan) && Estimated(script)
    ensures TotalSize(HeadOutputs(script, plan)) <= 49 + 43 && |HeadOutputs(script, plan)| <= 2
  {
    var a := if plan.snapshot.Some? then [SnapshotOutput(plan.snapshot.value)] else [];
    var b := if PaysSupplier(script, plan)
      then [Output(SupplierSats(script, plan), script(plan.supplier.value).value)] else [];
    TotalSizeConcat(a, b);
    if plan.snapshot.Some? { OneSize(SnapshotOutput(plan.snapshot.value)); }
    if PaysSupplier(script, plan) { OneSize(Output(SupplierSats(script, plan), script(plan.supplier.value).value)); }
  }

  // ---- values ----

  lemma {:induction false} DecodableValue(script: ScriptOf, ps: seq<ChirpSplit.Payout>)
    ensures TotalValue(Decodable(script, ps)) <= ChirpSplit.Paid(ps)
    decreases |ps|
  {
    if ps != [] {
      var front, p := ps[..|ps| - 1], ps[|ps| - 1];
      DecodableValue(script, front);
      if script(p.addr).Some? {
        TotalValueConcat(Decodable(script, front), [Output(p.sats, script(p.addr).value)]);
        OneValue(Output(p.sats, script(p.addr).value));
      } else {
        assert Decodable(script, ps) == Decodable(script, front);
      }
    }
  }

  lemma HeadValue(script: ScriptOf, plan: Plan)
    ensures TotalValue(HeadOutputs(script, plan)) <= SupplierSats(script, plan)
  {
    var a := if plan.snapshot.Some? then [SnapshotOutput(plan.snapshot.value)] else [];
    var b := if PaysSupplier(script, plan)
      then [Output(SupplierSats(script, plan), script(plan.supplier.value).value)] else [];
    TotalValueConcat(a, b);
    if plan.snapshot.Some? { OneValue(SnapshotOutput(plan.snapshot.value)); }
    if PaysSupplier(script, plan) { OneValue(Output(SupplierSats(script, plan), script(plan.supplier.value).value)); }
  }

  /** Everything after the first output is worth something. */
  ghost predicate WorthAfterFirst(outs: seq<Output>) { forall k | 0 < k < |outs| :: outs[k].value > 0 }

  ghost predicate AllWorth(outs: seq<Output>) { forall k | 0 <= k < |outs| :: outs[k].value > 0 }

  lemma {:induction false} DecodableWorth(script: ScriptOf, ps: seq<ChirpSplit.Payout>)
    requires forall i | 0 <= i < |ps| :: ps[i].sats > 0
    ensures AllWorth(Decodable(script, ps))
    decreases |ps|
  {
    if ps != [] { DecodableWorth(script, ps[..|ps| - 1]); }
  }

  lemma {:induction false} PayoutsWorth(ws: seq<Cand>, due: Cand -> int)
    ensures forall i | 0 <= i < |ChirpSplit.PayoutsOf(ws, due)| ::
      ChirpSplit.PayoutsOf(ws, due)[i].sats >= ChirpSplit.MIN_PAYOUT
    decreases |ws|
  {
    if ws != [] { PayoutsWorth(ws[..|ws| - 1], due); }
  }

  // ---- nothing is trimmed ----

  function Upto(k: nat, n: nat): (ks: seq<nat>)
    requires k <= n
    ensures |ks| == n - k && forall i | 0 <= i < |ks| :: ks[i] == k + i
  {
    seq(n - k, i requires 0 <= i < n - k => k + i)
  }

  lemma UptoCons(k: nat, n: nat)
    requires k < n
    ensures [k] + Upto(k + 1, n) == Upto(k, n)
  {
  }

  /** With room to spare and enough money, the selection takes every output. */
  lemma {:induction false} SelectsAll(outs: seq<Output>, k: nat, room: int, spent: nat, total: nat)
    requires k <= |outs| && WorthAfterFirst(outs) && spent <= total < U64
    requires TotalSize(outs[k..]) + 30 <= room && spent + TotalValue(outs[k..]) <= total
    ensures Select(outs, k, room, spent, total) == Upto(k, |outs|)
    decreases |outs| - k
  {
    if k < |outs| {
      SuffixTotals(outs, k);
      var room', spent' := room - Size(outs[k]), spent + outs[k].value;
      SmallMod(spent', total);
      SelectStep(outs, k, room, spent, total);
      assert TotalSize(outs[k + 1..]) + 30 <= room' && spent' + TotalValue(outs[k + 1..]) <= total;
      SelectsAll(outs, k + 1, room', spent', total);
      UptoCons(k, |outs|);
    }
  }

  lemma SuffixTotals(outs: seq<Output>, k: nat)
    requires k < |outs|
    ensures TotalSize(outs[k..]) == Size(outs[k]) + TotalSize(outs[k + 1..])
    ensures TotalValue(outs[k..]) == outs[k].value + TotalValue(outs[k + 1..])
  {
    assert outs[k..][1..] == outs[k + 1..];
  }

  // ---- the room in coinbase type 4 ----

  datatype Template = Template(txSize: nat, sizeLimit: nat, txWeight: nat, weightLimit: nat, extra: nat)

  /** datum_stratum_coinbase_fit_to_template */
  function FitToTemplate(max: int, fixed: int, t: Template): int {
    var i := fixed + max;
    var bySize := t.sizeLimit - (t.txSize + 85 + 36 + t.extra) - fixed;
    var byWeight := (t.weightLimit - (t.txWeight + 340 + 36)) / 4 - fixed;
    var tooBig := i + t.txSize + 85 + 36 + t.extra > t.sizeLimit;
    var tooHeavy := i * 4 + t.txWeight + 340 + 36 > t.weightLimit;
    if tooBig && bySize < 0 then 0
    else if tooHeavy && byWeight < 0 then 0
    else
      var msz := if tooHeavy then byWeight else if tooBig then bySize else i;
      var msz := if msz < 0 then 0 else msz;
      if msz < max - fixed then msz else max - fixed
  }

  /** The template leaves room for a coinbase of max bytes. */
  predicate LeavesRoom(t: Template, max: nat) {
    && max + t.txSize + 85 + 36 + t.extra <= t.sizeLimit
    && max * 4 + t.txWeight + 340 + 36 <= t.weightLimit
  }

  lemma FitsWhole(max: nat, fixed: nat, t: Template)
    requires LeavesRoom(t, max) && fixed <= max
    ensures FitToTemplate(max, fixed, t) == max - fixed
  {
  }

  /** The bytes the limits leave for the whole coinbase. */
  function SizeRoom(t: Template): int { t.sizeLimit - (t.txSize + 85 + 36 + t.extra) }
  function WeightRoom(t: Template): int { (t.weightLimit - (t.txWeight + 340 + 36)) / 4 }

  /** The coinbase keeps to both limits, as long as they leave room for its fixed part, except where both
      bind and the weight leaves more: the result by size is then overwritten. */
  lemma FitRespectsLimits(max: nat, fixed: nat, t: Template)
    requires fixed <= max && fixed <= SizeRoom(t) && fixed <= WeightRoom(t)
    ensures var size := fixed + FitToTemplate(max, fixed, t);
            size <= SizeRoom(t) && size <= WeightRoom(t)
            <==> !(fixed + max > WeightRoom(t) && WeightRoom(t) > SizeRoom(t) && max > SizeRoom(t))
  {
  }

  /** Both bind: a coinbase of up to 16000 bytes is offered where the size limit leaves 1000. */
  lemma SizeLimitOverrun()
    ensures var t := Template(0, 1000 + 85 + 36, 0, 4 * 10000 + 340 + 36, 0);
            SizeRoom(t) == 1000 && 200 + FitToTemplate(16000, 200, t) == 10000
  {
  }

  const TYPE4_MAX: nat := 16000

  /** cb_req_sz[4]: the bytes of type 4 that are not payouts. */
  function Required(pool: Bytes, input: Bytes): nat {
    119 + |pool| + |input| + if |input| <= 85 then 0 else 10
  }

  lemma Type4Room(pool: Bytes, input: Bytes, t: Template)
    requires |pool| <= 64 && |input| <= 100 && LeavesRoom(t, TYPE4_MAX)
    ensures FitToTemplate(TYPE4_MAX, Required(pool, input), t) >= 49 + 43 + ChirpSplit.BUDGET + 30
  {
    FitsWhole(TYPE4_MAX, Required(pool, input), t);
  }

  // ---- end to end ----

  /** What the split hands over: winners within the byte budget, each due at least the minimum,
      together within the distributable part. */
  ghost predicate Handed(script: ScriptOf, plan: Plan, ps: seq<ChirpSplit.Payout>) {
    && |ps| <= ChirpSplit.MAX_N && Charged(ps) <= ChirpSplit.BUDGET
    && (forall i | 0 <= i < |ps| :: ps[i].sats >= ChirpSplit.MIN_PAYOUT)
    && SplitTotal(script, plan) >= 0
    && ChirpSplit.Paid(ps) <= ChirpSplit.Distributable(SplitTotal(script, plan), plan.feeBps)
  }

  lemma SplitHands(script: ScriptOf, plan: Plan, d: seq<Cand>, fit: nat, r: ChirpSplit.Result)
    requires PlanOk(plan) && SplitTotal(script, plan) >= 0
    requires ChirpSplit.FitsBudget(d, fit)
      && r == ChirpSplit.SplitAmong(d[..fit], SplitTotal(script, plan), plan.feeBps)
    requires |r.payouts| <= ChirpSplit.MAX_N
    requires ChirpSplit.Paid(r.payouts) <= ChirpSplit.Distributable(SplitTotal(script, plan), plan.feeBps)
    ensures Handed(script, plan, r.payouts)
  {
    var ws := d[..fit];
    if ws != [] && ChirpSplit.Weight(ws) > 0.0 {
      var due := ChirpSplit.Amounts(ChirpSplit.Distributable(SplitTotal(script, plan), plan.feeBps),
                                    ChirpSplit.Weight(ws));
      ChargedWithinBudget(ws, due);
      PayoutsWorth(ws, due);
    }
  }

  lemma SplitTotalOk(script: ScriptOf, plan: Plan)
    requires PlanOk(plan)
    ensures 0 <= SplitTotal(script, plan) <= plan.value
  {
    MulMono(plan.supplierBps, 10000, plan.value);
  }

  lemma FilledValue(script: ScriptOf, plan: Plan, ps: seq<ChirpSplit.Payout>)
    requires PlanOk(plan) && Handed(script, plan, ps)
    ensures TotalValue(Filled(script, plan, ps)) <= plan.value
    ensures WorthAfterFirst(Filled(script, plan, ps))
  {
    HeadValue(script, plan);
    DecodableValue(script, ps);
    DecodableWorth(script, ps);
    TotalValueConcat(HeadOutputs(script, plan), Decodable(script, ps));
  }

  lemma TakenIs(script: ScriptOf, plan: Plan)
    requires PlanOk(plan)
    ensures SplitTotal(script, plan) >= 0
    ensures SplitTotal(script, plan) == plan.value
      - if plan.supplier.Some? && script(plan.supplier.value).Some?
        then TenThousandths(plan.value, plan.supplierBps) else 0
  {
    SplitTotalOk(script, plan);
  }

  lemma PoolKeepsFee(script: ScriptOf, plan: Plan, ws: seq<Cand>, ps: seq<ChirpSplit.Payout>)
    requires PlanOk(plan) && HandsFairly(script, plan, ws, ps)
    ensures SplitTotal(script, plan) >= 0
    ensures plan.value - TotalValue(Filled(script, plan, ps))
            >= TenThousandths(SplitTotal(script, plan), plan.feeBps)
  {
    TakenIs(script, plan);
    HeadValue(script, plan);
    DecodableValue(script, ps);
    TotalValueConcat(HeadOutputs(script, plan), Decodable(script, ps));
  }

  lemma FilledSize(script: ScriptOf, plan: Plan, ps: seq<ChirpSplit.Payout>)
    requires PlanOk(plan) && Estimated(script) && Handed(script, plan, ps)
    ensures TotalSize(Filled(script, plan, ps)) <= 49 + 43 + ChirpSplit.BUDGET
  {
    HeadSize(script, plan);
    DecodableSize(script, ps);
    TotalSizeConcat(HeadOutputs(script, plan), Decodable(script, ps));
  }

  /** When the template leaves room for a 16000-byte coinbase, type 4 trims no payout: the
      selection takes the whole list. */
  lemma NothingTrimmed(script: ScriptOf, plan: Plan, ps: seq<ChirpSplit.Payout>, pool: Bytes, input: Bytes, t: Template)
    requires PlanOk(plan) && Estimated(script) && Handed(script, plan, ps)
    requires |pool| <= 64 && |input| <= 100 && LeavesRoom(t, TYPE4_MAX)
    ensures var outs := Filled(script, plan, ps);
            Select(outs, 0, FitToTemplate(TYPE4_MAX, Required(pool, input), t), 0, plan.value) == Upto(0, |outs|)
  {
    var outs := Filled(script, plan, ps);
    FilledValue(script, plan, ps);
    FilledSize(script, plan, ps);
    Type4Room(pool, input, t);
    assert outs[0..] == outs;
    SelectsAll(outs, 0, FitToTemplate(TYPE4_MAX, Required(pool, input), t), 0, plan.value);
  }

  ghost predicate SmallOutputs(outs: seq<Output>) {
    forall k | 0 <= k < |outs| :: outs[k].value < U64 && |outs[k].script| <= 64
  }

  lemma {:induction false} DecodableSmall(script: ScriptOf, ps: seq<ChirpSplit.Payout>)
    requires Estimated(script) && ChirpSplit.Paid(ps) < U64
    ensures SmallOutputs(Decodable(script, ps)) && |Decodable(script, ps)| <= |ps|
    decreases |ps|
  {
    if ps != [] { DecodableSmall(script, ps[..|ps| - 1]); }
  }

  lemma HeadSmall(script: ScriptOf, plan: Plan)
    requires PlanOk(plan) && Estimated(script) && SplitTotal(script, plan) >= 0
    ensures SmallOutputs(HeadOutputs(script, plan)) && |HeadOutputs(script, plan)| <= 2
  {
  }

  lemma FilledSmall(script: ScriptOf, plan: Plan, ps: seq<ChirpSplit.Payout>)
    requires PlanOk(plan) && Estimated(script) && Handed(script, plan, ps)
    ensures SmallOutputs(Filled(script, plan, ps)) && |Filled(script, plan, ps)| <= MAX_OUTPUTS
  {
    HeadSmall(script, plan);
    DecodableSmall(script, ps);
  }

  /** The scripts that the program makes. */
  function ScriptsOf(h: Address.Hash): ScriptOf { (a: string) => Address.AddressToScript(Segwit.BECH32, h, a) }

  lemma ScriptsEstimated(h: Address.Hash)
    ensures Estimated(ScriptsOf(h))
  {
    forall a: string | ScriptsOf(h)(a).Some?
      ensures 9 + |ScriptsOf(h)(a).value| <= ChirpSplit.OutputBytes(a)
    {
      AddressSize.ScriptFits(Segwit.BECH32, h, a);
    }
  }

  // ---- who is paid ----

  /** ws are the winners, the front of the draw that fits the byte budget, and ps is what the split of
      the total hands them. */
  ghost predicate DrawnAndSplit(sort: Sort, cands: seq<Cand>, total: int, bps: nat, ws: seq<Cand>,
                                ps: seq<ChirpSplit.Payout>) {
    var d := Draw(sort, cands, ChirpSplit.MAX_N);
    && total >= 0 && ChirpSplit.FitsBudget(d, |ws|) && ws == d[..|ws|]
    && ps == ChirpSplit.SplitAmong(ws, total, bps).payouts
  }

  /** A winner is due its part by weight of what the fee leaves, rounded down. */
  function Due(ws: seq<Cand>, total: nat, bps: nat): Cand -> int {
    if ChirpSplit.Weight(ws) > 0.0
    then ChirpSplit.Amounts(ChirpSplit.Distributable(total, bps), ChirpSplit.Weight(ws))
    else (w: Cand) => 0
  }

  /** The output of a winner that is due the minimum at an address with a script. */
  function Owed(script: ScriptOf, due: Cand -> int, w: Cand): Option<Output> {
    if due(w) >= ChirpSplit.MIN_PAYOUT && script(w.addr).Some? then Some(Output(due(w), script(w.addr).value)) else None
  }

  /** outs has the output of every winner that is owed one, in order, once, and nothing else; at[k] is
      the winner of output k. */
  ghost predicate PaysAt(script: ScriptOf, due: Cand -> int, ws: seq<Cand>, outs: seq<Output>, at: seq<nat>) {
    && |at| == |outs| && (forall j, k | 0 <= j < k < |at| :: at[j] < at[k])
    && (forall k | 0 <= k < |at| :: at[k] < |ws| && Owed(script, due, ws[at[k]]) == Some(outs[k]))
    && (forall i | 0 <= i < |ws| && Owed(script, due, ws[i]).Some? :: i in at)
  }

  ghost predicate PaysAll(script: ScriptOf, due: Cand -> int, ws: seq<Cand>, outs: seq<Output>) {
    exists at :: PaysAt(script, due, ws, outs, at)
  }

  lemma DecodableSnoc(script: ScriptOf, ps: seq<ChirpSplit.Payout>, p: ChirpSplit.Payout)
    ensures Decodable(script, ps + [p])
      == Decodable(script, ps) + if script(p.addr).Some? then [Output(p.sats, script(p.addr).value)] else []
  {
    assert (ps + [p])[..|ps|] == ps;
  }

  lemma PaysAtNext(script: ScriptOf, due: Cand -> int, ws: seq<Cand>, outs: seq<Output>, at: seq<nat>, w: Cand)
    requires PaysAt(script, due, ws, outs, at)
    ensures var o := Owed(script, due, w);
      if o.Some? then PaysAt(script, due, ws + [w], outs + [o.value], at + [|ws|])
      else PaysAt(script, due, ws + [w], outs, at)
  {
    forall i | 0 <= i < |ws| && Owed(script, due, (ws + [w])[i]).Some? ensures i in at && i in at + [|ws|] {
      assert ws[i] == (ws + [w])[i];
    }
  }

  lemma DecodableLast(script: ScriptOf, due: Cand -> int, ws: seq<Cand>)
    requires ws != []
    ensures var o := Owed(script, due, ws[|ws| - 1]);
      Decodable(script, ChirpSplit.PayoutsOf(ws, due))
      == var front := Decodable(script, ChirpSplit.PayoutsOf(ws[..|ws| - 1], due));
         if o.Some? then front + [o.value] else front
  {
    var ps, w := ChirpSplit.PayoutsOf(ws[..|ws| - 1], due), ws[|ws| - 1];
    if due(w) >= ChirpSplit.MIN_PAYOUT {
      DecodableSnoc(script, ps, ChirpSplit.Payout(w.addr, due(w)));
    } else {
      assert ChirpSplit.PayoutsOf(ws, due) == ps;
    }
  }

  /** The decodable payouts of the split are what the winners are owed. */
  lemma {:induction false} OwedArePaid(script: ScriptOf, due: Cand -> int, ws: seq<Cand>)
    ensures PaysAll(script, due, ws, Decodable(script, ChirpSplit.PayoutsOf(ws, due)))
    decreases |ws|
  {
    if ws == [] {
      assert PaysAt(script, due, ws, [], []);
    } else {
      OwedArePaid(script, due, ws[..|ws| - 1]);
      PaysOneMore(script, due, ws, Decodable(script, ChirpSplit.PayoutsOf(ws[..|ws| - 1], due)));
      DecodableLast(script, due, ws);
    }
  }

  lemma PaysOneMore(script: ScriptOf, due: Cand -> int, ws: seq<Cand>, outs: seq<Output>)
    requires ws != [] && PaysAll(script, due, ws[..|ws| - 1], outs)
    ensures var o := Owed(script, due, ws[|ws| - 1]);
      PaysAll(script, due, ws, if o.Some? then outs + [o.value] else outs)
  {
    var front, w := ws[..|ws| - 1], ws[|ws| - 1];
    var at :| PaysAt(script, due, front, outs, at);
    PaysAtNext(script, due, front, outs, at, w);
    assert front + [w] == ws;
  }

  /** So every winner drawn that fits, is due the minimum and has a decodable address is paid what it
      is due, once, in the order of the draw, and nobody else is. */
  lemma WinnersArePaid(sort: Sort, cands: seq<Cand>, script: ScriptOf, total: nat, bps: nat, ws: seq<Cand>,
                       ps: seq<ChirpSplit.Payout>)
    requires DrawnAndSplit(sort, cands, total, bps, ws, ps)
    ensures PaysAll(script, Due(ws, total, bps), ws, Decodable(script, ps))
  {
    if ws != [] && ChirpSplit.Weight(ws) > 0.0 {
      OwedArePaid(script, Due(ws, total, bps), ws);
    } else {
      assert ps == [] && Decodable(script, ps) == [];
      assert PaysAt(script, Due(ws, total, bps), ws, [], []);
    }
  }

  /** The list begins with the snapshot's commitment, if there is one, and the supplier's part of the whole
      coinbase value, if that is at least 1000 satoshis and the address has a script. */
  ghost predicate BeginsWithHead(script: ScriptOf, plan: Plan, outs: seq<Output>) {
    var sup := if plan.supplier.Some? then script(plan.supplier.value) else None;
    var sats := plan.value * plan.supplierBps / 10000;
    var first := if plan.snapshot.Some? then 1 else 0;
    && |outs| >= first + (if sup.Some? && sats >= 1000 then 1 else 0) == |HeadOutputs(script, plan)|
    && (plan.snapshot.Some? ==>
          outs[0] == Output(0, [0x6A, 38, 0x43, 0x48, 0x49, 0x52, 0x50, 0x31] + plan.snapshot.value))
    && (sup.Some? && sats >= 1000 ==> outs[first] == Output(sats, sup.value))
  }

  /** The total that is split is what the supplier leaves; of what the fee leaves of that, each winner is
      handed its part by weight, if it is at least 1000 satoshis. */
  ghost predicate HandsFairly(script: ScriptOf, plan: Plan, ws: seq<Cand>, ps: seq<ChirpSplit.Payout>) {
    var taken := if plan.supplier.Some? && script(plan.supplier.value).Some?
      then TenThousandths(plan.value, plan.supplierBps) else 0;
    taken <= plan.value && HandsRest(plan.value - taken, TenThousandths(plan.value - taken, plan.feeBps), ws, ps)
  }

  ghost predicate HandsRest(total: nat, fee: nat, ws: seq<Cand>, ps: seq<ChirpSplit.Payout>) {
    && fee <= total && ChirpSplit.Paid(ps) + fee <= total
    && (ws == [] ==> ps == [])
    && (ws != [] ==>
          exists dues :: ChirpSplit.DueByWeight(ws, total - fee, dues) && ChirpSplit.PaysDue(ws, dues, ps))
  }

  ghost function TenThousandths(x: nat, bps: nat): nat { x * bps / 10000 }

  lemma HeadBegins(script: ScriptOf, plan: Plan, rest: seq<Output>)
    ensures BeginsWithHead(script, plan, HeadOutputs(script, plan) + rest)
  {
  }

  /** ws are the winners drawn from the candidates and ps what they are handed; outs are the snapshot and
      the supplier, and then the output of each winner that is owed one. */
  ghost predicate PaysWinners(sort: Sort, cands: seq<Cand>, script: ScriptOf, plan: Plan, ws: seq<Cand>,
                              ps: seq<ChirpSplit.Payout>, outs: seq<Output>) {
    var head, total := HeadOutputs(script, plan), SplitTotal(script, plan);
    && DrawnAndSplit(sort, cands, total, plan.feeBps, ws, ps)
    && |head| <= |outs| && outs[..|head|] == head && BeginsWithHead(script, plan, outs)
    && (plan.feeBps <= 10000 ==> HandsFairly(script, plan, ws, ps))
    && PaysAll(script, Due(ws, total, plan.feeBps), ws, outs[|head|..])
  }

  lemma FilledPaysWinners(sort: Sort, cands: seq<Cand>, script: ScriptOf, plan: Plan, ws: seq<Cand>,
                          ps: seq<ChirpSplit.Payout>)
    requires DrawnAndSplit(sort, cands, SplitTotal(script, plan), plan.feeBps, ws, ps)
    requires plan.feeBps <= 10000 ==> HandsFairly(script, plan, ws, ps)
    ensures PaysWinners(sort, cands, script, plan, ws, ps, Filled(script, plan, ps))
  {
    HeadBegins(script, plan, Decodable(script, ps));
    WinnersArePaid(sort, cands, script, SplitTotal(script, plan), plan.feeBps, ws, ps);
    BehindHead(HeadOutputs(script, plan), Decodable(script, ps));
  }

  lemma BehindHead(head: seq<Output>, rest: seq<Output>)
    ensures (head + rest)[..|head|] == head && (head + rest)[|head|..] == rest
  {
  }

  /** The draw, the split and the fill. */
  method DrawAndFill(sort: Sort, ghost key: Key, cands: seq<Cand>, script: ScriptOf, plan: Plan)
      returns (outs: seq<Output>, ps: seq<ChirpSplit.Payout>, ghost ws: seq<Cand>)
    requires Sorts(sort, key) && PlanOk(plan) && Estimated(script)
    ensures PaysWinners(sort, cands, script, plan, ws, ps, outs)
    ensures Handed(script, plan, ps) && outs == Filled(script, plan, ps)
  {
    SplitTotalOk(script, plan);
    var r;
    ghost var fit;
    r, fit := ChirpSplit.Split(sort, key, cands, SplitTotal(script, plan), plan.feeBps);
    SplitHands(script, plan, Draw(sort, cands, ChirpSplit.MAX_N), fit, r);
    HeadSmall(script, plan);
    outs := FillWinners(script, HeadOutputs(script, plan), r.payouts);
    ps, ws := r.payouts, Draw(sort, cands, ChirpSplit.MAX_N)[..fit];
    SplitHandsFairly(script, plan, ws, r);
    FilledPaysWinners(sort, cands, script, plan, ws, ps);
  }

  lemma SplitHandsFairly(script: ScriptOf, plan: Plan, ws: seq<Cand>, r: ChirpSplit.Result)
    requires PlanOk(plan) && SplitTotal(script, plan) >= 0
    requires ChirpSplit.Paid(r.payouts) + r.pool == SplitTotal(script, plan)
    requires ws == [] ==> r.payouts == []
    requires ws != [] && plan.feeBps <= 10000 ==>
      ChirpSplit.FairSplit(ws, SplitTotal(script, plan), plan.feeBps, r)
    requires plan.feeBps <= 10000 ==> r.pool >= SplitTotal(script, plan) * plan.feeBps / 10000
    ensures plan.feeBps <= 10000 ==> HandsFairly(script, plan, ws, r.payouts)
  {
    TakenIs(script, plan);
    var total := SplitTotal(script, plan);
    if plan.feeBps <= 10000 { RestIsHanded(total, plan.feeBps, ws, r); }
  }

  lemma RestIsHanded(total: nat, bps: nat, ws: seq<Cand>, r: ChirpSplit.Result)
    requires ChirpSplit.Paid(r.payouts) + r.pool == total && r.pool >= TenThousandths(total, bps)
    requires ws == [] ==> r.payouts == []
    requires ws != [] ==> ChirpSplit.FairSplit(ws, total, bps, r)
    ensures HandsRest(total, TenThousandths(total, bps), ws, r.payouts)
  {
    if ws != [] { FairIsHanded(total, TenThousandths(total, bps), ws, r); }
  }

  lemma FairIsHanded(total: nat, fee: nat, ws: seq<Cand>, r: ChirpSplit.Result)
    requires ChirpSplit.FairRest(ws, total, fee, r)
    ensures exists dues :: ChirpSplit.DueByWeight(ws, total - fee, dues) && ChirpSplit.PaysDue(ws, dues, r.payouts)
  {
  }

  /** The lottery coinbase, type 4: for every candidate set, every extranonce and every template
      with room, the transaction carries the snapshot, the supplier and the output of every winner of
      the draw that is owed one, in full, and these and the pool's leftover add up to the coinbase
      value. */
  method LotteryCoinbase(sort: Sort, ghost key: Key, cands: seq<Cand>, h: Address.Hash, plan: Plan,
                         enprefix: Bytes, pool: Bytes, commitment: Bytes, input: Bytes, t: Template)
      returns (coinb1: Bytes, coinb2: Bytes, job: Job, ps: seq<ChirpSplit.Payout>, ghost ws: seq<Cand>)
    requires Sorts(sort, key) && PlanOk(plan) && LeavesRoom(t, TYPE4_MAX)
    requires |enprefix| == 2 && |pool| <= 64 && |commitment| < 0xFD && |input| <= 100
    ensures PaysWinners(sort, cands, ScriptsOf(h), plan, ws, ps, job.outs)
    ensures Handed(ScriptsOf(h), plan, ps) && InWidth(job)
    ensures job == Job(Filled(ScriptsOf(h), plan, ps), plan.value, enprefix, pool, commitment, input)
    ensures TotalValue(job.outs) <= plan.value
    ensures forall en: Bytes | |en| == EN_LEN ::
      ParseGeneration(coinb1 + en + coinb2)
        == Some(Expected(job, |input| <= 85, [], Upto(0, |job.outs|), TotalValue(job.outs), en))
    ensures forall en: Bytes | |en| == EN_LEN ::
      LaysOut(ParseGeneration(coinb1 + en + coinb2).value, job, |input| <= 85, Upto(0, |job.outs|), 0,
              TotalValue(job.outs), en)
    ensures TotalValue(job.outs) + Leftover(job, TotalValue(job.outs)).value == plan.value
    ensures plan.feeBps <= 10000 ==>
      plan.value - TotalValue(job.outs) >= TenThousandths(SplitTotal(ScriptsOf(h), plan), plan.feeBps)
  {
    ScriptsEstimated(h);
    var outs;
    outs, ps, ws := DrawAndFill(sort, key, cands, ScriptsOf(h), plan);
    FilledSmall(ScriptsOf(h), plan, ps);
    FilledValue(ScriptsOf(h), plan, ps);
    if plan.feeBps <= 10000 { PoolKeepsFee(ScriptsOf(h), plan, ws, ps); }
    job := Job(outs, plan.value, enprefix, pool, commitment, input);
    var room := FitToTemplate(TYPE4_MAX, Required(pool, input), t);
    NothingTrimmed(ScriptsOf(h), plan, ps, pool, input, t);
    coinb1, coinb2 := GenerateAll(job, room);
  }

  lemma ChosenAll(outs: seq<Output>)
    ensures Chosen(outs, []) + Chosen(outs, Upto(0, |outs|)) == outs
  {
  }

  /** The outputs of that transaction, as read back: the extranonce if the input has no room for it, the
      list, the pool's leftover and the witness commitment.  Together they pay the coinbase value. */
  lemma AllPaidOut(job: Job, en: Bytes)
    requires TotalValue(job.outs) <= job.value
    ensures var outs := Outputs(job, |job.input| <= 85, [], Upto(0, |job.outs|), TotalValue(job.outs), en);
      && outs[..|outs| - 2]
        == (if |job.input| <= 85 then [] else [Output(0, [0x6A, 14] + job.enprefix + en)]) + job.outs
      && EndsWith(outs, job.value, TotalValue(job.outs), job.pool, job.commitment)
      && TotalValue(outs) == job.value
  {
    ExpectedLaysOut(job, |job.input| <= 85, [], Upto(0, |job.outs|), TotalValue(job.outs), en);
    OutputsValue(job, |job.input| <= 85, [], Upto(0, |job.outs|), TotalValue(job.outs), en);
    ChosenAll(job.outs);
    NoFront(Chosen(job.outs, []), Chosen(job.outs, Upto(0, |job.outs|)));
    NoFront([], if |job.input| <= 85 then [] else [EnOutput(job, en)]);
  }

  /** Generate when the selection takes everything. */
  method GenerateAll(job: Job, room: int) returns (coinb1: Bytes, coinb2: Bytes)
    requires InWidth(job) && Select(job.outs, 0, room, 0, job.value) == Upto(0, |job.outs|)
      && TotalValue(job.outs) <= job.value
    ensures forall en: Bytes | |en| == EN_LEN ::
      ParseGeneration(coinb1 + en + coinb2)
        == Some(Expected(job, |job.input| <= 85, [], Upto(0, |job.outs|), TotalValue(job.outs), en))
    ensures forall en: Bytes | |en| == EN_LEN ::
      LaysOut(ParseGeneration(coinb1 + en + coinb2).value, job, |job.input| <= 85, Upto(0, |job.outs|), 0,
              TotalValue(job.outs), en)
  {
    coinb1, coinb2 := Generate(job, room, |job.input| <= 85, false);
    ghost var ks := Upto(0, |job.outs|);
    assert ReadsAs(coinb1, coinb2, job, |job.input| <= 85, ks, 0);
    assert ks[..0] == [] && ks[0..] == ks;
    ChosenAll(job.outs);
    NoFront(Chosen(job.outs, []), Chosen(job.outs, ks));
    SmallMod(TotalValue(job.outs), job.value);
  }

  lemma NoFront(front: seq<Output>, back: seq<Output>)
    requires front == []
    ensures front + back == back
  {
  }

  lemma SmallMod(x: nat, bound: nat)
    requires x <= bound < U64
    ensures x % U64 == x
  {
  }
}
