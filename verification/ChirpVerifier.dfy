/** The gateway's split of src/datum_chirp.c against the verifier of tools/verify_chirp_block.py, which
    knows nothing of the byte budget: when they agree, exactly. */
module ChirpVerifier {
  import opened ChirpDraw
  import opened ChirpSplit

  lemma WithinBudget(ws: seq<Cand>, fit: nat)
    requires FitsBudget(ws, fit)
    ensures Bytes(ws) <= BUDGET <==> fit == |ws|
    ensures fit == |ws| ==> ws[..fit] == ws
  {
    if fit < |ws| {
      BytesMonotone(ws, fit + 1);
    } else {
      assert ws[..fit] == ws;
    }
  }

  /** When the drawn winners fit the budget, the verifier reproduces payouts and pool total, for
      every candidate set, in any order, with any sort. */
  lemma VerifierAgrees(key: Key, sort: Sort, sort': Sort, cands: seq<Cand>, cands': seq<Cand>, total: nat, bps: nat,
                       fit: nat)
    requires Sorts(sort, key) && Sorts(sort', key) && multiset(cands) == multiset(cands')
    requires DistinctKeys(key, Positive(cands))
    requires FitsBudget(Draw(sort, cands, MAX_N), fit) && Bytes(Draw(sort, cands, MAX_N)) <= BUDGET
    ensures SplitAmong(Draw(sort, cands, MAX_N)[..fit], total, bps)
      == SplitAmong(Draw(sort', cands', MAX_N), total, bps)
  {
    var d := Draw(sort, cands, MAX_N);
    DrawIsUnique(key, sort, sort', cands, cands', MAX_N);
    WithinBudget(d, fit);
  }

  /** So the verifier always agrees up to 344 winners, and the budget always cuts from 478 on. */
  lemma {:induction false} BytesPerWinner(ws: seq<Cand>)
    ensures 31 * |ws| <= Bytes(ws) <= 43 * |ws|
    ensures |ws| <= 344 ==> Bytes(ws) <= BUDGET
    ensures |ws| >= 478 ==> Bytes(ws) > BUDGET
    decreases |ws|
  {
    if ws != [] { BytesPerWinner(ws[..|ws| - 1]); }
  }

  // ---- beyond the budget ----

  ghost predicate DistinctAddresses(ws: seq<Cand>) { forall i, j | 0 <= i < j < |ws| :: ws[i].addr != ws[j].addr }

  lemma {:induction false} PaidAreWinners(ws: seq<Cand>, due: Cand -> int, p: Payout)
    requires p in PayoutsOf(ws, due)
    ensures exists i :: 0 <= i < |ws| && ws[i].addr == p.addr
    decreases |ws|
  {
    var front, w := ws[..|ws| - 1], ws[|ws| - 1];
    if p in PayoutsOf(front, due) {
      PaidAreWinners(front, due, p);
      var i :| 0 <= i < |front| && front[i].addr == p.addr;
      assert ws[i].addr == p.addr;
    }
  }

  lemma {:induction false} WinnerIsPaid(ws: seq<Cand>, due: Cand -> int, i: nat)
    requires i < |ws| && due(ws[i]) >= MIN_PAYOUT
    ensures exists p :: p in PayoutsOf(ws, due) && p.addr == ws[i].addr
    decreases |ws|
  {
    var front, w := ws[..|ws| - 1], ws[|ws| - 1];
    if i < |front| {
      WinnerIsPaid(front, due, i);
      var p :| p in PayoutsOf(front, due) && p.addr == ws[i].addr;
      assert p in PayoutsOf(ws, due);
    } else {
      assert Payout(w.addr, due(w)) in PayoutsOf(ws, due);
    }
  }

  /** Winners due less than the minimum leave no trace. */
  lemma {:induction false} DustLeavesNoTrace(ws: seq<Cand>, due: Cand -> int, k: nat)
    requires k <= |ws| && forall i | k <= i < |ws| :: due(ws[i]) < MIN_PAYOUT
    ensures PayoutsOf(ws, due) == PayoutsOf(ws[..k], due)
    decreases |ws|
  {
    if k == |ws| {
      assert ws[..k] == ws;
    } else {
      DustLeavesNoTrace(ws[..|ws| - 1], due, k);
      assert ws[..|ws| - 1][..k] == ws[..k];
    }
  }

  /** Paid the same, or not paid at all. */
  predicate SameDue(x: int, y: int) { x == y || (x < MIN_PAYOUT && y < MIN_PAYOUT) }

  ghost predicate AllSameDue(ws: seq<Cand>, due: Cand -> int, due': Cand -> int) {
    forall i | 0 <= i < |ws| :: SameDue(due(ws[i]), due'(ws[i]))
  }

  lemma {:induction false} SamePayoutsExactly(ws: seq<Cand>, due: Cand -> int, due': Cand -> int)
    requires DistinctAddresses(ws)
    ensures PayoutsOf(ws, due) == PayoutsOf(ws, due') <==> AllSameDue(ws, due, due')
    decreases |ws|
  {
    if ws != [] {
      var front, w := ws[..|ws| - 1], ws[|ws| - 1];
      assert forall i | 0 <= i < |front| :: front[i] == ws[i];
      SamePayoutsExactly(front, due, due');
      LastDecides(front, w, due, due');
      PayoutsLast(ws, due);
      PayoutsLast(ws, due');
      SameDueLast(ws, due, due');
    }
  }

  lemma PayoutsLast(ws: seq<Cand>, due: Cand -> int)
    requires ws != []
    ensures PayoutsOf(ws, due) == PayoutsOf(ws[..|ws| - 1], due) + PayIf(ws[|ws| - 1], due(ws[|ws| - 1]))
  {
  }

  lemma SameDueLast(ws: seq<Cand>, due: Cand -> int, due': Cand -> int)
    requires ws != []
    ensures AllSameDue(ws, due, due')
            <==> AllSameDue(ws[..|ws| - 1], due, due') && SameDue(due(ws[|ws| - 1]), due'(ws[|ws| - 1]))
  {
    assert ws == ws[..|ws| - 1] + [ws[|ws| - 1]];
  }

  function PayIf(w: Cand, x: int): seq<Payout> { if x >= MIN_PAYOUT then [Payout(w.addr, x)] else [] }

  lemma LastDecides(front: seq<Cand>, w: Cand, due: Cand -> int, due': Cand -> int)
    requires forall i | 0 <= i < |front| :: front[i].addr != w.addr
    ensures PayoutsOf(front, due) + PayIf(w, due(w)) == PayoutsOf(front, due') + PayIf(w, due'(w))
            <==> PayoutsOf(front, due) == PayoutsOf(front, due') && SameDue(due(w), due'(w))
  {
    OthersPaid(front, w, due);
    OthersPaid(front, w, due');
    EndsAlike(PayoutsOf(front, due), PayoutsOf(front, due'), w, due(w), due'(w));
  }

  lemma OthersPaid(front: seq<Cand>, w: Cand, due: Cand -> int)
    requires forall i | 0 <= i < |front| :: front[i].addr != w.addr
    ensures forall p | p in PayoutsOf(front, due) :: p.addr != w.addr
  {
    forall p | p in PayoutsOf(front, due) ensures p.addr != w.addr {
      PaidAreWinners(front, due, p);
      var i :| 0 <= i < |front| && front[i].addr == p.addr;
      assert front[i].addr != w.addr;
    }
  }

  lemma EndsAlike(a: seq<Payout>, b: seq<Payout>, w: Cand, x: int, y: int)
    requires (forall p | p in a :: p.addr != w.addr) && forall p | p in b :: p.addr != w.addr
    ensures a + PayIf(w, x) == b + PayIf(w, y) <==> a == b && SameDue(x, y)
  {
    var s, t := a + PayIf(w, x), b + PayIf(w, y);
    if x >= MIN_PAYOUT && y >= MIN_PAYOUT {
      assert s[..|s| - 1] == a && t[..|t| - 1] == b && s[|s| - 1] == Payout(w.addr, x)
        && t[|t| - 1] == Payout(w.addr, y);
    } else if x >= MIN_PAYOUT {
      assert Payout(w.addr, x) in s && t == b;
    } else if y >= MIN_PAYOUT {
      assert Payout(w.addr, y) in t && s == a;
    } else {
      assert s == a && t == b;
    }
  }

  /** Who is cut is due nothing anyway, and who is not is due the same or nothing either way. */
  ghost predicate CutShowsNot(d: seq<Cand>, fit: nat, dist: nat)
    requires fit <= |d| && Weight(d) > 0.0 && Weight(d[..fit]) > 0.0
  {
    var all, kept := Amounts(dist, Weight(d)), Amounts(dist, Weight(d[..fit]));
    (forall i | fit <= i < |d| :: all(d[i]) < MIN_PAYOUT) && AllSameDue(d[..fit], all, kept)
  }

  lemma FitIsPositive(d: seq<Cand>, fit: nat)
    requires d != [] && FitsBudget(d, fit)
    ensures fit > 0
  {
    BytesPerWinner(d[..1]);
  }

  /** The verifier agrees with the program exactly when the winners fit the byte budget, or the cut does
      not show in what is due. */
  lemma VerifierAgreesExactly(d: seq<Cand>, total: nat, bps: nat, fit: nat)
    requires d != [] && Positives(d) && DistinctAddresses(d) && FitsBudget(d, fit)
    ensures Weight(d) > 0.0 && Weight(d[..fit]) > 0.0
    ensures SplitAmong(d[..fit], total, bps) == SplitAmong(d, total, bps)
            <==> Bytes(d) <= BUDGET || CutShowsNot(d, fit, Distributable(total, bps))
  {
    FitIsPositive(d, fit);
    WeightPositive(d);
    WeightPositive(d[..fit]);
    WithinBudget(d, fit);
    var dist := Distributable(total, bps);
    CutPayoutsExactly(d, fit, Amounts(dist, Weight(d)), Amounts(dist, Weight(d[..fit])));
  }

  lemma CutPayoutsExactly(d: seq<Cand>, fit: nat, all: Cand -> int, kept: Cand -> int)
    requires DistinctAddresses(d) && fit <= |d|
    ensures PayoutsOf(d[..fit], kept) == PayoutsOf(d, all)
            <==> (forall i | fit <= i < |d| :: all(d[i]) < MIN_PAYOUT) && AllSameDue(d[..fit], all, kept)
  {
    if i :| fit <= i < |d| && all(d[i]) >= MIN_PAYOUT {
      CutWinnerShows(d, fit, all, kept, i);
    } else {
      DustLeavesNoTrace(d, all, fit);
      SamePayoutsExactly(d[..fit], all, kept);
    }
  }

  /** A winner beyond the budget that the verifier would pay makes them disagree. */
  lemma CutWinnerShows(d: seq<Cand>, fit: nat, all: Cand -> int, kept: Cand -> int, i: nat)
    requires DistinctAddresses(d) && fit <= i < |d| && all(d[i]) >= MIN_PAYOUT
    ensures PayoutsOf(d[..fit], kept) != PayoutsOf(d, all)
  {
    WinnerIsPaid(d, all, i);
    var p :| p in PayoutsOf(d, all) && p.addr == d[i].addr;
    if p in PayoutsOf(d[..fit], kept) {
      PaidAreWinners(d[..fit], kept, p);
    }
  }

  // ---- a payout on which they disagree ----

  /** A full house of equal winners with short addresses. */
  ghost predicate FullHouse(ws: seq<Cand>) {
    |ws| == MAX_N && forall i | 0 <= i < |ws| :: ws[i].weight == 1.0 && |ws[i].addr| > 0 && ws[i].addr[0] == '1'
  }

  lemma {:induction false} EqualWinners(ws: seq<Cand>)
    requires forall i | 0 <= i < |ws| :: ws[i].weight == 1.0 && |ws[i].addr| > 0 && ws[i].addr[0] == '1'
    ensures Weight(ws) == |ws| as real && Bytes(ws) == 34 * |ws|
    decreases |ws|
  {
    if ws != [] {
      var w := ws[|ws| - 1];
      EqualWinners(ws[..|ws| - 1]);
      assert OutputBytes(w.addr) == 34 by { ShortAddress(w.addr); }
    }
  }

  lemma ShortAddress(addr: string)
    requires |addr| > 0 && addr[0] == '1'
    ensures OutputBytes(addr) == 34
  {
    if |addr| > 4 { assert addr[..4][0] == '1'; }
  }

  /** Equal parts of at least 490000 satoshis are no dust. */
  lemma FullHousePaid(d: seq<Cand>, dist: nat)
    requires FullHouse(d) && dist >= MAX_N * MIN_PAYOUT
    ensures |PayoutsOf(d, Amounts(dist, MAX_N as real))| == |d|
  {
    var due := Amounts(dist, MAX_N as real);
    forall i | 0 <= i < |d| ensures due(d[i]) >= MIN_PAYOUT { EqualPart(d[i], dist); }
    AllPaid(d, due);
  }

  lemma EqualPart(w: Cand, dist: nat)
    requires w.weight == 1.0 && dist >= MAX_N * MIN_PAYOUT
    ensures Amounts(dist, MAX_N as real)(w) >= MIN_PAYOUT
  {
    assert dist as real * (1.0 / MAX_N as real) == dist as real / MAX_N as real;
    assert dist as real / MAX_N as real >= MIN_PAYOUT as real;
  }

  lemma {:induction false} AllPaid(ws: seq<Cand>, due: Cand -> int)
    requires forall i | 0 <= i < |ws| :: due(ws[i]) >= MIN_PAYOUT
    ensures |PayoutsOf(ws, due)| == |ws|
    decreases |ws|
  {
    if ws != [] { AllPaid(ws[..|ws| - 1], due); }
  }

  /** 490 equal winners on 490000 satoshis or more after the fee: the gateway pays those that fit, the
      verifier all. */
  lemma FullHouseDisagrees(d: seq<Cand>, fit: nat, total: nat, bps: nat)
    requires FullHouse(d) && FitsBudget(d, fit) && Distributable(total, bps) >= MAX_N * MIN_PAYOUT
    ensures SplitAmong(d[..fit], total, bps).payouts != SplitAmong(d, total, bps).payouts
  {
    EqualWinners(d);
    WithinBudget(d, fit);
    FullHousePaid(d, Distributable(total, bps));
    assert |SplitAmong(d, total, bps).payouts| == |d|;
    SplitNoMore(d[..fit], total, bps);
  }

  lemma SplitNoMore(ws: seq<Cand>, total: nat, bps: nat)
    ensures |SplitAmong(ws, total, bps).payouts| <= |ws|
  {
    if ws != [] && Weight(ws) > 0.0 { PayoutsNoMore(ws, Amounts(Distributable(total, bps), Weight(ws))); }
  }

  lemma DrawnIsFull(key: Key, sort: Sort, cands: seq<Cand>)
    requires Sorts(sort, key) && FullHouse(cands)
    ensures FullHouse(Draw(sort, cands, MAX_N))
  {
    AllPositive(cands);
    var d := Draw(sort, cands, MAX_N);
    var out := DrawSplits(key, sort, cands, MAX_N);
    forall i | 0 <= i < |d| ensures d[i].weight == 1.0 && |d[i].addr| > 0 && d[i].addr[0] == '1' {
      assert d[i] in d;
      assert d[i] in cands;
    }
  }

  lemma {:induction false} AllPositive(ws: seq<Cand>)
    requires forall i | 0 <= i < |ws| :: ws[i].weight > 0.0
    ensures Positive(ws) == ws
    decreases |ws|
  {
    if ws != [] {
      AllPositive(ws[..|ws| - 1]);
      assert ws == ws[..|ws| - 1] + [ws[|ws| - 1]];
    }
  }
}
