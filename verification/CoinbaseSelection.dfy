/** Which outputs the two passes of Coinbase take, said of each output by itself; which of them go into
    coinb1; and how long the coinbase becomes. */
module CoinbaseSelection {
  import opened Wrappers
  import opened Radix
  import opened TxFormat
  import opened Coinbase

  // ---- greedy, exactly ----

  /** The first p choices are those with an index below k. */
  ghost predicate Before(ks: seq<nat>, p: nat, k: nat) {
    p <= |ks| && (forall i | 0 <= i < p :: ks[i] < k) && forall i | p <= i < |ks| :: ks[i] >= k
  }

  /** Output k is worth taking, after choices of this size and (64-bit) value: at least 30 bytes and some money
      are left, unless it would be the first, and it fits both. */
  ghost predicate Takes(o: Output, first: bool, room: int, size: nat, paid: nat, total: nat) {
    && (first || (room - size >= 30 && paid % U64 < total))
    && 9 + |o.script| <= room - size && (paid % U64 + o.value) % U64 <= total
  }

  lemma {:induction false} TakenFrom(outs: seq<Output>, j: nat, room: int, spent: nat, total: nat, k: nat, p: nat)
    requires j <= k < |outs| && Before(Select(outs, j, room, spent, total), p, k)
    requires Indices(Select(outs, j, room, spent, total), |outs|) && spent < U64
    ensures var ks := Select(outs, j, room, spent, total); var done := Chosen(outs, ks[..p]);
            k in ks <==> Takes(outs[k], p == 0, room, TotalSize(done), spent + TotalValue(done), total)
    decreases |outs| - j
  {
    SelectStep(outs, j, room, spent, total);
    if j == k {
      TakenHere(outs, k, room, spent, total, p);
    } else if !Fits(outs[j], room, spent, total) {
      TakenFrom(outs, j + 1, room, spent, total, k, p);
    } else {
      var rest := After(outs, j, room - Size(outs[j]), (spent + outs[j].value) % U64, total);
      FirstBelow(j, rest, p, k);
      TakenAfter(outs, j, room, spent, total, k, p, rest);
    }
  }

  lemma FirstBelow(j: nat, rest: seq<nat>, p: nat, k: nat)
    requires Before([j] + rest, p, k) && j < k
    ensures p > 0
  {
    if p == 0 { assert ([j] + rest)[0] == j; }
  }

  /** At its own turn. */
  lemma TakenHere(outs: seq<Output>, k: nat, room: int, spent: nat, total: nat, p: nat)
    requires k < |outs| && Before(Select(outs, k, room, spent, total), p, k) && spent < U64
    ensures p == 0 && (k in Select(outs, k, room, spent, total) <==> Takes(outs[k], true, room, 0, spent, total))
  {
    var ks := Select(outs, k, room, spent, total);
    SelectAscending(outs, k, room, spent, total);
    SelectAscending(outs, k + 1, room, spent, total);
    SelectStep(outs, k, room, spent, total);
    NoneBelow(ks, p, k, |outs|);
    if Fits(outs[k], room, spent, total) { assert ks[0] == k; }
  }

  lemma NoneBelow(ks: seq<nat>, p: nat, k: nat, n: nat)
    requires Before(ks, p, k) && Ascending(ks, k, n)
    ensures p == 0
  {
    if p > 0 { FirstIsBelow(ks, p, k); }
  }

  lemma FirstIsBelow(ks: seq<nat>, p: nat, k: nat)
    requires Before(ks, p, k) && p > 0
    ensures |ks| > 0 && ks[0] < k
  {
  }

  lemma {:induction false} TakenAfter(outs: seq<Output>, j: nat, room: int, spent: nat, total: nat, k: nat, p: nat,
                                      rest: seq<nat>)
    requires j < k < |outs| && Fits(outs[j], room, spent, total) && p > 0 && spent < U64
    requires rest == After(outs, j, room - Size(outs[j]), (spent + outs[j].value) % U64, total)
    requires Before([j] + rest, p, k) && Indices([j] + rest, |outs|)
    ensures var ks := [j] + rest; var done := Chosen(outs, ks[..p]);
            k in ks <==> Takes(outs[k], false, room, TotalSize(done), spent + TotalValue(done), total)
    decreases |outs| - j, 0
  {
    var room', spent' := room - Size(outs[j]), (spent + outs[j].value) % U64;
    var ks := [j] + rest;
    assert ks[1..] == rest;
    BeforeRest(j, rest, p, k);
    DoneCons(outs, j, rest, p, spent);
    if Stops(room', spent', total) {
      assert rest == [] && TotalValue(Chosen(outs, rest[..p - 1])) == 0;
    } else {
      TakenFrom(outs, j + 1, room', spent', total, k, p - 1);
    }
  }

  lemma DoneCons(outs: seq<Output>, j: nat, rest: seq<nat>, p: nat, spent: nat)
    requires j < |outs| && Indices(rest, |outs|) && 0 < p <= |rest| + 1
    ensures var done, later := Chosen(outs, ([j] + rest)[..p]), Chosen(outs, rest[..p - 1]);
            && TotalSize(done) == Size(outs[j]) + TotalSize(later)
            && (spent + TotalValue(done)) % U64 == ((spent + outs[j].value) % U64 + TotalValue(later)) % U64
  {
    assert ([j] + rest)[..p] == [j] + rest[..p - 1];
    ChosenCons(outs, j, rest[..p - 1]);
    SumsWrap(spent, outs[j].value, TotalValue(Chosen(outs, rest[..p - 1])));
  }

  lemma BeforeRest(j: nat, rest: seq<nat>, p: nat, k: nat)
    requires Before([j] + rest, p, k) && p > 0
    ensures Before(rest, p - 1, k) && (j < k ==> (k in [j] + rest <==> k in rest))
  {
    var ks := [j] + rest;
    assert forall i | 0 <= i < |rest| :: rest[i] == ks[i + 1];
  }

  lemma SumsWrap(a: nat, b: nat, c: nat)
    ensures ((a + b) % U64 + c) % U64 == (a + (b + c)) % U64
  {
  }

  /** Output k is chosen exactly when the choices before it leave room and money for it. */
  lemma ChosenExactly(outs: seq<Output>, room: int, total: nat, k: nat, p: nat)
    requires k < |outs| && Indices(Select(outs, 0, room, 0, total), |outs|)
    requires Before(Select(outs, 0, room, 0, total), p, k)
    ensures var ks := Select(outs, 0, room, 0, total); var done := Chosen(outs, ks[..p]);
            k in ks <==> Takes(outs[k], p == 0, room, TotalSize(done), TotalValue(done), total)
  {
    TakenFrom(outs, 0, room, 0, total, k, p);
  }

  /** There is such a p for every output. */
  lemma {:induction false} HowManyBefore(ks: seq<nat>, k: nat, lo: nat, hi: nat) returns (p: nat)
    requires Ascending(ks, lo, hi)
    ensures Before(ks, p, k)
    decreases |ks|
  {
    if ks == [] || ks[0] >= k {
      p := 0;
    } else {
      var q := HowManyBefore(ks[1..], k, lo, hi);
      p := q + 1;
      assert forall i | 0 < i < |ks| :: ks[i] == ks[1..][i - 1];
    }
  }

  // ---- coinb1 ----

  /** As many leading choices as their sizes leave room for: one more would be too much. */
  lemma {:induction false} LeadingExactly(outs: seq<Output>, ks: seq<nat>, room1: int)
    requires Indices(ks, |outs|)
    ensures var n := Leading(outs, ks, room1);
            && n <= |ks| && (n > 0 ==> TotalSize(Chosen(outs, ks[..n])) <= room1)
            && (n < |ks| ==> TotalSize(Chosen(outs, ks[..n + 1])) > room1)
    decreases |ks|
  {
    var n := Leading(outs, ks, room1);
    if ks != [] {
      var x := Size(outs[ks[0]]);
      LeadingExactly(outs, ks[1..], room1 - x);
      FirstOf(outs, ks, n);
      if n < |ks| { FirstOf(outs, ks, n + 1); }
    }
  }

  lemma FirstOf(outs: seq<Output>, ks: seq<nat>, n: nat)
    requires Indices(ks, |outs|) && n <= |ks|
    ensures n > 0 ==> TotalSize(Chosen(outs, ks[..n])) == Size(outs[ks[0]]) + TotalSize(Chosen(outs, ks[1..][..n - 1]))
  {
    if n > 0 {
      assert ks[..n] == [ks[0]] + ks[1..][..n - 1];
      ChosenCons(outs, ks[0], ks[1..][..n - 1]);
    }
  }

  /** The room in coinb1: 150 bytes with the 46 bytes around the input script. */
  lemma FrontRoomIs(job: Job)
    requires |job.input| <= 100
    ensures FrontRoom(job, false) == 104 - |job.input|
  {
  }
}
