/** The supplier rotation of src/datum_blocktemplates.c: a sorted set, a start and a cycle counter
    that make a round robin anyone can recompute, and the template swap that keeps the subsidy. */
module Carousel {
  import opened Wrappers
  import opened Sorting
  import opened Radix
  import opened Filters

  const MAX_SET: nat := 4096
  const U32: nat := 0x1_0000_0000
  const U64: nat := 0x1_0000_0000_0000_0000

  // ---- the set ----

  /** strcmp(a, b) <= 0 */
  predicate Before(a: string, b: string) {
    a == [] || (b != [] && (a[0] < b[0] || (a[0] == b[0] && Before(a[1..], b[1..]))))
  }

  lemma {:induction false} BeforeTellsApart(a: string, b: string)
    requires Before(a, b) && Before(b, a)
    ensures a == b
    decreases |a|
  {
    if a != [] {
      BeforeTellsApart(a[1..], b[1..]);
      assert a == [a[0]] + a[1..] && b == [b[0]] + b[1..];
    }
  }

  type Sort = seq<string> -> seq<string>

  ghost predicate Sorts(sort: Sort) {
    forall a: seq<string> :: multiset(sort(a)) == multiset(a) && SortedBy(Before, sort(a))
  }

  /** The scan stops at MAX_SET names, before they are sorted. */
  function Capped(names: seq<string>): seq<string> { if |names| <= MAX_SET then names else names[..MAX_SET] }

  /** Up to the cap, the schedule's set does not depend on the order in which the directory lists
      it, nor on the sort. */
  lemma SetIgnoresOrder(sort: Sort, sort': Sort, names: seq<string>, names': seq<string>)
    requires Sorts(sort) && Sorts(sort') && multiset(names) == multiset(names') && |names| <= MAX_SET
    ensures sort(Capped(names)) == sort'(Capped(names'))
  {
    SameMembers(names, names');
    var a, b := sort(names), sort'(names');
    assert multiset(a) == multiset(names) && multiset(b) == multiset(names');
    assert SortedBy(Before, a) && SortedBy(Before, b);
    forall x, y | x in a && y in a && Before(x, y) && Before(y, x) ensures x == y { BeforeTellsApart(x, y); }
    SortedIsUnique(Before, a, b);
  }

  ghost predicate AllDifferent(a: seq<string>) { forall i, j | 0 <= i < j < |a| :: a[i] != a[j] }

  /** Beyond it, it does: listing the first name left out first brings it in. */
  lemma CapFollowsOrder(sort: Sort, names: seq<string>) returns (names': seq<string>)
    requires Sorts(sort) && |names| > MAX_SET && AllDifferent(names)
    ensures multiset(names') == multiset(names) && sort(Capped(names')) != sort(Capped(names))
  {
    var x, front, rest := names[MAX_SET], names[..MAX_SET], names[MAX_SET + 1..];
    names' := [x] + front + rest;
    assert names == front + [x] + rest;
    SameMembers(sort(Capped(names)), Capped(names));
    SameMembers(Capped(names'), sort(Capped(names')));
    assert Capped(names')[0] == x;
    assert x !in front;
  }

  ghost predicate OrderFree(sort: Sort, names: seq<string>) {
    forall names' | multiset(names') == multiset(names) :: sort(Capped(names')) == sort(Capped(names))
  }

  /** The served set is a function of the fresh names alone exactly up to the cap. */
  lemma OrderFreeUpToCap(sort: Sort, names: seq<string>)
    requires Sorts(sort) && AllDifferent(names)
    ensures OrderFree(sort, names) <==> |names| <= MAX_SET
  {
    if |names| <= MAX_SET {
      forall names' | multiset(names') == multiset(names) ensures sort(Capped(names')) == sort(Capped(names)) {
        SetIgnoresOrder(sort, sort, names, names');
      }
    } else {
      var names' := CapFollowsOrder(sort, names);
    }
  }

  /** The directory scan: fresh caches, at most MAX_SET of them. */
  function Fresh(listing: seq<string>, isFresh: string -> bool): seq<string> {
    if listing == [] then []
    else
      var name := listing[|listing| - 1];
      Fresh(listing[..|listing| - 1], isFresh) + if isFresh(name) then [name] else []
  }

  method Collect(listing: seq<string>, isFresh: string -> bool) returns (names: seq<string>)
    ensures names == Capped(Fresh(listing, isFresh))
  {
    names := [];
    var i := 0;
    while i < |listing| && |names| < MAX_SET
      invariant i <= |listing| && |names| <= MAX_SET && names == Fresh(listing[..i], isFresh)
    {
      assert listing[..i + 1][..i] == listing[..i];
      if isFresh(listing[i]) { names := names + [listing[i]]; }
      i := i + 1;
    }
    FreshGrows(listing, i, isFresh);
    assert listing[..|listing|] == listing;
  }

  /** A full set that is a front of everything fresh is everything, if there is no more. */
  lemma {:induction false} FreshGrows(listing: seq<string>, i: nat, isFresh: string -> bool)
    requires i <= |listing|
    ensures Fresh(listing[..i], isFresh) <= Fresh(listing, isFresh)
    decreases |listing|
  {
    if i == |listing| {
      assert listing[..i] == listing;
    } else {
      FreshGrows(listing[..|listing| - 1], i, isFresh);
      assert listing[..|listing| - 1][..i] == listing[..i];
    }
  }

  /** The scan keeps exactly the fresh names, in the order of the directory. */
  lemma {:induction false} FreshKeeps(listing: seq<string>, isFresh: string -> bool)
    ensures Keeps(listing, isFresh, Fresh(listing, isFresh))
    decreases |listing|
  {
    if listing == [] {
      KeepsNothing(isFresh);
    } else {
      var front, name := listing[..|listing| - 1], listing[|listing| - 1];
      assert front + [name] == listing;
      FreshKeeps(front, isFresh);
      KeepsNext(front, isFresh, Fresh(front, isFresh), name);
      assert Fresh(front, isFresh) + [] == Fresh(front, isFresh);
    }
  }

  /** So every served name is listed and fresh, and up to 4096 fresh names every fresh one is served. */
  lemma ServedAreFresh(sort: Sort, listing: seq<string>, isFresh: string -> bool, name: string)
    requires Sorts(sort)
    ensures var all, served := Fresh(listing, isFresh), sort(Capped(Fresh(listing, isFresh)));
            && (name in served ==> name in listing && isFresh(name))
            && (|all| <= 4096 && name in listing && isFresh(name) ==> name in served)
            && |served| == if |all| <= 4096 then |all| else 4096
  {
    var all := Fresh(listing, isFresh);
    FreshKeeps(listing, isFresh);
    KeptMembers(listing, isFresh, all, name);
    CappedMembers(all, name);
    SortedMembers(sort, Capped(all), name);
  }

  lemma CappedMembers(all: seq<string>, name: string)
    ensures name in Capped(all) ==> name in all
    ensures |all| <= 4096 ==> Capped(all) == all
    ensures |Capped(all)| == if |all| <= 4096 then |all| else 4096
  {
  }

  lemma SortedMembers(sort: Sort, names: seq<string>, name: string)
    requires Sorts(sort)
    ensures |sort(names)| == |names| && (name in sort(names) <==> name in names)
  {
    assert multiset(sort(names)) == multiset(names);
    SameMembers(sort(names), names);
    SameMembers(names, sort(names));
  }

  /** Nobody is served exactly when nobody is fresh, and whoever is picked is. */
  lemma ScheduledIsFresh(sort: Sort, listing: seq<string>, isFresh: string -> bool, start: nat, cycle: nat)
    requires Sorts(sort)
    ensures var served := sort(Capped(Fresh(listing, isFresh)));
            if served == [] then forall name | name in listing :: !isFresh(name)
            else var pick := served[Pick(start, cycle, |served|)]; pick in listing && isFresh(pick)
  {
    var served := sort(Capped(Fresh(listing, isFresh)));
    if served == [] {
      forall name | name in listing ensures !isFresh(name) { ServedAreFresh(sort, listing, isFresh, name); }
    } else {
      ServedAreFresh(sort, listing, isFresh, served[Pick(start, cycle, |served|)]);
    }
  }

  // ---- the round robin ----

  function Pick(start: nat, cycle: nat, n: nat): (idx: nat)
    requires n > 0
    ensures idx < n
  {
    (start + cycle) % n
  }

  lemma Multiple(n: nat, a: nat, b: nat)
    requires a < b
    ensures b * n >= a * n + n
  {
    MulMono(a + 1, b, n);
    MulDist(a, 1, n);
  }

  /** Two cycles less than n apart do not schedule the same supplier. */
  lemma PickInjective(start: nat, n: nat, c: nat, d: nat)
    requires n > 0 && c < d < c + n
    ensures Pick(start, c, n) != Pick(start, d, n)
  {
    DivMod(start + c, n);
    DivMod(start + d, n);
    var p, q := (start + c) / n, (start + d) / n;
    if p < q {
      Multiple(n, p, q);
    } else if q < p {
      Multiple(n, q, p);
    }
  }

  /** Among any n consecutive cycles there is one for every supplier. */
  lemma PickSurjective(start: nat, n: nat, from: nat, idx: nat) returns (c: nat)
    requires idx < n
    ensures from <= c < from + n && Pick(start, c, n) == idx
  {
    var r := Pick(start, from, n);
    c := if r <= idx then from + (idx - r) else from + n - (r - idx);
    DivMod(start + from, n);
    var q := (start + from) / n;
    if r <= idx {
      DivModUnique(start + c, n, q, idx);
    } else {
      MulDist(q, 1, n);
      DivModUnique(start + c, n, q + 1, idx);
    }
  }

  /** Exactly one of the cycles from..from+n-1 schedules supplier idx. */
  ghost predicate OnceIn(start: nat, n: nat, from: nat, idx: nat)
    requires n > 0
  {
    exists c | from <= c < from + n && Pick(start, c, n) == idx ::
      forall d | from <= d < from + n && Pick(start, d, n) == idx :: d == c
  }

  /** Any n consecutive cycles schedule each supplier exactly once. */
  lemma EachExactlyOnce(start: nat, n: nat, from: nat, idx: nat)
    requires idx < n
    ensures OnceIn(start, n, from, idx)
  {
    var c := PickSurjective(start, n, from, idx);
    forall d | from <= d < from + n && Pick(start, d, n) == idx ensures d == c {
      if d < c {
        PickInjective(start, n, d, c);
      } else if c < d {
        PickInjective(start, n, c, d);
      }
    }
  }

  /** The picks of one round are the set, rotated. */
  lemma RotatedSet(served: seq<string>, picks: seq<string>, start: nat, first: nat)
    requires 0 < |served| == |picks|
    requires forall i | 0 <= i < |picks| :: picks[i] == served[Pick(start, first + i, |served|)]
    ensures multiset(picks) == multiset(served)
  {
    var n, r := |served|, Pick(start, first, |served|);
    forall i | 0 <= i < n ensures picks[i] == (served[r..] + served[..r])[i] { PickWraps(start, first, n, i); }
    assert picks == served[r..] + served[..r];
    assert served == served[..r] + served[r..];
  }

  lemma PickWraps(start: nat, first: nat, n: nat, i: nat)
    requires i < n
    ensures var r := Pick(start, first, n); Pick(start, first + i, n) == if r + i < n then r + i else r + i - n
  {
    var r, q := Pick(start, first, n), (start + first) / n;
    DivMod(start + first, n);
    if r + i < n {
      DivModUnique(start + (first + i), n, q, r + i);
    } else {
      MulDist(q, 1, n);
      DivModUnique(start + (first + i), n, q + 1, r + i - n);
    }
  }

  class Rotation {
    var prev: string
    var cycle: nat

    /** The cycle counter: 0 at a new previous block hash, then one more each time (32 bits). */
    method Advance(ours: string)
      modifies this
      ensures prev == ours && cycle == if old(prev) != ours then 0 else (old(cycle) + 1) % U32
    {
      if prev != ours {
        prev, cycle := ours, 0;
      } else {
        cycle := (cycle + 1) % U32;
      }
    }

    /** One work cycle: the supplier whose template is scheduled, none if nobody is fresh. */
    method Next(ours: string, listing: seq<string>, isFresh: string -> bool, sort: Sort, seed: nat)
        returns (pick: Option<string>)
      requires Sorts(sort)
      modifies this
      ensures prev == ours && cycle == if old(prev) != ours then 0 else (old(cycle) + 1) % U32
      ensures var served := sort(Capped(Fresh(listing, isFresh)));
              if served == [] then pick == None
              else pick == Some(served[Pick(seed % |served|, cycle, |served|)])
    {
      Advance(ours);
      var names := Collect(listing, isFresh);
      SameMembers(sort(names), names);
      if |names| == 0 { return None; }
      names := sort(names);
      var start := seed % |names|;
      return Some(names[(start + cycle) % |names|]);
    }

    /** n cycles in a row on an unchanged set of n suppliers pick each of them once: the picks
        are the set itself, rotated. */
    method Round(ours: string, listing: seq<string>, isFresh: string -> bool, sort: Sort, seed: nat)
        returns (picks: seq<string>)
      requires Sorts(sort) && Fresh(listing, isFresh) != []
      requires prev == ours && cycle + |Capped(Fresh(listing, isFresh))| < U32
      modifies this
      ensures var served := sort(Capped(Fresh(listing, isFresh)));
              |picks| == |served| && multiset(picks) == multiset(served)
    {
      ghost var served := sort(Capped(Fresh(listing, isFresh)));
      SameMembers(served, Capped(Fresh(listing, isFresh)));
      var n := |Capped(Fresh(listing, isFresh))|;
      ghost var first := cycle + 1;
      picks := [];
      for k := 0 to n
        invariant prev == ours && cycle + 1 == first + k && |picks| == k
        invariant forall i | 0 <= i < k :: picks[i] == served[Pick(seed % n, first + i, n)]
      {
        var p := Next(ours, listing, isFresh, sort, seed);
        picks := picks + [p.value];
      }
      RotatedSet(served, picks, seed % n, first);
    }
  }

  // ---- datum_template_swap_from ----

  datatype Tx = Tx(txid: Option<string>, data: Option<string>, fee: nat, weight: nat)

  datatype Template = Template(prevhash: string, value: nat, txs: Option<seq<Tx>>)

  function Fees(txs: seq<Tx>): nat { if txs == [] then 0 else Fees(txs[..|txs| - 1]) + txs[|txs| - 1].fee }

  function Usable(txs: seq<Tx>): seq<Tx> {
    if txs == [] then []
    else
      var t := txs[|txs| - 1];
      Usable(txs[..|txs| - 1]) + if t.txid.Some? && t.data.Some? then [t] else []
  }

  predicate Complete(t: Tx) { t.txid.Some? && t.data.Some? }

  /** The swapped-in transactions are exactly those with an id and data, in order. */
  lemma {:induction false} UsableKeeps(txs: seq<Tx>)
    ensures Keeps(txs, Complete, Usable(txs))
    decreases |txs|
  {
    if txs == [] {
      KeepsNothing(Complete);
    } else {
      var front, t := txs[..|txs| - 1], txs[|txs| - 1];
      assert front + [t] == txs;
      UsableKeeps(front);
      KeepsNext(front, Complete, Usable(front), t);
      assert Usable(front) + [] == Usable(front);
    }
  }

  lemma FeesSnoc(txs: seq<Tx>, t: Tx)
    ensures Fees(txs + [t]) == Fees(txs) + t.fee
  {
    assert (txs + [t])[..|txs|] == txs;
  }

  function TxsOf(t: Template): seq<Tx> { if t.txs.Some? then t.txs.value else [] }

  /** The supplier's usable transactions in place of ours, and a coinbase value to match. */
  method Swap(ours: Template, sup: Template) returns (r: Option<Template>)
    requires ours.value < U64
    ensures r.None? <==> ours.prevhash != sup.prevhash || sup.txs.None?
    ensures r.Some? ==>
      && r.value.prevhash == ours.prevhash && r.value.txs == Some(Usable(sup.txs.value))
      && r.value.value == (Subsidy(ours) + Fees(Usable(sup.txs.value))) % U64
  {
    if ours.prevhash != sup.prevhash { return None; }
    if sup.txs.None? { return None; }
    var ourFees := SumFees(TxsOf(ours));
    var subsidy := if ours.value >= ourFees then ours.value - ourFees else ours.value;
    var kept, supFees := KeepUsable(sup.txs.value);
    WrapOnce(subsidy, Fees(kept));
    return Some(Template(ours.prevhash, (subsidy + supFees) % U64, Some(kept)));
  }

  lemma WrapOnce(a: nat, b: nat)
    ensures (a + b % U64) % U64 == (a + b) % U64
  {
  }

  method SumFees(txs: seq<Tx>) returns (fees: nat)
    ensures fees == Fees(txs) % U64
  {
    fees := 0;
    for k := 0 to |txs|
      invariant fees == Fees(txs[..k]) % U64
    {
      assert txs[..k + 1][..k] == txs[..k];
      WrapOnce(txs[k].fee, Fees(txs[..k]));
      fees := (fees + txs[k].fee) % U64;
    }
    assert txs[..|txs|] == txs;
  }

  lemma FeesWrap(kept: seq<Tx>, tx: Tx, fees: nat)
    requires fees == Fees(kept) % U64
    ensures (fees + tx.fee) % U64 == Fees(kept + [tx]) % U64
  {
    FeesSnoc(kept, tx);
    WrapOnce(tx.fee, Fees(kept));
  }

  /** The transactions that carry both an id and their data, with the sum of their fees. */
  method KeepUsable(txs: seq<Tx>) returns (kept: seq<Tx>, fees: nat)
    ensures kept == Usable(txs) && fees == Fees(kept) % U64
  {
    kept, fees := [], 0;
    for k := 0 to |txs|
      invariant kept == Usable(txs[..k]) && fees == Fees(kept) % U64
    {
      assert txs[..k + 1][..k] == txs[..k];
      if txs[k].txid.Some? && txs[k].data.Some? {
        FeesWrap(kept, txs[k], fees);
        kept, fees := kept + [txs[k]], (fees + txs[k].fee) % U64;
      }
    }
    assert txs[..|txs|] == txs;
  }

  /** What the program takes for the subsidy; fees are 64-bit sums. */
  function Subsidy(t: Template): nat {
    var fees := Fees(TxsOf(t)) % U64;
    if t.value >= fees then t.value - fees else t.value
  }

  /** The swap keeps coinbase value minus fees exactly when our own template's value covers its
      fees, or it has none. */
  lemma SwapKeepsSubsidy(ours: Template, r: Template)
    requires Fees(TxsOf(ours)) < U64 && Subsidy(ours) + Fees(TxsOf(r)) < U64
    requires r.value == (Subsidy(ours) + Fees(TxsOf(r))) % U64
    ensures r.value - Fees(TxsOf(r)) == ours.value - Fees(TxsOf(ours))
            <==> ours.value >= Fees(TxsOf(ours)) || Fees(TxsOf(ours)) == 0
  {
  }
}
