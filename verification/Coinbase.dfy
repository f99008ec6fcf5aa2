/** Coinbase construction of src/datum_coinbaser.c: the two passes that choose outputs and write
    the halves around the extranonce, proved to make one transaction that pays out exactly the
    coinbase value.  The hexadecimal text of the program is modelled as the bytes it spells. */
module Coinbase {
  import opened Wrappers
  import opened Radix
  import opened TxFormat

  const EN_LEN: nat := 12
  const MAX_OUTPUTS: nat := 512

  datatype Job = Job(outs: seq<Output>, value: nat, enprefix: Bytes, pool: Bytes, commitment: Bytes, input: Bytes)

  /** The widths of the program's fields. */
  predicate InWidth(job: Job) {
    && job.value < U64 && |job.enprefix| == 2 && |job.pool| < 0xFD && |job.commitment| < 0xFD && |job.input| <= 100
    && |job.outs| <= MAX_OUTPUTS
    && forall k | 0 <= k < |job.outs| :: job.outs[k].value < U64 && |job.outs[k].script| <= 64
  }

  // ---- which outputs are chosen ----

  function Size(o: Output): nat { |o.script| + 9 }

  /** The test of both passes; the sum is 64-bit. */
  predicate Fits(o: Output, room: int, spent: nat, total: nat) {
    Size(o) <= room && (spent + o.value) % U64 <= total
  }

  /** The program stops when little room or no money is left. */
  predicate Stops(room: int, spent: nat, total: nat) { room < 30 || spent >= total }

  /** Indices chosen from k on. */
  function Select(outs: seq<Output>, k: nat, room: int, spent: nat, total: nat): seq<nat>
    requires k <= |outs|
    decreases |outs| - k
  {
    if k == |outs| then []
    else if !Fits(outs[k], room, spent, total) then Select(outs, k + 1, room, spent, total)
    else
      var room', spent' := room - Size(outs[k]), (spent + outs[k].value) % U64;
      [k] + if Stops(room', spent', total) then [] else Select(outs, k + 1, room', spent', total)
  }

  ghost predicate Ascending(ks: seq<nat>, lo: nat, hi: nat) {
    && (forall i | 0 <= i < |ks| :: lo <= ks[i] < hi)
    && forall i, j | 0 <= i < j < |ks| :: ks[i] < ks[j]
  }

  function Chosen(outs: seq<Output>, ks: seq<nat>): (os: seq<Output>)
    requires forall i | 0 <= i < |ks| :: ks[i] < |outs|
    ensures |os| == |ks|
  {
    seq(|ks|, i requires 0 <= i < |ks| => outs[ks[i]])
  }

  function TotalSize(os: seq<Output>): nat { if os == [] then 0 else Size(os[0]) + TotalSize(os[1..]) }

  function TotalValue(os: seq<Output>): nat { if os == [] then 0 else os[0].value + TotalValue(os[1..]) }

  lemma {:induction false} TotalValueConcat(a: seq<Output>, b: seq<Output>)
    ensures TotalValue(a + b) == TotalValue(a) + TotalValue(b)
    decreases |a|
  {
    if a == [] {
      assert a + b == b;
    } else {
      TotalValueConcat(a[1..], b);
      assert (a + b)[1..] == a[1..] + b;
    }
  }

  lemma ChosenCons(outs: seq<Output>, k: nat, ks: seq<nat>)
    requires k < |outs| && forall i | 0 <= i < |ks| :: ks[i] < |outs|
    ensures Chosen(outs, [k] + ks) == [outs[k]] + Chosen(outs, ks)
    ensures TotalSize(Chosen(outs, [k] + ks)) == Size(outs[k]) + TotalSize(Chosen(outs, ks))
    ensures TotalValue(Chosen(outs, [k] + ks)) == outs[k].value + TotalValue(Chosen(outs, ks))
  {
    assert Chosen(outs, [k] + ks) == [outs[k]] + Chosen(outs, ks);
    assert Chosen(outs, [k] + ks)[1..] == Chosen(outs, ks);
  }

  /** What is chosen after output k was taken. */
  function After(outs: seq<Output>, k: nat, room: int, spent: nat, total: nat): seq<nat>
    requires k < |outs|
  {
    if Stops(room, spent, total) then [] else Select(outs, k + 1, room, spent, total)
  }

  lemma {:induction false} SelectAscending(outs: seq<Output>, k: nat, room: int, spent: nat, total: nat)
    requires k <= |outs|
    ensures Ascending(Select(outs, k, room, spent, total), k, |outs|)
    decreases |outs| - k
  {
    if k < |outs| {
      SelectAscending(outs, k + 1, room, spent, total);
      SelectAscending(outs, k + 1, room - Size(outs[k]), (spent + outs[k].value) % U64, total);
    }
  }

  lemma {:induction false} SelectRoom(outs: seq<Output>, k: nat, room: int, spent: nat, total: nat)
    requires k <= |outs| && Ascending(Select(outs, k, room, spent, total), k, |outs|)
    ensures var ks := Select(outs, k, room, spent, total); ks == [] || TotalSize(Chosen(outs, ks)) <= room
    decreases |outs| - k
  {
    if k < |outs| {
      if !Fits(outs[k], room, spent, total) {
        SelectAscending(outs, k + 1, room, spent, total);
        SelectRoom(outs, k + 1, room, spent, total);
      } else {
        var room', spent' := room - Size(outs[k]), (spent + outs[k].value) % U64;
        SelectAscending(outs, k + 1, room', spent', total);
        SelectRoom(outs, k + 1, room', spent', total);
        ChosenCons(outs, k, After(outs, k, room', spent', total));
      }
    }
  }

  lemma {:induction false} SelectMoney(outs: seq<Output>, k: nat, room: int, spent: nat, total: nat)
    requires k <= |outs| && spent <= total < U64 && Ascending(Select(outs, k, room, spent, total), k, |outs|)
    ensures (spent + TotalValue(Chosen(outs, Select(outs, k, room, spent, total)))) % U64 <= total
    decreases |outs| - k
  {
    if k < |outs| {
      SelectStep(outs, k, room, spent, total);
      if !Fits(outs[k], room, spent, total) {
        SelectAscending(outs, k + 1, room, spent, total);
        SelectMoney(outs, k + 1, room, spent, total);
      } else {
        var room', spent' := room - Size(outs[k]), (spent + outs[k].value) % U64;
        SelectAscending(outs, k + 1, room', spent', total);
        SelectMoney(outs, k + 1, room', spent', total);
        MoneyCons(outs, k, spent, total, After(outs, k, room', spent', total));
      }
    }
  }

  lemma MoneyCons(outs: seq<Output>, k: nat, spent: nat, total: nat, more: seq<nat>)
    requires k < |outs| && (forall i | 0 <= i < |more| :: more[i] < |outs|)
    requires var spent' := (spent + outs[k].value) % U64;
             spent' <= total < U64
             && (more != [] ==> (spent' + TotalValue(Chosen(outs, more))) % U64 <= total)
    ensures (spent + TotalValue(Chosen(outs, [k] + more))) % U64 <= total
  {
    ChosenCons(outs, k, more);
    WrappedSum(spent, outs[k].value, TotalValue(Chosen(outs, more)));
  }

  /** The chosen outputs keep their order, fit the room and, as 64-bit sums go, the money. */
  lemma SelectionFits(outs: seq<Output>, room: int, total: nat)
    requires total < U64
    ensures var ks := Select(outs, 0, room, 0, total);
            && Ascending(ks, 0, |outs|)
            && (ks == [] || TotalSize(Chosen(outs, ks)) <= room)
            && TotalValue(Chosen(outs, ks)) % U64 <= total
  {
    SelectAscending(outs, 0, room, 0, total);
    SelectRoom(outs, 0, room, 0, total);
    SelectMoney(outs, 0, room, 0, total);
  }

  lemma WrappedSum(a: nat, b: nat, c: nat)
    ensures ((a + b) % U64 + c) % U64 == (a + (b + c)) % U64
  {
  }

  // ---- the two passes ----

  /** How many leading choices the room in coinb1 takes. */
  function Leading(outs: seq<Output>, ks: seq<nat>, room1: int): (n: nat)
    ensures n <= |ks|
  {
    if ks == [] || ks[0] >= |outs| || Size(outs[ks[0]]) > room1 then 0
    else 1 + Leading(outs, ks[1..], room1 - Size(outs[ks[0]]))
  }

  lemma SelectStep(outs: seq<Output>, k: nat, room: int, spent: nat, total: nat)
    requires k < |outs|
    ensures Fits(outs[k], room, spent, total) ==>
      Select(outs, k, room, spent, total)
        == [k] + After(outs, k, room - Size(outs[k]), (spent + outs[k].value) % U64, total)
    ensures !Fits(outs[k], room, spent, total)
      ==> Select(outs, k, room, spent, total) == Select(outs, k + 1, room, spent, total)
  {
  }

  /** The first pass: how many outputs, and how many of them are meant for coinb1. */
  method CountPass(outs: seq<Output>, room: int, total: nat, special: bool, room1: int) returns (m: nat, c1: nat)
    ensures m == |Select(outs, 0, room, 0, total)|
    ensures c1 == if special then Leading(outs, Select(outs, 0, room, 0, total), room1) else 0
  {
    var i, i2, spent: nat, full, k: nat := room, room1, 0, false, 0;
    ghost var all := Select(outs, 0, room, 0, total);
    ghost var rest := all;
    m, c1 := 0, 0;
    while k < |outs|
      invariant k <= |outs| && rest == Select(outs, k, i, spent, total)
      invariant m + |rest| == |all|
      invariant c1 + (if full || !special then 0 else Leading(outs, rest, i2))
             == if special then Leading(outs, all, room1) else 0
    {
      SelectStep(outs, k, i, spent, total);
      if Fits(outs[k], i, spent, total) {
        if special && !full && Size(outs[k]) <= i2 {
          i2 := i2 - Size(outs[k]);
          c1 := c1 + 1;
        } else {
          full := true;
        }
        i := i - Size(outs[k]);
        m := m + 1;
        spent := (spent + outs[k].value) % U64;
        rest := rest[1..];
        if Stops(i, spent, total) { break; }
      }
      k := k + 1;
    }
  }

  // ---- the second pass ----

  ghost predicate Indices(ks: seq<nat>, n: nat) { forall i | 0 <= i < |ks| :: ks[i] < n }

  /** The text b is p followed by the outputs ks. */
  ghost predicate Wrote(outs: seq<Output>, p: Bytes, ks: seq<nat>, b: Bytes) {
    Indices(ks, |outs|) && b == p + OutputsBytes(Chosen(outs, ks))
  }

  lemma WroteOne(outs: seq<Output>, p: Bytes, ks: seq<nat>, b: Bytes, k: nat)
    requires Wrote(outs, p, ks, b) && k < |outs|
    ensures Wrote(outs, p, ks + [k], b + OutputBytes(outs[k]))
  {
    assert Chosen(outs, ks + [k]) == Chosen(outs, ks) + [outs[k]];
    OutputsConcat(Chosen(outs, ks), [outs[k]]);
    OneOutput(outs[k]);
    Assoc(p, OutputsBytes(Chosen(outs, ks)), OutputBytes(outs[k]));
  }

  lemma WroteNothing(outs: seq<Output>, p: Bytes)
    ensures Wrote(outs, p, [], p)
  {
    assert p + [] == p;
  }

  /** What was taken is ks, and the 64-bit sum of it is spent. */
  ghost predicate Took(outs: seq<Output>, ks: seq<nat>, spent: nat) {
    Indices(ks, |outs|) && spent == TotalValue(Chosen(outs, ks)) % U64
  }

  lemma TookOne(outs: seq<Output>, ks: seq<nat>, spent: nat, k: nat)
    requires Took(outs, ks, spent) && k < |outs|
    ensures Took(outs, ks + [k], (spent + outs[k].value) % U64)
  {
    assert Chosen(outs, ks + [k]) == Chosen(outs, ks) + [outs[k]];
    TotalValueConcat(Chosen(outs, ks), [outs[k]]);
    OneValue(outs[k]);
    WrapsOnce(TotalValue(Chosen(outs, ks)), outs[k].value);
  }

  lemma WrapsOnce(x: nat, y: nat)
    ensures (x % U64 + y) % U64 == (x + y) % U64
  {
  }

  /** The halves written so far: `front` in coinb1, followed by the start of the extranonce output
      if that was reached, and `back` in coinb2. */
  ghost predicate Halves(outs: seq<Output>, b1: Bytes, enHead: Bytes, b2: Bytes, front: seq<nat>, back: seq<nat>,
                         h1: Bytes, h2: Bytes, enDone: bool)
  {
    && Indices(front, |outs|)
    && h1 == b1 + OutputsBytes(Chosen(outs, front)) + (if enDone then enHead else [])
    && Wrote(outs, b2, back, h2)
  }

  lemma HalvesFront(outs: seq<Output>, b1: Bytes, enHead: Bytes, b2: Bytes, front: seq<nat>, back: seq<nat>,
                    h1: Bytes, h2: Bytes, k: nat)
    requires Halves(outs, b1, enHead, b2, front, back, h1, h2, false) && k < |outs|
    ensures Halves(outs, b1, enHead, b2, front + [k], back, h1 + OutputBytes(outs[k]), h2, false)
  {
    assert h1 == b1 + OutputsBytes(Chosen(outs, front));
    WroteOne(outs, b1, front, h1, k);
  }

  lemma HalvesEn(outs: seq<Output>, b1: Bytes, enHead: Bytes, b2: Bytes, front: seq<nat>, back: seq<nat>, h1: Bytes,
                 h2: Bytes)
    requires Halves(outs, b1, enHead, b2, front, back, h1, h2, false)
    ensures Halves(outs, b1, enHead, b2, front, back, h1 + enHead, h2, true)
  {
  }

  lemma HalvesBack(outs: seq<Output>, b1: Bytes, enHead: Bytes, b2: Bytes, front: seq<nat>, back: seq<nat>,
                   h1: Bytes, h2: Bytes, enDone: bool, k: nat)
    requires Halves(outs, b1, enHead, b2, front, back, h1, h2, enDone) && k < |outs|
    ensures Halves(outs, b1, enHead, b2, front, back + [k], h1, h2 + OutputBytes(outs[k]), enDone)
  {
    WroteOne(outs, b2, back, h2, k);
  }

  lemma JoinFront(front: seq<nat>, back: seq<nat>, k: nat)
    requires back == []
    ensures (front + [k]) + back == (front + back) + [k]
  {
  }

  lemma JoinBack(front: seq<nat>, back: seq<nat>, k: nat)
    ensures front + (back + [k]) == (front + back) + [k]
  {
  }

  lemma SeparatedFront(special: bool, c1: nat, k: nat, front: seq<nat>, back: seq<nat>, enDone: bool)
    requires Separated(special, c1, k, front, back, enDone) && special && k < c1
    ensures Separated(special, c1, k + 1, front + [k], back, enDone)
  {
  }

  lemma SeparatedBack(special: bool, c1: nat, k: nat, front: seq<nat>, back: seq<nat>, enDone: bool)
    requires Separated(special, c1, k, front, back, enDone) && !(special && k < c1)
    ensures Separated(special, c1, k + 1, front, back + [k], enDone || (special && k == c1))
  {
  }

  /** Where output k goes: before index c1 to coinb1; the extranonce output is started when index
      c1 itself is chosen. */
  method Place(outs: seq<Output>, k: nat, special: bool, c1: nat, enHead: Bytes, h1: Bytes, h2: Bytes, enDone: bool,
               ghost b1: Bytes, ghost b2: Bytes, ghost front: seq<nat>, ghost back: seq<nat>)
      returns (h1': Bytes, h2': Bytes, enDone': bool, ghost front': seq<nat>, ghost back': seq<nat>)
    requires k < |outs| && Halves(outs, b1, enHead, b2, front, back, h1, h2, enDone)
    requires Separated(special, c1, k, front, back, enDone)
    ensures Halves(outs, b1, enHead, b2, front', back', h1', h2', enDone')
    ensures Separated(special, c1, k + 1, front', back', enDone')
    ensures front' + back' == (front + back) + [k]
  {
    if special && k < c1 {
      HalvesFront(outs, b1, enHead, b2, front, back, h1, h2, k);
      SeparatedFront(special, c1, k, front, back, enDone);
      JoinFront(front, back, k);
      h1', h2', enDone', front', back' := h1 + OutputBytes(outs[k]), h2, enDone, front + [k], back;
    } else {
      h1', enDone' := StartEn(outs, special && k == c1, enHead, h1, h2, enDone, b1, b2, front, back);
      HalvesBack(outs, b1, enHead, b2, front, back, h1', h2, enDone', k);
      SeparatedBack(special, c1, k, front, back, enDone);
      JoinBack(front, back, k);
      h2', front', back' := h2 + OutputBytes(outs[k]), front, back + [k];
    }
  }

  /** The start of the extranonce output goes to coinb1 when it is due. */
  method StartEn(outs: seq<Output>, due: bool, enHead: Bytes, h1: Bytes, h2: Bytes, enDone: bool,
                 ghost b1: Bytes, ghost b2: Bytes, ghost front: seq<nat>, ghost back: seq<nat>)
      returns (h1': Bytes, enDone': bool)
    requires Halves(outs, b1, enHead, b2, front, back, h1, h2, enDone) && (due ==> !enDone)
    ensures Halves(outs, b1, enHead, b2, front, back, h1', h2, enDone') && enDone' == (enDone || due)
  {
    h1', enDone' := h1, enDone;
    if due {
      HalvesEn(outs, b1, enHead, b2, front, back, h1, h2);
      h1', enDone' := h1 + enHead, true;
    }
  }

  /** Before index k: the front holds only indices below c1, and nothing goes to the back or
      starts the extranonce output before index c1 is reached. */
  ghost predicate Separated(special: bool, c1: nat, k: nat, front: seq<nat>, back: seq<nat>, enDone: bool) {
    && Indices(front, k) && Indices(back, k)
    && (special && k <= c1 ==> back == [] && !enDone)
    && Indices(front, c1) && (!special ==> front == [] && !enDone) && (special ==> NotBelow(back, c1))
  }

  ghost predicate NotBelow(ks: seq<nat>, c1: nat) { forall i | 0 <= i < |ks| :: ks[i] >= c1 }

  /** What the second pass has in hand. */
  datatype Pass = Pass(h1: Bytes, h2: Bytes, enDone: bool, spent: nat)

  ghost predicate Passing(outs: seq<Output>, special: bool, c1: nat, k: nat, b1: Bytes, enHead: Bytes, b2: Bytes,
                          p: Pass, front: seq<nat>, back: seq<nat>, rest: seq<nat>, all: seq<nat>)
  {
    && Halves(outs, b1, enHead, b2, front, back, p.h1, p.h2, p.enDone)
    && Separated(special, c1, k, front, back, p.enDone)
    && Taking(outs, front + back, rest, p.spent, all)
  }

  /** Output k is taken by the second pass. */
  method TakeOutput(outs: seq<Output>, k: nat, special: bool, c1: nat, enHead: Bytes, p: Pass,
                    ghost b1: Bytes, ghost b2: Bytes, ghost front: seq<nat>, ghost back: seq<nat>,
                    ghost rest: seq<nat>, ghost all: seq<nat>)
      returns (p': Pass, ghost front': seq<nat>, ghost back': seq<nat>)
    requires k < |outs| && Passing(outs, special, c1, k, b1, enHead, b2, p, front, back, [k] + rest, all)
    ensures Passing(outs, special, c1, k + 1, b1, enHead, b2, p', front', back', rest, all)
    ensures p'.spent == (p.spent + outs[k].value) % U64
  {
    TakingOne(outs, front + back, k, rest, p.spent, all);
    var h1, h2, enDone;
    h1, h2, enDone, front', back' := Place(outs, k, special, c1, enHead, p.h1, p.h2, p.enDone, b1, b2, front, back);
    p' := Pass(h1, h2, enDone, (p.spent + outs[k].value) % U64);
  }

  lemma Skip(outs: seq<Output>, special: bool, c1: nat, k: nat, b1: Bytes, enHead: Bytes, b2: Bytes, p: Pass,
             front: seq<nat>, back: seq<nat>, rest: seq<nat>, all: seq<nat>)
    requires Passing(outs, special, c1, k, b1, enHead, b2, p, front, back, rest, all)
    ensures Passing(outs, special, c1, k + 1, b1, enHead, b2, p, front, back, rest, all)
  {
  }

  /** The second pass over the outputs. */
  method WritePass(outs: seq<Output>, room: int, total: nat, special: bool, m0: nat, c1: nat, b1: Bytes,
                   enHead: Bytes, b2: Bytes)
      returns (p: Pass, ghost front: seq<nat>, ghost back: seq<nat>)
    requires m0 > |Select(outs, 0, room, 0, total)|
    ensures front + back == Select(outs, 0, room, 0, total)
    ensures Halves(outs, b1, enHead, b2, front, back, p.h1, p.h2, p.enDone)
    ensures Took(outs, front + back, p.spent)
    ensures Indices(front, c1) && (!special ==> front == [] && !p.enDone) && (special ==> NotBelow(back, c1))
  {
    var j, m, k: nat := room, m0, 0;
    ghost var all := Select(outs, 0, room, 0, total);
    ghost var rest := all;
    p, front, back := Pass(b1, b2, false, 0), [], [];
    PassStart(outs, special, c1, b1, enHead, b2, all);
    while k < |outs|
      invariant k <= |outs| && m > |rest| && rest == Select(outs, k, j, p.spent, total)
      invariant Passing(outs, special, c1, k, b1, enHead, b2, p, front, back, rest, all)
      invariant k == |outs| ==> rest == []
    {
      SelectStep(outs, k, j, p.spent, total);
      if Fits(outs[k], j, p.spent, total) {
        j := j - Size(outs[k]);
        m := m - 1;
        rest := After(outs, k, j, (p.spent + outs[k].value) % U64, total);
        p, front, back := TakeOutput(outs, k, special, c1, enHead, p, b1, b2, front, back, rest, all);
        if m == 0 || Stops(j, p.spent, total) { break; }
      } else {
        Skip(outs, special, c1, k, b1, enHead, b2, p, front, back, rest, all);
      }
      k := k + 1;
    }
    PassEnd(outs, special, c1, k, b1, enHead, b2, p, front, back, rest, all);
  }

  lemma PassStart(outs: seq<Output>, special: bool, c1: nat, b1: Bytes, enHead: Bytes, b2: Bytes, all: seq<nat>)
    ensures Passing(outs, special, c1, 0, b1, enHead, b2, Pass(b1, b2, false, 0), [], [], all, all)
  {
    WroteNothing(outs, b1);
    WroteNothing(outs, b2);
    assert [] + all == all;
  }

  lemma PassEnd(outs: seq<Output>, special: bool, c1: nat, k: nat, b1: Bytes, enHead: Bytes, b2: Bytes, p: Pass,
                front: seq<nat>, back: seq<nat>, rest: seq<nat>, all: seq<nat>)
    requires (exists k' :: Passing(outs, special, c1, k', b1, enHead, b2, p, front, back, rest, all)) && rest == []
    ensures front + back == all && Halves(outs, b1, enHead, b2, front, back, p.h1, p.h2, p.enDone)
    ensures Took(outs, front + back, p.spent)
    ensures Indices(front, c1) && (!special ==> front == [] && !p.enDone) && (special ==> NotBelow(back, c1))
  {
    TakingEnd(outs, front + back, p.spent, all);
  }

  /** ks was taken, the sum of it is spent, and rest is still to come. */
  ghost predicate Taking(outs: seq<Output>, ks: seq<nat>, rest: seq<nat>, spent: nat, all: seq<nat>) {
    Took(outs, ks, spent) && ks + rest == all
  }

  lemma TakingOne(outs: seq<Output>, ks: seq<nat>, k: nat, rest: seq<nat>, spent: nat, all: seq<nat>)
    requires Taking(outs, ks, [k] + rest, spent, all) && k < |outs|
    ensures Taking(outs, ks + [k], rest, (spent + outs[k].value) % U64, all)
  {
    TookOne(outs, ks, spent, k);
    assert (ks + [k]) + rest == ks + ([k] + rest);
  }

  lemma TakingEnd(outs: seq<Output>, ks: seq<nat>, spent: nat, all: seq<nat>)
    requires Taking(outs, ks, [], spent, all)
    ensures ks == all && Took(outs, ks, spent)
  {
    assert ks + [] == ks;
  }

  // ---- the transaction ----

  const VERSION: Bytes := [1, 0, 0, 0]
  const SEQUENCE: Bytes := [0xFF, 0xFF, 0xFF, 0xFF]
  const PREVOUT: Bytes := Zeros(32) + SEQUENCE
  const LOCK_TIME: Bytes := [0, 0, 0, 0]

  function EnHead(job: Job): Bytes { LE(0, 8) + [0x10, 0x6A, 0x0E] + job.enprefix }
  function EnOutput(job: Job, en: Bytes): Output { Output(0, [0x6A, 0x0E] + job.enprefix + en) }

  /** What the miners did not get goes to the pool; if nothing is left, a dead output keeps the
      announced count. */
  function Leftover(job: Job, spent: nat): Output {
    if job.value > spent then Output(job.value - spent, job.pool) else Output(0, [0x6A, 0x01, 0x00])
  }

  function CommitmentOutput(job: Job): Output { Output(0, job.commitment) }

  /** coinb1 up to the point where the output count or the extranonce follows. */
  function Head(job: Job, enInInput: bool): Bytes {
    VERSION + [1] + PREVOUT + Varint(|job.input| + if enInInput then 15 else 0) + job.input
      + if enInInput then [0x0E] + job.enprefix else SEQUENCE
  }

  function InputScript(job: Job, enInInput: bool, en: Bytes): Bytes {
    if enInInput then job.input + [0x0E] + job.enprefix + en else job.input
  }

  /** The chosen outputs in order, the extranonce output between the halves unless the extranonce
      is in the input, the pool's leftover and the witness commitment. */
  function Outputs(job: Job, enInInput: bool, front: seq<nat>, back: seq<nat>, spent: nat, en: Bytes): seq<Output>
    requires (forall i | 0 <= i < |front| :: front[i] < |job.outs|)
      && forall i | 0 <= i < |back| :: back[i] < |job.outs|
  {
    Chosen(job.outs, front) + (if enInInput then [] else [EnOutput(job, en)]) + Chosen(job.outs, back)
      + [Leftover(job, spent), CommitmentOutput(job)]
  }

  function Expected(job: Job, enInInput: bool, front: seq<nat>, back: seq<nat>, spent: nat, en: Bytes): Generation
    requires (forall i | 0 <= i < |front| :: front[i] < |job.outs|)
      && forall i | 0 <= i < |back| :: back[i] < |job.outs|
  {
    Generation(VERSION, PREVOUT, InputScript(job, enInInput, en), SEQUENCE,
               Outputs(job, enInInput, front, back, spent, en), LOCK_TIME)
  }

  function Tail2(job: Job, spent: nat): Bytes {
    OutputBytes(Leftover(job, spent)) + (LE(0, 8) + [|job.commitment|] + job.commitment) + LOCK_TIME
  }

  /** The room for outputs in coinb1 of the special layout. */
  function FrontRoom(job: Job, enInInput: bool): nat {
    if |Head(job, enInInput)| > 150 then 0 else 150 - |Head(job, enInInput)|
  }

  lemma EnOutputBytes(job: Job, en: Bytes)
    requires |en| == EN_LEN && |job.enprefix| == 2
    ensures OutputBytes(EnOutput(job, en)) == EnHead(job) + en
  {
    assert Varint(16) == [0x10];
  }

  lemma TailOutputs(job: Job, spent: nat)
    requires |job.commitment| < 0xFD
    ensures OutputsBytes([Leftover(job, spent), CommitmentOutput(job)]) + LOCK_TIME == Tail2(job, spent)
  {
    OutputsConcat([Leftover(job, spent)], [CommitmentOutput(job)]);
    OneOutput(Leftover(job, spent));
    OneOutput(CommitmentOutput(job));
    Assoc(LE(0, 8), [|job.commitment|], job.commitment);
  }

  /** The bytes of the four groups of outputs. */
  lemma OutputGroups(f: seq<Output>, e: seq<Output>, b: seq<Output>, t: seq<Output>)
    ensures OutputsBytes(f + e + b + t) == OutputsBytes(f) + OutputsBytes(e) + OutputsBytes(b) + OutputsBytes(t)
  {
    OutputsConcat(f + e + b, t);
    OutputsConcat(f + e, b);
    OutputsConcat(f, e);
  }

  /** Regrouping around the extranonce in an output. */
  lemma JoinAtOutput(head: Bytes, count: Bytes, f: Bytes, enHead: Bytes, en: Bytes, b: Bytes, t: Bytes, lock: Bytes)
    ensures (head + count + f + enHead) + en + (b + (t + lock)) == head + (count + (f + (enHead + en) + b + t) + lock)
  {
  }

  /** Regrouping around the extranonce in the input. */
  lemma JoinAtInput(start: Bytes, len: Bytes, input: Bytes, push: Bytes, en: Bytes, sequence: Bytes, count: Bytes,
                    b: Bytes, t: Bytes, lock: Bytes)
    ensures (start + len + input + push) + en + (sequence + count + b + (t + lock))
         == start + (len + (input + push + en)) + sequence + (count + (b + t) + lock)
  {
  }

  lemma BytesAtOutput(job: Job, front: seq<nat>, back: seq<nat>, spent: nat, en: Bytes)
    requires InWidth(job) && |en| == EN_LEN && Indices(front, |job.outs|) && Indices(back, |job.outs|)
    ensures (Head(job, false) + Varint(|front| + |back| + 3) + OutputsBytes(Chosen(job.outs, front)) + EnHead(job)) + en
            + (OutputsBytes(Chosen(job.outs, back)) + Tail2(job, spent))
         == GenerationBytes(Expected(job, false, front, back, spent, en))
  {
    var f, b := OutputsBytes(Chosen(job.outs, front)), OutputsBytes(Chosen(job.outs, back));
    var t := OutputsBytes([Leftover(job, spent), CommitmentOutput(job)]);
    TailOutputs(job, spent);
    JoinAtOutput(Head(job, false), Varint(|front| + |back| + 3), f, EnHead(job), en, b, t, LOCK_TIME);
    ExpectedAtOutput(job, front, back, spent, en, f, b, t);
  }

  lemma ExpectedAtOutput(job: Job, front: seq<nat>, back: seq<nat>, spent: nat, en: Bytes, f: Bytes, b: Bytes, t: Bytes)
    requires InWidth(job) && |en| == EN_LEN && Indices(front, |job.outs|) && Indices(back, |job.outs|)
    requires f == OutputsBytes(Chosen(job.outs, front)) && b == OutputsBytes(Chosen(job.outs, back))
    requires t == OutputsBytes([Leftover(job, spent), CommitmentOutput(job)])
    ensures GenerationBytes(Expected(job, false, front, back, spent, en))
      == Head(job, false) + (Varint(|front| + |back| + 3) + (f + (EnHead(job) + en) + b + t) + LOCK_TIME)
  {
    GroupsAtOutput(job, front, back, spent, en);
    PlainHead(job);
    BytesByParts(Expected(job, false, front, back, spent, en), Head(job, false), Varint(|front| + |back| + 3),
                 f + (EnHead(job) + en) + b + t);
  }

  lemma BytesByParts(t: Generation, head: Bytes, count: Bytes, outs: Bytes)
    requires t.version + [1] + t.prevout + ScriptBytes(t.script) + t.sequence == head
    requires Varint(|t.outputs|) == count && OutputsBytes(t.outputs) == outs
    ensures GenerationBytes(t) == head + (count + outs + t.lockTime)
  {
    GenerationParts(t);
  }

  lemma GroupsAtOutput(job: Job, front: seq<nat>, back: seq<nat>, spent: nat, en: Bytes)
    requires InWidth(job) && |en| == EN_LEN && Indices(front, |job.outs|) && Indices(back, |job.outs|)
    ensures var outputs := Outputs(job, false, front, back, spent, en);
            && |outputs| == |front| + |back| + 3
            && OutputsBytes(outputs) == OutputsBytes(Chosen(job.outs, front)) + (EnHead(job) + en)
                 + OutputsBytes(Chosen(job.outs, back)) + OutputsBytes([Leftover(job, spent), CommitmentOutput(job)])
  {
    OutputGroups(Chosen(job.outs, front), [EnOutput(job, en)], Chosen(job.outs, back),
                 [Leftover(job, spent), CommitmentOutput(job)]);
    OneOutput(EnOutput(job, en));
    EnOutputBytes(job, en);
  }

  lemma GroupsAtInput(job: Job, back: seq<nat>, spent: nat, en: Bytes)
    requires Indices(back, |job.outs|)
    ensures var outputs := Outputs(job, true, [], back, spent, en);
            && |outputs| == |back| + 2
            && OutputsBytes(outputs)
              == OutputsBytes(Chosen(job.outs, back)) + OutputsBytes([Leftover(job, spent), CommitmentOutput(job)])
  {
    var b, t := Chosen(job.outs, back), [Leftover(job, spent), CommitmentOutput(job)];
    OutputsConcat(b, t);
    assert Outputs(job, true, [], back, spent, en) == b + t;
  }

  /** A transaction's bytes, by the parts the halves are made of. */
  lemma GenerationParts(t: Generation)
    ensures GenerationBytes(t) == (t.version + [1] + t.prevout + ScriptBytes(t.script) + t.sequence)
                                  + (Varint(|t.outputs|) + OutputsBytes(t.outputs) + t.lockTime)
  {
  }

  lemma PlainHead(job: Job)
    ensures Head(job, false) == VERSION + [1] + PREVOUT + ScriptBytes(job.input) + SEQUENCE
  {
    Assoc(VERSION + [1] + PREVOUT, Varint(|job.input|), job.input);
  }

  lemma BytesAtInput(job: Job, back: seq<nat>, spent: nat, en: Bytes)
    requires InWidth(job) && |en| == EN_LEN && Indices(back, |job.outs|)
    ensures Head(job, true) + en
      + (SEQUENCE + Varint(|back| + 2) + OutputsBytes(Chosen(job.outs, back)) + Tail2(job, spent))
         == GenerationBytes(Expected(job, true, [], back, spent, en))
  {
    var t := OutputsBytes([Leftover(job, spent), CommitmentOutput(job)]);
    GroupsAtInput(job, back, spent, en);
    TailOutputs(job, spent);
    JoinAtInput(VERSION + [1] + PREVOUT, Varint(|job.input| + 15), job.input, [0x0E] + job.enprefix, en, SEQUENCE,
                Varint(|back| + 2), OutputsBytes(Chosen(job.outs, back)), t, LOCK_TIME);
    EnInput(job, en);
    GenerationParts(Expected(job, true, [], back, spent, en));
  }

  lemma EnInput(job: Job, en: Bytes)
    requires |en| == EN_LEN && |job.enprefix| == 2
    ensures ScriptBytes(InputScript(job, true, en))
      == Varint(|job.input| + 15) + (job.input + ([0x0E] + job.enprefix) + en)
  {
    assert InputScript(job, true, en) == job.input + ([0x0E] + job.enprefix) + en;
  }

  /** The halves say the same transaction for every extranonce. */
  ghost predicate Spells(coinb1: Bytes, coinb2: Bytes, job: Job, enInInput: bool, front: seq<nat>, back: seq<nat>,
                         spent: nat) {
    && Indices(front, |job.outs|) && Indices(back, |job.outs|)
    && forall en: Bytes | |en| == EN_LEN ::
         coinb1 + en + coinb2 == GenerationBytes(Expected(job, enInInput, front, back, spent, en))
  }

  lemma HalvesSpell(job: Job, enInInput: bool, front: seq<nat>, back: seq<nat>, spent: nat, coinb1: Bytes,
                    coinb2: Bytes)
    requires InWidth(job) && Indices(front, |job.outs|) && Indices(back, |job.outs|) && (enInInput ==> front == [])
    requires !enInInput ==>
      coinb1 ==
      Head(job, false) + Varint(|front| + |back| + 3) + OutputsBytes(Chosen(job.outs, front)) + EnHead(job)
    requires !enInInput ==> coinb2 == OutputsBytes(Chosen(job.outs, back)) + Tail2(job, spent)
    requires enInInput ==> coinb1 == Head(job, true)
    requires enInInput
      ==> coinb2 == SEQUENCE + Varint(|back| + 2) + OutputsBytes(Chosen(job.outs, back)) + Tail2(job, spent)
    ensures Spells(coinb1, coinb2, job, enInInput, front, back, spent)
  {
    forall en: Bytes | |en| == EN_LEN
      ensures coinb1 + en + coinb2 == GenerationBytes(Expected(job, enInInput, front, back, spent, en))
    {
      if enInInput {
        BytesAtInput(job, back, spent, en);
      } else {
        BytesAtOutput(job, front, back, spent, en);
      }
    }
  }

  /** What the second pass started from and left, for each of the three layouts. */
  lemma FinishedHalves(job: Job, enInInput: bool, special: bool, m: nat, front: seq<nat>, back: seq<nat>, p: Pass,
                       b1: Bytes, b2: Bytes, coinb1: Bytes)
    requires m == |front| + |back| && (special ==> !enInInput) && (!special ==> front == [] && !p.enDone)
    requires b1 == (if enInInput then Head(job, true)
                    else Head(job, false) + Varint(m + 3) + if special then [] else EnHead(job))
    requires b2 == if enInInput then SEQUENCE + Varint(m + 2) else []
    requires Halves(job.outs, b1, EnHead(job), b2, front, back, p.h1, p.h2, p.enDone)
    requires coinb1 == p.h1 + if special && !p.enDone then EnHead(job) else []
    ensures !enInInput ==>
      coinb1 ==
      Head(job, false) + Varint(|front| + |back| + 3) + OutputsBytes(Chosen(job.outs, front)) + EnHead(job)
    ensures enInInput ==> coinb1 == Head(job, true)
    ensures p.h2 == (if enInInput then SEQUENCE + Varint(|back| + 2) + OutputsBytes(Chosen(job.outs, back))
      else OutputsBytes(Chosen(job.outs, back)))
  {
    FrontText(b1, OutputsBytes(Chosen(job.outs, front)), EnHead(job), p.h1, p.enDone,
              Head(job, false) + Varint(m + 3), enInInput, special, coinb1);
    NothingBefore(OutputsBytes(Chosen(job.outs, back)));
  }

  lemma FrontText(b1: Bytes, f: Bytes, e: Bytes, h1: Bytes, done: bool, plain: Bytes, enInInput: bool, special: bool,
                  coinb1: Bytes)
    requires h1 == b1 + f + (if done then e else []) && coinb1 == h1 + if special && !done then e else []
    requires (special ==> !enInInput) && (!special ==> f == [] && !done)
    requires !enInInput ==> b1 == plain + if special then [] else e
    ensures coinb1 == if enInInput then b1 else plain + f + e
  {
    if enInInput {
      NothingBetween(b1, f);
    } else if special {
      EnOnce(plain, f, e, done);
    } else {
      EnFirst(plain, f, e);
    }
  }

  lemma NothingBefore(b: Bytes)
    ensures [] + b == b
  {
  }

  lemma NothingBetween(h: Bytes, f: Bytes)
    requires f == []
    ensures h + f + [] + [] == h
  {
  }

  lemma EnOnce(h: Bytes, f: Bytes, e: Bytes, done: bool)
    ensures ((h + []) + f + (if done then e else [])) + (if done then [] else e) == h + f + e
  {
  }

  lemma EnFirst(h: Bytes, f: Bytes, e: Bytes)
    requires f == []
    ensures ((h + e) + f + []) + [] == h + f + e
  {
  }

  /** Both passes and the fixed parts around them. */
  method BuildHalves(job: Job, room: int, enInInput: bool, special: bool)
      returns (coinb1: Bytes, coinb2: Bytes, ghost front: seq<nat>, ghost back: seq<nat>, ghost spent: nat)
    requires InWidth(job) && (special ==> !enInInput)
    ensures front + back == Select(job.outs, 0, room, 0, job.value) && Took(job.outs, front + back, spent)
    ensures Spells(coinb1, coinb2, job, enInInput, front, back, spent) && (!special ==> front == [])
    ensures special ==> var c1 := Leading(job.outs, front + back, FrontRoom(job, enInInput));
              Indices(front, c1) && NotBelow(back, c1)
  {
    var m, c1 := CountPass(job.outs, room, job.value, special, FrontRoom(job, enInInput));
    var p, b1, b2;
    p, front, back, b1, b2 := WriteHalves(job, room, enInInput, special, m, c1);
    spent := p.spent;
    coinb1 := p.h1 + if special && !p.enDone then EnHead(job) else [];
    coinb2 := p.h2 + Tail2(job, p.spent);
    FinishedHalves(job, enInInput, special, m, front, back, p, b1, b2, coinb1);
    HalvesSpell(job, enInInput, front, back, spent, coinb1, coinb2);
  }

  /** The output count and, in the plain layout, the extranonce output; then the second pass. */
  method WriteHalves(job: Job, room: int, enInInput: bool, special: bool, m: nat, c1: nat)
      returns (p: Pass, ghost front: seq<nat>, ghost back: seq<nat>, b1: Bytes, b2: Bytes)
    requires m == |Select(job.outs, 0, room, 0, job.value)| && (special ==> !enInInput)
    ensures front + back == Select(job.outs, 0, room, 0, job.value) && m == |front| + |back|
    ensures b1 == (if enInInput then Head(job, true)
                   else Head(job, false) + Varint(m + 3) + if special then [] else EnHead(job))
    ensures b2 == if enInInput then SEQUENCE + Varint(m + 2) else []
    ensures Halves(job.outs, b1, EnHead(job), b2, front, back, p.h1, p.h2, p.enDone)
    ensures Took(job.outs, front + back, p.spent)
    ensures Indices(front, c1) && (!special ==> front == [] && !p.enDone) && (special ==> NotBelow(back, c1))
  {
    var m0;
    b1, b2, m0 := Head(job, enInInput), [], m + 2;
    if enInInput {
      b2 := SEQUENCE + Varint(m + 2);
    } else {
      m0 := m + 3;
      b1 := b1 + Varint(m + 3) + if special then [] else EnHead(job);
    }
    p, front, back := WritePass(job.outs, room, job.value, special, m0, c1, b1, EnHead(job), b2);
  }

  // ---- what any reader of the transaction finds ----

  lemma OutputsWritable(job: Job, enInInput: bool, front: seq<nat>, back: seq<nat>, spent: nat, en: Bytes)
    requires InWidth(job) && |en| == EN_LEN && Indices(front, |job.outs|) && Indices(back, |job.outs|)
    ensures forall o | o in Outputs(job, enInInput, front, back, spent, en) :: Writable(o)
  {
    forall o | o in Outputs(job, enInInput, front, back, spent, en) ensures Writable(o) {
      assert o in Chosen(job.outs, front) || o in Chosen(job.outs, back) || o == EnOutput(job, en)
          || o == Leftover(job, spent) || o == CommitmentOutput(job);
    }
  }

  lemma ExpectedWellFormed(job: Job, enInInput: bool, front: seq<nat>, back: seq<nat>, spent: nat, en: Bytes)
    requires InWidth(job) && |en| == EN_LEN && |front| + |back| <= MAX_OUTPUTS
    requires Indices(front, |job.outs|) && Indices(back, |job.outs|)
    ensures WellFormed(Expected(job, enInInput, front, back, spent, en))
  {
    var t := Expected(job, enInInput, front, back, spent, en);
    OutputsWritable(job, enInInput, front, back, spent, en);
    assert forall i | 0 <= i < |t.outputs| :: t.outputs[i] in t.outputs;
    assert |PREVOUT| == 36;
  }

  lemma {:induction false} AscendingShort(ks: seq<nat>, lo: nat, hi: nat)
    requires Ascending(ks, lo, hi) && lo <= hi
    ensures |ks| <= hi - lo
    decreases |ks|
  {
    if ks != [] { AscendingShort(ks[1..], ks[0] + 1, hi); }
  }

  lemma SpelledIsRead(job: Job, enInInput: bool, front: seq<nat>, back: seq<nat>, spent: nat, coinb1: Bytes,
                      coinb2: Bytes)
    requires InWidth(job) && |front| + |back| <= MAX_OUTPUTS
    requires Spells(coinb1, coinb2, job, enInInput, front, back, spent)
    ensures forall en: Bytes | |en| == EN_LEN ::
      ParseGeneration(coinb1 + en + coinb2) == Some(Expected(job, enInInput, front, back, spent, en))
  {
    forall en: Bytes | |en| == EN_LEN
      ensures ParseGeneration(coinb1 + en + coinb2) == Some(Expected(job, enInInput, front, back, spent, en))
    {
      ExpectedWellFormed(job, enInInput, front, back, spent, en);
      GenerationRead(Expected(job, enInInput, front, back, spent, en));
    }
  }

  lemma {:induction false} LeadingFits(outs: seq<Output>, ks: seq<nat>, room1: nat, n: nat)
    requires Indices(ks, |outs|) && n <= Leading(outs, ks, room1)
    ensures TotalSize(Chosen(outs, ks[..n])) <= room1
    decreases |ks|
  {
    if n > 0 {
      LeadingFits(outs, ks[1..], room1 - Size(outs[ks[0]]), n - 1);
      assert ks[..n] == [ks[0]] + ks[1..][..n - 1];
      ChosenCons(outs, ks[0], ks[1..][..n - 1]);
    }
  }

  lemma {:induction false} SizeIsLength(os: seq<Output>)
    requires forall i | 0 <= i < |os| :: |os[i].script| < 0xFD
    ensures |OutputsBytes(os)| == TotalSize(os)
    decreases |os|
  {
    if os != [] { SizeIsLength(os[1..]); }
  }

  /** The indices below the count are at most that many, so the front stays within its room even
      when choices were skipped and the two passes count differently. */
  lemma FrontFits(outs: seq<Output>, front: seq<nat>, back: seq<nat>, room1: nat)
    requires Ascending(front + back, 0, |outs|) && Indices(front, Leading(outs, front + back, room1))
    requires forall i | 0 <= i < |outs| :: |outs[i].script| < 0xFD
    ensures Indices(front, |outs|) && |OutputsBytes(Chosen(outs, front))| <= room1
  {
    var ks, c1 := front + back, Leading(outs, front + back, room1);
    assert forall i | 0 <= i < |front| :: front[i] == ks[i];
    assert Ascending(front, 0, c1);
    AscendingShort(front, 0, c1);
    LeadingFits(outs, ks, room1, |front|);
    assert ks[..|front|] == front;
    SizeIsLength(Chosen(outs, front));
  }

  /** The last two outputs: what the miners were not given goes to the pool's script, and if they were given
      everything a worthless output that cannot be spent takes its place; then the witness commitment. */
  ghost predicate EndsWith(outs: seq<Output>, value: nat, given: nat, pool: Bytes, commitment: Bytes) {
    && |outs| >= 2
    && (if given < value then outs[|outs| - 2] == Output(value - given, pool)
        else outs[|outs| - 2].value == 0 && |outs[|outs| - 2].script| > 0 && outs[|outs| - 2].script[0] == 0x6A)
    && outs[|outs| - 1] == Output(0, commitment)
  }

  /** The outputs before them: the chosen ones in order, and the extranonce after the first `split`, unless the
      input has it. */
  ghost predicate StartsWith(outs: seq<Output>, job: Job, enInInput: bool, ks: seq<nat>, split: nat, en: Bytes) {
    var skip := if enInInput then 0 else 1;
    && Indices(ks, |job.outs|) && split <= |ks| && |outs| == |ks| + skip + 2
    && (forall k | 0 <= k < split :: outs[k] == job.outs[ks[k]])
    && (!enInInput ==> outs[split] == Output(0, [0x6A, 14] + job.enprefix + en))
    && (forall k | split <= k < |ks| :: outs[k + skip] == job.outs[ks[k]])
  }

  /** A version-1 transaction with no previous output and the input script followed by the extranonce if
      there is room for it, that pays `given` to the chosen outputs and the rest to the pool. */
  ghost predicate LaysOut(t: Generation, job: Job, enInInput: bool, ks: seq<nat>, split: nat, given: nat, en: Bytes) {
    && t.version == [1, 0, 0, 0] && t.lockTime == [0, 0, 0, 0] && t.sequence == [255, 255, 255, 255]
    && |t.prevout| == 36 && (forall i | 0 <= i < 36 :: t.prevout[i] == if i < 32 then 0 else 255)
    && t.script == (if enInInput then job.input + [14] + job.enprefix + en else job.input)
    && StartsWith(t.outputs, job, enInInput, ks, split, en)
    && EndsWith(t.outputs, job.value, given, job.pool, job.commitment)
  }

  lemma ExpectedLaysOut(job: Job, enInInput: bool, front: seq<nat>, back: seq<nat>, given: nat, en: Bytes)
    requires Indices(front, |job.outs|) && Indices(back, |job.outs|)
    ensures LaysOut(Expected(job, enInInput, front, back, given, en), job, enInInput, front + back, |front|, given, en)
  {
    var t, ks := Expected(job, enInInput, front, back, given, en), front + back;
    ExpectedStart(job, enInInput, front, back, given, en);
    assert Leftover(job, given).value == 0 ==> Leftover(job, given).script[0] == 0x6A || given < job.value;
    assert t.outputs[|t.outputs| - 2] == Leftover(job, given);
  }

  lemma ExpectedStart(job: Job, enInInput: bool, front: seq<nat>, back: seq<nat>, given: nat, en: Bytes)
    requires Indices(front, |job.outs|) && Indices(back, |job.outs|)
    ensures StartsWith(Outputs(job, enInInput, front, back, given, en), job, enInInput, front + back, |front|, en)
  {
    var outs, ks := Outputs(job, enInInput, front, back, given, en), front + back;
    var skip := if enInInput then 0 else 1;
    forall k | |front| <= k < |ks| ensures outs[k + skip] == job.outs[ks[k]] {
      assert outs[k + skip] == Chosen(job.outs, back)[k - |front|];
    }
  }

  /** With any extranonce between them, the halves are one transaction: the chosen outputs ks in
      order, the first `split` of them before the extranonce, the leftover (or dead) output and the
      witness commitment; and the outputs in coinb1 keep to their room. */
  ghost predicate ReadsAs(coinb1: Bytes, coinb2: Bytes, job: Job, enInInput: bool, ks: seq<nat>, split: nat) {
    && split <= |ks| && Indices(ks, |job.outs|)
    && (forall en: Bytes | |en| == EN_LEN ::
          ParseGeneration(coinb1 + en + coinb2) == Some(Expected(job, enInInput, ks[..split], ks[split..],
                                                               TotalValue(Chosen(job.outs, ks)) % U64, en))
          && LaysOut(ParseGeneration(coinb1 + en + coinb2).value, job, enInInput, ks, split,
                     TotalValue(Chosen(job.outs, ks)) % U64, en))
    && |OutputsBytes(Chosen(job.outs, ks[..split]))| <= FrontRoom(job, enInInput)
  }

  /** In the special layout the choices with an index below their number that coinb1 has room for are in coinb1. */
  ghost predicate SplitsAt(job: Job, ks: seq<nat>, split: nat) {
    var c1 := Leading(job.outs, ks, FrontRoom(job, false));
    split <= |ks| && (forall i | 0 <= i < split :: ks[i] < c1) && forall i | split <= i < |ks| :: ks[i] >= c1
  }

  /** generate_coinbase_txns_for_stratum_job_subtypebysize on the heads its caller prepared, for
      every job: both passes agree on one selection, and it is what any reader finds. */
  method Generate(job: Job, room: int, enInInput: bool, special: bool) returns (coinb1: Bytes, coinb2: Bytes)
    requires InWidth(job) && (special ==> !enInInput)
    ensures exists split: nat | special || split == 0 ::
      && ReadsAs(coinb1, coinb2, job, enInInput, Select(job.outs, 0, room, 0, job.value), split)
      && (special ==> SplitsAt(job, Select(job.outs, 0, room, 0, job.value), split))
  {
    ghost var front, back, spent;
    coinb1, coinb2, front, back, spent := BuildHalves(job, room, enInInput, special);
    ghost var ks := Select(job.outs, 0, room, 0, job.value);
    SelectAscending(job.outs, 0, room, 0, job.value);
    AscendingShort(ks, 0, |job.outs|);
    if special { FrontFits(job.outs, front, back, FrontRoom(job, enInInput)); }
    SpelledIsRead(job, enInInput, front, back, spent, coinb1, coinb2);
    Rejoined(ks, front, back);
    forall en: Bytes { ExpectedLaysOut(job, enInInput, front, back, spent, en); }
    assert ReadsAs(coinb1, coinb2, job, enInInput, ks, |front|);
    if special { SplitsThere(job, ks, front, back); }
  }

  lemma SplitsThere(job: Job, ks: seq<nat>, front: seq<nat>, back: seq<nat>)
    requires front + back == ks
    requires Indices(front, Leading(job.outs, ks, FrontRoom(job, false)))
    requires NotBelow(back, Leading(job.outs, ks, FrontRoom(job, false)))
    ensures SplitsAt(job, ks, |front|)
  {
    assert forall i | 0 <= i < |front| :: ks[i] == front[i];
    assert forall i | |front| <= i < |ks| :: ks[i] == back[i - |front|];
  }

  lemma Rejoined(ks: seq<nat>, front: seq<nat>, back: seq<nat>)
    requires front + back == ks
    ensures ks[..|front|] == front && ks[|front|..] == back
  {
  }

  lemma OneValue(o: Output)
    ensures TotalValue([o]) == o.value
  {
    assert [o][1..] == [];
  }

  lemma OutputsValue(job: Job, enInInput: bool, front: seq<nat>, back: seq<nat>, spent: nat, en: Bytes)
    requires Indices(front, |job.outs|) && Indices(back, |job.outs|)
    ensures TotalValue(Outputs(job, enInInput, front, back, spent, en))
         == TotalValue(Chosen(job.outs, front) + Chosen(job.outs, back)) + Leftover(job, spent).value
  {
    var f, b := Chosen(job.outs, front), Chosen(job.outs, back);
    var e, t := if enInInput then [] else [EnOutput(job, en)], [Leftover(job, spent), CommitmentOutput(job)];
    TotalValueConcat(f, b);
    TotalValueConcat(f + e + b, t);
    TotalValueConcat(f + e, b);
    TotalValueConcat(f, e);
    OneValue(EnOutput(job, en));
    OneValue(CommitmentOutput(job));
    OneValue(Leftover(job, spent));
    TotalValueConcat([Leftover(job, spent)], [CommitmentOutput(job)]);
  }

  lemma LeftoverCompletes(job: Job, sum: nat)
    requires sum % U64 <= job.value
    ensures sum + Leftover(job, sum % U64).value == job.value + U64 * (sum / U64)
  {
  }

  lemma ChosenSplit(outs: seq<Output>, front: seq<nat>, back: seq<nat>)
    requires Indices(front, |outs|) && Indices(back, |outs|)
    ensures Chosen(outs, front + back) == Chosen(outs, front) + Chosen(outs, back)
  {
  }

  /** The outputs of the transaction pay the coinbase value, plus 2^64 for every time the 64-bit
      sum of the miners' outputs wrapped. */
  lemma ValuesPaid(job: Job, enInInput: bool, front: seq<nat>, back: seq<nat>, room: int, en: Bytes)
    requires InWidth(job) && Indices(front, |job.outs|) && Indices(back, |job.outs|)
    requires front + back == Select(job.outs, 0, room, 0, job.value)
    ensures var sum := TotalValue(Chosen(job.outs, front) + Chosen(job.outs, back));
            TotalValue(Outputs(job, enInInput, front, back, sum % U64, en)) == job.value + U64 * (sum / U64)
  {
    var sum := TotalValue(Chosen(job.outs, front) + Chosen(job.outs, back));
    ChosenSplit(job.outs, front, back);
    SelectionFits(job.outs, room, job.value);
    OutputsValue(job, enInInput, front, back, sum % U64, en);
    LeftoverCompletes(job, sum);
  }

  /** No wrap, and so exact payment, when no single output could carry the sum past 64 bits. */
  lemma {:induction false} NoWrap(outs: seq<Output>, k: nat, room: int, spent: nat, total: nat)
    requires k <= |outs| && spent <= total < U64 && forall i | 0 <= i < |outs| :: outs[i].value + total < U64
    requires Ascending(Select(outs, k, room, spent, total), k, |outs|)
    ensures spent + TotalValue(Chosen(outs, Select(outs, k, room, spent, total))) <= total
    decreases |outs| - k
  {
    if k < |outs| {
      SelectAscending(outs, k + 1, room, spent, total);
      if !Fits(outs[k], room, spent, total) {
        NoWrap(outs, k + 1, room, spent, total);
      } else {
        var room', spent' := room - Size(outs[k]), spent + outs[k].value;
        SelectAscending(outs, k + 1, room', spent', total);
        NoWrap(outs, k + 1, room', spent', total);
        ChosenCons(outs, k, After(outs, k, room', spent', total));
      }
    }
  }

  /** The transaction pays exactly the coinbase value if and only if the miners' outputs together
      stay below 2^64. */
  lemma PaysExactly(job: Job, enInInput: bool, front: seq<nat>, back: seq<nat>, room: int, en: Bytes)
    requires InWidth(job) && Indices(front, |job.outs|) && Indices(back, |job.outs|)
    requires front + back == Select(job.outs, 0, room, 0, job.value)
    ensures var sum := TotalValue(Chosen(job.outs, front) + Chosen(job.outs, back));
            && (TotalValue(Outputs(job, enInInput, front, back, sum % U64, en)) == job.value <==> sum < U64)
            && ((forall i | 0 <= i < |job.outs| :: job.outs[i].value + job.value < U64) ==> sum <= job.value)
  {
    ValuesPaid(job, enInInput, front, back, room, en);
    ChosenSplit(job.outs, front, back);
    SelectAscending(job.outs, 0, room, 0, job.value);
    if forall i | 0 <= i < |job.outs| :: job.outs[i].value + job.value < U64 {
      NoWrap(job.outs, 0, room, 0, job.value);
    }
  }

  /** The wrap can happen: of a coinbase of 5, an output of 3 and one of 2^64 - 2 are both chosen. */
  lemma WrapExample(outs: seq<Output>)
    requires outs == [Output(3, []), Output(U64 - 2, [])]
    ensures Select(outs, 0, 1000, 0, 5) == [0, 1] && TotalValue(Chosen(outs, [0, 1])) == U64 + 1
  {
    assert Select(outs, 2, 982, 1, 5) == [];
    assert Select(outs, 1, 991, 3, 5) == [1];
    assert Chosen(outs, [0, 1]) == outs;
    assert TotalValue(outs[1..]) == U64 - 2 + TotalValue(outs[1..][1..]);
  }
}
