/** Merkle branches of the coinbase path (src/datum_stratum.c): the level loops over one scratch
    area, the fold that completes them with a coinbase hash, and the full Bitcoin merkle tree
    they must agree with.  The hash of a pair is an arbitrary function. */
module Merkle {
  import opened Radix

  const MAX_TXNS: nat := 16383
  const SCRATCH_ROWS: nat := 16384
  const MAX_BRANCHES: nat := 24

  // ---- the reference: the whole tree ----

  function Pair<T>(h: (T, T) -> T, xs: seq<T>, i: nat): T
    requires 2 * i < |xs|
  {
    h(xs[2 * i], if 2 * i + 1 < |xs| then xs[2 * i + 1] else xs[2 * i])
  }

  function NextLevel<T>(h: (T, T) -> T, xs: seq<T>): seq<T> {
    seq((|xs| + 1) / 2, i requires 0 <= i < (|xs| + 1) / 2 => Pair(h, xs, i))
  }

  /** The Bitcoin merkle root: pair up, duplicating the last of an odd level, until one is left. */
  function Root<T>(h: (T, T) -> T, xs: seq<T>): T
    requires |xs| > 0
    decreases |xs|
  {
    if |xs| == 1 then xs[0] else Root(h, NextLevel(h, xs))
  }

  // ---- the specification of the branches: every level without its first element ----

  function NextTail<T>(h: (T, T) -> T, ts: seq<T>): seq<T> {
    seq(|ts| / 2, i requires 0 <= i < |ts| / 2 =>
      h(ts[2 * i + 1], if 2 * i + 2 < |ts| then ts[2 * i + 2] else ts[2 * i + 1]))
  }

  function Branches<T>(h: (T, T) -> T, ts: seq<T>): seq<T>
    decreases |ts|
  {
    if ts == [] then [] else [ts[0]] + Branches(h, NextTail(h, ts))
  }

  function Fold<T>(h: (T, T) -> T, first: T, br: seq<T>): T {
    if br == [] then first else h(Fold(h, first, br[..|br| - 1]), br[|br| - 1])
  }

  lemma {:induction false} FoldFront<T>(h: (T, T) -> T, first: T, b: T, br: seq<T>)
    ensures Fold(h, first, [b] + br) == Fold(h, h(first, b), br)
    decreases |br|
  {
    if br != [] {
      FoldFront(h, first, b, br[..|br| - 1]);
      assert ([b] + br)[..|br|] == [b] + br[..|br| - 1];
    } else {
      assert [b] + br == [b];
      assert [b][..0] == [];
      assert Fold(h, first, []) == first;
    }
  }

  /** The level above a level known up to its first element. */
  lemma LevelOfTail<T>(h: (T, T) -> T, first: T, ts: seq<T>)
    requires ts != []
    ensures NextLevel(h, [first] + ts) == [h(first, ts[0])] + NextTail(h, ts)
  {
    var xs := [first] + ts;
    forall i | 0 < i < (|xs| + 1) / 2
      ensures NextLevel(h, xs)[i] == NextTail(h, ts)[i - 1]
    {
      assert xs[2 * i] == ts[2 * i - 1];
      if 2 * i + 1 < |xs| { assert xs[2 * i + 1] == ts[2 * i]; }
    }
  }

  /** The branches complete any coinbase hash to the root of the full tree. */
  lemma {:induction false} BranchesGiveRoot<T>(h: (T, T) -> T, coinbase: T, txids: seq<T>)
    ensures Fold(h, coinbase, Branches(h, txids)) == Root(h, [coinbase] + txids)
    decreases |txids|
  {
    if txids != [] {
      LevelOfTail(h, coinbase, txids);
      FoldFront(h, coinbase, txids[0], Branches(h, NextTail(h, txids)));
      BranchesGiveRoot(h, h(coinbase, txids[0]), NextTail(h, txids));
    } else {
      assert [coinbase] + txids == [coinbase];
    }
  }

  /** The number of branches is the ceiling of log2(txn_count + 1). */
  lemma {:induction false} BranchCount<T>(h: (T, T) -> T, ts: seq<T>)
    ensures var k := |Branches(h, ts)|;
            && |ts| + 1 <= Pow(2, k)
            && (k > 0 ==> Pow(2, k - 1) < |ts| + 1)
            && (k == 0 <==> ts == [])
    decreases |ts|
  {
    if ts != [] {
      BranchCount(h, NextTail(h, ts));
      var k := |Branches(h, NextTail(h, ts))|;
      assert Pow(2, k + 1) == 2 * Pow(2, k);
      if k > 0 { assert Pow(2, k) == 2 * Pow(2, k - 1); }
    }
  }

  /** Any supported template has at most 14 branches, well inside the array of 24. */
  lemma BranchesFit<T>(h: (T, T) -> T, ts: seq<T>)
    requires |ts| <= MAX_TXNS
    ensures |Branches(h, ts)| <= 14
  {
    BranchCount(h, ts);
    assert Pow(2, 7) == 128;
    PowAdd(2, 7, 7);
    var k := |Branches(h, ts)|;
    if k > 14 { PowMonoExp(2, 14, k - 1); }
  }

  // ---- the scratch area ----

  function Half(size: nat): nat { (size + 1) / 2 }

  /** End of the highest row written from a level of the given size on, with the scratch pointer
      at `base`: a level writes rows base+1 .. base+half-1 and moves the pointer by half+1. */
  function RowsNeeded(size: nat, base: nat): (r: nat)
    decreases size
  {
    if size <= 2 then 0
    else if size <= 4 then base + Half(size)
    else RowsNeeded(Half(size), base + Half(size) + 1)
  }

  lemma {:induction false} RowsCover(size: nat, base: nat)
    requires size > 2
    ensures RowsNeeded(size, base) >= base + Half(size)
    ensures RowsNeeded(size, base) >= RowsNeeded(Half(size), base + Half(size) + 1)
    decreases size
  {
    if size > 4 { RowsCover(Half(size), base + Half(size) + 1); }
  }

  lemma {:induction false} RowsMonotone(s: nat, s': nat, b: nat, b': nat)
    requires s <= s' && b <= b'
    ensures RowsNeeded(s, b) <= RowsNeeded(s', b')
    decreases s
  {
    if s > 4 {
      RowsMonotone(Half(s), Half(s'), b + Half(s) + 1, b' + Half(s') + 1);
    } else if s' > 2 {
      RowsCover(s', b');
    }
  }

  lemma LargestFitting()
    ensures RowsNeeded(16372, 0) == 16384
  {
    assert RowsNeeded(64, 16318) == 16384;
    assert RowsNeeded(512, 15867) == RowsNeeded(64, 16318);
    assert RowsNeeded(4093, 12281) == RowsNeeded(512, 15867);
  }

  lemma SmallestExceeding()
    ensures RowsNeeded(16373, 0) == 16386
  {
    assert RowsNeeded(64, 16320) == 16386;
    assert RowsNeeded(512, 15869) == RowsNeeded(64, 16320);
    assert RowsNeeded(4094, 12283) == RowsNeeded(512, 15869);
  }

  /** The scratch array is long enough for exactly the templates of up to 16371 transactions. */
  lemma ScratchFits(txns: nat)
    ensures RowsNeeded(txns + 1, 0) <= SCRATCH_ROWS <==> txns <= 16371
  {
    if txns <= 16371 {
      RowsMonotone(txns + 1, 16372, 0, 0);
      LargestFitting();
    } else {
      RowsMonotone(16373, txns + 1, 0, 0);
      SmallestExceeding();
    }
  }

  /** So the guard alone is not enough: the largest template it lets through needs 16394 rows. */
  lemma GuardIsTooWide()
    ensures RowsNeeded(MAX_TXNS + 1, 0) == 16394 > SCRATCH_ROWS
  {
    assert RowsNeeded(64, 16328) == 16394;
    assert RowsNeeded(512, 15877) == RowsNeeded(64, 16328);
    assert RowsNeeded(4096, 12290) == RowsNeeded(512, 15877);
  }

  // ---- the loops ----

  /** Element k >= 1 of the current level: a transaction id on the first level, a row above it. */
  function Current<T>(level: nat, txids: seq<T>, rows: seq<T>, cur: nat, k: nat): T
    requires k >= 1 && (level == 0 ==> k <= |txids|) && (level > 0 ==> cur + k < |rows|)
  {
    if level == 0 then txids[k - 1] else rows[cur + k]
  }

  /** The current level, without its first element, is ts. */
  ghost predicate Holds<T(!new)>(level: nat, txids: seq<T>, rows: seq<T>, cur: nat, ts: seq<T>) {
    && (level == 0 ==> ts == txids)
    && (level > 0 && ts != [] ==> cur + |ts| < |rows| && rows[cur + 1..cur + 1 + |ts|] == ts)
  }

  lemma CurrentIs<T(!new)>(level: nat, txids: seq<T>, rows: seq<T>, cur: nat, ts: seq<T>, k: nat)
    requires Holds(level, txids, rows, cur, ts) && 1 <= k <= |ts|
    ensures Current(level, txids, rows, cur, k) == ts[k - 1]
  {
    if level > 0 { assert rows[cur + 1..cur + 1 + |ts|][k - 1] == rows[cur + k]; }
  }

  lemma HoldsKept<T(!new)>(level: nat, txids: seq<T>, was: seq<T>, now: seq<T>, cur: nat, ts: seq<T>)
    requires Holds(level, txids, was, cur, ts) && |was| == |now|
    requires level > 0 ==> forall k | 0 <= k < cur + 1 + |ts| && k < |was| :: now[k] == was[k]
    ensures Holds(level, txids, now, cur, ts)
  {
    if level > 0 && ts != [] { assert now[cur + 1..cur + 1 + |ts|] == was[cur + 1..cur + 1 + |ts|]; }
  }

  /** The pair at position i of a level of known elements. */
  method HashPair<T(!new)>(h: (T, T) -> T, level: nat, txids: seq<T>, rows: seq<T>, cur: nat, size: nat, i: nat,
                           ghost ts: seq<T>)
      returns (r: T)
    requires size == |ts| + 1 && 1 <= i < Half(size) && Holds(level, txids, rows, cur, ts)
    ensures r == NextTail(h, ts)[i - 1]
  {
    var dupe := size % 2 != 0;
    CurrentIs(level, txids, rows, cur, ts, 2 * i);
    var left := Current(level, txids, rows, cur, 2 * i);
    var right := left;
    if !(dupe && i == Half(size) - 1) {
      CurrentIs(level, txids, rows, cur, ts, 2 * i + 1);
      right := Current(level, txids, rows, cur, 2 * i + 1);
    }
    r := h(left, right);
  }

  /** One level: all pairs but the first are hashed into the rows after `next`. */
  method HashLevel<T(!new)>(h: (T, T) -> T, level: nat, txids: seq<T>, rows: array<T>, cur: nat, next: nat, size: nat,
                      ghost ts: seq<T>)
    requires size == |ts| + 1 >= 2 && Holds(level, txids, rows[..], cur, ts)
    requires size > 2 ==> next + Half(size) <= rows.Length
    requires level > 0 ==> cur + size <= next
    modifies rows
    ensures size > 2 ==> rows[next + 1..next + Half(size)] == NextTail(h, ts)
    ensures forall k | 0 <= k < rows.Length && !(next < k < next + Half(size)) :: rows[k] == old(rows[k])
  {
    ghost var was, tail := rows[..], NextTail(h, ts);
    for i := 1 to Half(size)
      invariant forall k | 0 <= k < rows.Length && !(next < k < next + i) :: rows[k] == was[k]
      invariant forall k | next < k < next + i :: rows[k] == tail[k - next - 1]
      invariant Holds(level, txids, rows[..], cur, ts)
    {
      var r := HashPair(h, level, txids, rows[..], cur, size, i, ts);
      ghost var before := rows[..];
      rows[next + i] := r;
      HoldsKept(level, txids, before, rows[..], cur, ts);
    }
  }

  // ---- where the levels lie ----

  /** A level above the leaves, without its first element: it is stored after row `base`. */
  datatype Area<T> = Area(base: nat, level: seq<T>)

  /** The layout of all levels computed from the elements ts on, with the scratch pointer at base. */
  function Areas<T>(h: (T, T) -> T, ts: seq<T>, base: nat): seq<Area<T>>
    decreases |ts|
  {
    if ts == [] then [] else [Area(base, NextTail(h, ts))] + Areas(h, NextTail(h, ts), base + Half(|ts| + 1) + 1)
  }

  ghost predicate AreaStored<T(!new)>(a: Area<T>, rows: seq<T>) {
    a.level == [] || (a.base + 1 + |a.level| <= |rows| && rows[a.base + 1..a.base + 1 + |a.level|] == a.level)
  }

  ghost predicate Stored<T(!new)>(areas: seq<Area<T>>, rows: seq<T>) {
    forall p | 0 <= p < |areas| :: AreaStored(areas[p], rows)
  }

  ghost predicate Below<T(!new)>(areas: seq<Area<T>>, base: nat) {
    forall p | 0 <= p < |areas| :: areas[p].base + |areas[p].level| + 1 < base
  }

  ghost predicate From<T(!new)>(areas: seq<Area<T>>, base: nat) {
    forall p | 0 <= p < |areas| :: areas[p].base >= base
  }

  ghost predicate Apart<T(!new)>(areas: seq<Area<T>>) {
    forall p, p' | 0 <= p < p' < |areas| :: areas[p].base + |areas[p].level| + 1 < areas[p'].base
  }

  /** No two levels share a row, nor come next to each other. */
  lemma {:induction false} AreasDisjoint<T(!new)>(h: (T, T) -> T, ts: seq<T>, base: nat)
    ensures From(Areas(h, ts, base), base) && Apart(Areas(h, ts, base))
    decreases |ts|
  {
    if ts != [] {
      AreasDisjoint(h, NextTail(h, ts), base + Half(|ts| + 1) + 1);
      ApartCons(Area(base, NextTail(h, ts)), Areas(h, NextTail(h, ts), base + Half(|ts| + 1) + 1));
    }
  }

  lemma ApartCons<T(!new)>(a: Area<T>, up: seq<Area<T>>)
    requires From(up, a.base + |a.level| + 2) && Apart(up)
    ensures From([a] + up, a.base) && Apart([a] + up)
  {
  }

  /** Conversely, levels that are all stored take up RowsNeeded rows: the bound is exact. */
  lemma {:induction false} StoredLevelsNeedRows<T(!new)>(h: (T, T) -> T, ts: seq<T>, base: nat, rows: seq<T>)
    requires Stored(Areas(h, ts, base), rows)
    ensures RowsNeeded(|ts| + 1, base) <= |rows|
    decreases |ts|
  {
    if |ts| > 1 {
      var areas, up := Areas(h, ts, base), Areas(h, NextTail(h, ts), base + Half(|ts| + 1) + 1);
      assert AreaStored(areas[0], rows);
      assert up == areas[1..];
      StoredLevelsNeedRows(h, NextTail(h, ts), base + Half(|ts| + 1) + 1, rows);
    }
  }

  // ---- what the outer loop keeps ----

  lemma AreaKept<T(!new)>(a: Area<T>, was: seq<T>, now: seq<T>, base: nat)
    requires AreaStored(a, was) && a.base + |a.level| + 1 < base && |was| == |now|
    requires forall k | 0 <= k <= base && k < |was| :: now[k] == was[k]
    ensures AreaStored(a, now)
  {
    var lo, hi := a.base + 1, a.base + 1 + |a.level|;
    if a.level != [] { assert now[lo..hi] == was[lo..hi]; }
  }

  /** Writing one level after the pointer disturbs no earlier level. */
  lemma StoredNext<T(!new)>(done: seq<Area<T>>, was: seq<T>, now: seq<T>, base: nat, t: seq<T>)
    requires Stored(done, was) && Below(done, base) && |was| == |now| && AreaStored(Area(base, t), now)
    requires forall k | 0 <= k <= base && k < |was| :: now[k] == was[k]
    ensures Stored(done + [Area(base, t)], now) && Below(done + [Area(base, t)], base + |t| + 2)
  {
    forall p | 0 <= p < |done| ensures AreaStored(done[p], now) {
      AreaKept(done[p], was, now, base);
    }
  }

  /** What is done, continued by what is to come, is everything. */
  ghost predicate Continued<T(!new)>(done: seq<T>, rest: seq<T>, all: seq<T>) { done + rest == all }

  lemma ContinuedNext<T(!new)>(done: seq<T>, x: T, rest: seq<T>, all: seq<T>)
    requires Continued(done, [x] + rest, all)
    ensures Continued(done + [x], rest, all)
  {
    assert done + [x] + rest == done + ([x] + rest);
  }

  lemma ContinuedEnd<T(!new)>(done: seq<T>, all: seq<T>)
    requires Continued(done, [], all)
    ensures done == all
  {
    assert done + [] == done;
  }

  ghost predicate BranchesSoFar<T(!new)>(h: (T, T) -> T, ts: seq<T>, br: seq<T>, count: nat, txids: seq<T>) {
    && count + |Branches(h, ts)| == |Branches(h, txids)| <= |br|
    && Continued(br[..count], Branches(h, ts), Branches(h, txids))
  }

  lemma BranchesNext<T(!new)>(h: (T, T) -> T, ts: seq<T>, br: seq<T>, br': seq<T>, count: nat, txids: seq<T>)
    requires BranchesSoFar(h, ts, br, count, txids) && ts != []
    requires |br'| == |br| && br'[..count] == br[..count] && br'[count] == ts[0]
    ensures BranchesSoFar(h, NextTail(h, ts), br', count + 1, txids)
  {
    assert br'[..count + 1] == br[..count] + [ts[0]];
    ContinuedNext(br[..count], ts[0], Branches(h, NextTail(h, ts)), Branches(h, txids));
  }

  ghost predicate AreasSoFar<T(!new)>(h: (T, T) -> T, ts: seq<T>, next: nat, done: seq<Area<T>>, txids: seq<T>) {
    Continued(done, Areas(h, ts, next), Areas(h, txids, 0))
  }

  lemma AreasNext<T(!new)>(h: (T, T) -> T, ts: seq<T>, next: nat, done: seq<Area<T>>, txids: seq<T>)
    requires AreasSoFar(h, ts, next, done, txids) && ts != []
    ensures AreasSoFar(h, NextTail(h, ts), next + Half(|ts| + 1) + 1, done + [Area(next, NextTail(h, ts))], txids)
  {
    var up := Areas(h, NextTail(h, ts), next + Half(|ts| + 1) + 1);
    ContinuedNext(done, Area(next, NextTail(h, ts)), up, Areas(h, txids, 0));
  }

  /** The scratch pointers leave room for what is to come. */
  ghost predicate Placed(q: nat, total: nat, cur: nat, next: nat, size: nat) {
    RowsNeeded(size, next) <= total && (q > 0 ==> cur + size <= next)
  }

  /** The rows of one level, and what that leaves in the scratch area. */
  method FinishLevel<T(!new)>(h: (T, T) -> T, q: nat, txids: seq<T>, rows: array<T>, cur: nat, next: nat, size: nat,
                              ghost ts: seq<T>, ghost done: seq<Area<T>>)
    requires size == |ts| + 1 > 1 && Placed(q, rows.Length, cur, next, size) && Holds(q, txids, rows[..], cur, ts)
    requires Stored(done, rows[..]) && Below(done, next)
    modifies rows
    ensures Placed(q + 1, rows.Length, next, next + Half(size) + 1, Half(size))
    ensures Holds(q + 1, txids, rows[..], next, NextTail(h, ts))
    ensures Stored(done + [Area(next, NextTail(h, ts))], rows[..])
    ensures Below(done + [Area(next, NextTail(h, ts))], next + Half(size) + 1)
  {
    ghost var was := rows[..];
    if size > 2 { RowsCover(size, next); }
    HashLevel(h, q, txids, rows, cur, next, size, ts);
    StoredNext(done, was, rows[..], next, NextTail(h, ts));
  }

  /** What holds when level q is about to be processed. */
  ghost predicate UpToLevel<T(!new)>(h: (T, T) -> T, q: nat, txids: seq<T>, rows: seq<T>, br: seq<T>, cur: nat,
                                     next: nat, ts: seq<T>, done: seq<Area<T>>)
  {
    && Placed(q, |rows|, cur, next, |ts| + 1) && Holds(q, txids, rows, cur, ts)
    && Stored(done, rows) && Below(done, next) && AreasSoFar(h, ts, next, done, txids)
    && BranchesSoFar(h, ts, br, q, txids)
  }

  lemma NothingDone<T(!new)>(h: (T, T) -> T, txids: seq<T>, rows: seq<T>, br: seq<T>)
    requires |Branches(h, txids)| <= |br| && RowsNeeded(|txids| + 1, 0) <= |rows|
    ensures UpToLevel(h, 0, txids, rows, br, 0, 0, txids, [])
  {
    assert br[..0] + Branches(h, txids) == Branches(h, txids);
    assert [] + Areas(h, txids, 0) == Areas(h, txids, 0);
  }

  lemma AllDone<T(!new)>(h: (T, T) -> T, q: nat, txids: seq<T>, rows: seq<T>, br: seq<T>, cur: nat, next: nat,
                         done: seq<Area<T>>)
    requires UpToLevel(h, q, txids, rows, br, cur, next, [], done)
    ensures q <= |br| && br[..q] == Branches(h, txids) && Stored(Areas(h, txids, 0), rows)
  {
    ContinuedEnd(br[..q], Branches(h, txids));
    ContinuedEnd(done, Areas(h, txids, 0));
  }

  /** The body of the outer loop. */
  method RunLevel<T(!new)>(h: (T, T) -> T, q: nat, txids: seq<T>, rows: array<T>, branches: array<T>,
                           cur: nat, next: nat, size: nat, ghost ts: seq<T>, ghost done: seq<Area<T>>)
      returns (ghost ts': seq<T>, ghost done': seq<Area<T>>)
    requires rows != branches && size == |ts| + 1 > 1
    requires UpToLevel(h, q, txids, rows[..], branches[..], cur, next, ts, done)
    modifies rows, branches
    ensures |ts'| + 1 == Half(size)
    ensures UpToLevel(h, q + 1, txids, rows[..], branches[..], next, next + Half(size) + 1, ts', done')
  {
    AreasNext(h, ts, next, done, txids);
    WriteBranch(h, q, txids, rows[..], branches, cur, size, ts);
    FinishLevel(h, q, txids, rows, cur, next, size, ts, done);
    ts', done' := NextTail(h, ts), done + [Area(next, NextTail(h, ts))];
  }

  /** stratum_calculate_merkle_branches for a template that passes the guard, given scratch rows
      and branch slots; the rows end up holding every level, so no two levels overlap. */
  method CalculateBranches<T(!new)>(h: (T, T) -> T, txids: seq<T>, rows: array<T>, branches: array<T>)
      returns (count: nat)
    requires rows != branches && |txids| <= MAX_TXNS
    requires branches.Length == MAX_BRANCHES && RowsNeeded(|txids| + 1, 0) <= rows.Length
    modifies rows, branches
    ensures count <= MAX_BRANCHES && branches[..count] == Branches(h, txids)
    ensures Stored(Areas(h, txids, 0), rows[..])
  {
    BranchesFit(h, txids);
    NothingDone(h, txids, rows[..], branches[..]);
    ghost var cur, next, done;
    count, cur, next, done := RunLevels(h, txids, rows, branches);
    AllDone(h, count, txids, rows[..], branches[..], cur, next, done);
  }

  /** The outer loop, level by level until one element is left. */
  method RunLevels<T(!new)>(h: (T, T) -> T, txids: seq<T>, rows: array<T>, branches: array<T>)
      returns (q: nat, ghost cur': nat, ghost next': nat, ghost done: seq<Area<T>>)
    requires rows != branches && UpToLevel(h, 0, txids, rows[..], branches[..], 0, 0, txids, [])
    modifies rows, branches
    ensures UpToLevel(h, q, txids, rows[..], branches[..], cur', next', [], done)
  {
    var size: nat, cur: nat, next: nat := |txids| + 1, 0, 0;
    ghost var ts := txids;
    q, done := 0, [];
    while size > 1
      invariant size == |ts| + 1
      invariant UpToLevel(h, q, txids, rows[..], branches[..], cur, next, ts, done)
      decreases size
    {
      ts, done := RunLevel(h, q, txids, rows, branches, cur, next, size, ts, done);
      cur, next, size, q := next, next + Half(size) + 1, Half(size), q + 1;
    }
    assert ts == [];
    cur', next' := cur, next;
  }

  /** The turn i = 0 of a level: its second element is the branch. */
  method WriteBranch<T(!new)>(h: (T, T) -> T, q: nat, txids: seq<T>, rows: seq<T>, branches: array<T>, cur: nat,
                              size: nat, ghost ts: seq<T>)
    requires size == |ts| + 1 > 1 && Holds(q, txids, rows, cur, ts)
    requires BranchesSoFar(h, ts, branches[..], q, txids)
    modifies branches
    ensures BranchesSoFar(h, NextTail(h, ts), branches[..], q + 1, txids)
  {
    var dupe := size % 2 != 0;
    if q > 0 && dupe && 0 == Half(size) - 1 {
      assert false;   // an odd level has at least three elements: no branch is a duplicate
    }
    CurrentIs(q, txids, rows, cur, ts, 1);
    ghost var br := branches[..];
    branches[q] := Current(q, txids, rows, cur, 1);
    BranchesNext(h, ts, br, branches[..], q, txids);
  }

  /** stratum_job_merkle_root_calc: the fold, with its special case for no branches. */
  method RootFromBranches<T(!new)>(h: (T, T) -> T, coinbase: T, branches: seq<T>) returns (root: T)
    ensures root == Fold(h, coinbase, branches)
  {
    if |branches| == 0 { return coinbase; }
    root := h(coinbase, branches[0]);
    for i := 1 to |branches|
      invariant root == Fold(h, coinbase, branches[..i])
    {
      assert branches[..i + 1][..i] == branches[..i];
      root := h(root, branches[i]);
    }
    assert branches[..|branches|] == branches;
  }

  /** Both methods together give the root of the full tree, for every coinbase hash. */
  method JobRoot<T(!new)>(h: (T, T) -> T, coinbase: T, txids: seq<T>, rows: array<T>, branches: array<T>)
      returns (root: T)
    requires rows != branches && |txids| <= 16371
    requires branches.Length == MAX_BRANCHES && rows.Length == SCRATCH_ROWS
    modifies rows, branches
    ensures root == Root(h, [coinbase] + txids)
  {
    ScratchFits(|txids|);
    var count := CalculateBranches(h, txids, rows, branches);
    root := RootFromBranches(h, coinbase, branches[..count]);
    BranchesGiveRoot(h, coinbase, txids);
  }
}
