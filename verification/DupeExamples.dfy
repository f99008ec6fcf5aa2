/** Two runs of the duplicate-share table that fill it, at any size and with any sort: after the first a share
    that is in the table is taken for new, after the second a check does not end. */
module DupeExamples {
  import opened DupeIndex
  import opened DupePatch
  import opened DupeArena
  import opened DupeFill
  import opened Dupes

  // ---- a sort ----

  /** Insertion into a list in descending order of key. */
  function Put(key: nat -> nat, x: Item, a: seq<Item>): seq<Item> {
    if a == [] || key(x.share.job) >= key(a[0].share.job) then [x] + a else [a[0]] + Put(key, x, a[1..])
  }

  function Sort(key: nat -> nat, a: seq<Item>): seq<Item> {
    if a == [] then [] else Put(key, a[0], Sort(key, a[1..]))
  }

  /** Nothing is stale. */
  function EnvOf(key: nat -> nat): Env { Env((a: seq<Item>) => Sort(key, a), key, 0) }

  lemma {:induction false} PutAdds(key: nat -> nat, x: Item, a: seq<Item>)
    ensures multiset(Put(key, x, a)) == multiset(a) + multiset{x}
    decreases |a|
  {
    if a != [] {
      assert a == [a[0]] + a[1..];
      PutAdds(key, x, a[1..]);
    }
  }

  lemma PutMembers(key: nat -> nat, x: Item, a: seq<Item>, y: Item)
    requires y in Put(key, x, a)
    ensures y == x || y in a
  {
    PutAdds(key, x, a);
    assert y in multiset(Put(key, x, a));
  }

  lemma {:induction false} PutKeeps(key: nat -> nat, x: Item, a: seq<Item>)
    requires Descending(EnvOf(key), a)
    ensures Descending(EnvOf(key), Put(key, x, a))
    decreases |a|
  {
    if a != [] && key(x.share.job) < key(a[0].share.job) {
      var rest := Put(key, x, a[1..]);
      PutKeeps(key, x, a[1..]);
      forall j | 0 <= j < |rest| ensures key(a[0].share.job) >= key(rest[j].share.job) {
        PutMembers(key, x, a[1..], rest[j]);
      }
    }
  }

  lemma {:induction false} SortKeeps(key: nat -> nat, a: seq<Item>)
    ensures multiset(Sort(key, a)) == multiset(a) && Descending(EnvOf(key), Sort(key, a))
    decreases |a|
  {
    if a != [] {
      SortKeeps(key, a[1..]);
      PutAdds(key, a[0], Sort(key, a[1..]));
      PutKeeps(key, a[0], Sort(key, a[1..]));
      assert a == [a[0]] + a[1..];
    }
  }

  lemma EnvSorts(key: nat -> nat)
    ensures Sorts(EnvOf(key))
  {
    forall a: seq<Item>
      ensures multiset(EnvOf(key).qsort(a)) == multiset(a) && Descending(EnvOf(key), EnvOf(key).qsort(a))
    {
      SortKeeps(key, a);
    }
  }

  // ---- filling a table ----

  /** Jobs 0, 1 and 2 are from old to new, and none of them is stale. */
  predicate ThreeJobs(e: Env) { e.cutoff <= e.key(0) < e.key(1) < e.key(2) }

  /** There is such an environment. */
  lemma OneEnv()
    ensures Sorts(EnvOf(job => 10 * (job + 1))) && ThreeJobs(EnvOf(job => 10 * (job + 1)))
  {
    EnvSorts(job => 10 * (job + 1));
  }

  /** The shares that fill a table of as many slots, in this order. */
  ghost predicate Filling(w: seq<Share>) {
    && |w| >= 4 && (forall i | 0 <= i < |w| :: w[i].ntime != 0 && w[i].job <= 2)
    && forall i, j | 0 <= i < j < |w| :: w[i] != w[j]
  }

  /** What the table holds before the last of them. */
  ghost predicate HoldsAllButOne(items: seq<Item>, w: seq<Share>) {
    && |items| == |w| > 0 && ArenaOk(items, |w| - 1) && forall i | 0 <= i < |w| - 1 :: items[i].share == w[i]
  }

  /** All checks but the last. */
  method FillButOne(e: Env, w: seq<Share>) returns (t: Table)
    requires Sorts(e) && Filling(w)
    ensures fresh(t) && t.Valid() && t.current == |w| - 1 && HoldsAllButOne(t.items, w)
  {
    t := new Table(|w|);
    for i := 0 to |w| - 1
      invariant fresh(t) && t.Valid() && t.current == i && |t.items| == |w|
      invariant forall j | 0 <= j < i :: t.items[j].share == w[j]
    {
      NotYet(t.items, w, i);
      var dup := t.CheckForDupe(e, w[i]);
    }
  }

  lemma NotYet(items: seq<Item>, w: seq<Share>, n: nat)
    requires Filling(w) && n < |w| && n <= |items| && forall j | 0 <= j < n :: items[j].share == w[j]
    ensures w[n] !in Recorded(items, n)
  {
  }

  lemma FullArena(items: seq<Item>, w: seq<Share>)
    requires Filling(w) && HoldsAllButOne(items, w)
    ensures ArenaOk(items[|w| - 1 := Item(w[|w| - 1], NIL)], |w|)
  {
  }

  /** The filled table in the order of the sort, which keeps it whole. */
  lemma SortedWhole(e: Env, items: seq<Item>, w: seq<Share>) returns (a: seq<Item>)
    requires Sorts(e) && ThreeJobs(e) && Filling(w) && HoldsAllButOne(items, w)
    ensures a == FillOrder(e, items, w[|w| - 1]) && |a| == |w| && Descending(e, a)
    ensures forall i | 0 <= i < |a| :: a[i].share in w
    ensures forall x | x in w :: exists i :: 0 <= i < |a| && a[i].share == x
    ensures Grows(e, Recorded(items, |w| - 1) + {w[|w| - 1]}, |w|)
  {
    var last := w[|w| - 1];
    a := FillOrder(e, items, last);
    FullArena(items, w);
    OrderFacts(e, items, last);
    HeldAreFilling(items, w);
    Same(a, w);
    AllGrow(e, a);
    assert Descending(e, a);
  }

  lemma Same(a: seq<Item>, w: seq<Share>)
    requires Recorded(a, |a|) == set x | x in w
    ensures forall i | 0 <= i < |a| :: a[i].share in w
    ensures forall x | x in w :: exists i :: 0 <= i < |a| && a[i].share == x
  {
    forall i | 0 <= i < |a| ensures a[i].share in w { assert a[i].share in Recorded(a, |a|); }
    forall x | x in w ensures exists i :: 0 <= i < |a| && a[i].share == x { assert x in Recorded(a, |a|); }
  }

  lemma HeldAreFilling(items: seq<Item>, w: seq<Share>)
    requires HoldsAllButOne(items, w)
    ensures Recorded(items, |w| - 1) + {w[|w| - 1]} == set x | x in w
  {
    forall x | x in w ensures x in Recorded(items, |w| - 1) + {w[|w| - 1]} {
      var k :| 0 <= k < |w| && w[k] == x;
      if k < |w| - 1 { assert items[k].share == x; }
    }
  }

  lemma AllGrow(e: Env, a: seq<Item>)
    requires ThreeJobs(e) && ArenaOk(a, |a|) && forall i | 0 <= i < |a| :: a[i].share.job <= 2
    ensures Grows(e, Recorded(a, |a|), |a|)
  {
    RecordedCount(a, |a|);
    AllFresh(e, Recorded(a, |a|), |a|);
  }

  lemma AllFresh(e: Env, c: set<Share>, max: nat)
    requires ThreeJobs(e) && |c| == max && forall x | x in c :: x.job <= 2
    ensures Grows(e, c, max)
  {
    assert Fresh(e, c) == c;
  }

  // ---- a share that is not found again ----

  const NEWCOMER: Share := Share(2, 1, 9, 0, 0, 0)

  /** Shares of one nonce and the old job, and last one of another bucket and a newer job. */
  function Missed(max: nat): seq<Share>
    requires max >= 4
  {
    seq(max - 1, i requires 0 <= i < max - 1 => Share(1, 0, 9, 0, i, 0)) + [NEWCOMER]
  }

  lemma MissedFills(max: nat)
    requires max >= 4
    ensures Filling(Missed(max)) && Missed(max)[max - 1] == NEWCOMER && |Missed(max)| == max
  {
  }

  /** In a table of any size and with any sort, the last of them is in the table, and checked again it is
      answered to be new. */
  method NewShareIsMissed(e: Env, max: nat) returns (items: seq<Item>, index: seq<int>, n: nat)
    requires Sorts(e) && ThreeJobs(e) && max >= 4
    ensures n <= |items| && NEWCOMER in Recorded(items, n)
    ensures |index| == BUCKETS && Answers(items, index[Bucket(NEWCOMER)], NEWCOMER, false)
  {
    var w := Missed(max);
    MissedFills(max);
    var t := FillButOne(e, w);
    ghost var was := t.items;
    WillBeMissed(e, was, t.index, t.lists, max);
    var dup := t.CheckForDupe(e, NEWCOMER);
    items, index, n := t.items, t.index, t.current;
    IsMissed(e, was, items, index, n);
  }

  lemma IsMissed(e: Env, was: seq<Item>, items: seq<Item>, index: seq<int>, n: nat)
    requires FrontFilled(e, was, NEWCOMER, NIL, items, index, n)
    requires !FillFinds(e, was, NEWCOMER, NIL) && !FillHangs(e, was, NEWCOMER, NIL, NEWCOMER)
    ensures Answers(items, index[Bucket(NEWCOMER)], NEWCOMER, false)
  {
  }

  lemma WillBeMissed(e: Env, items: seq<Item>, index: seq<int>, lists: seq<seq<nat>>, max: nat)
    requires Sorts(e) && ThreeJobs(e) && max >= 4
    requires HoldsAllButOne(items, Missed(max)) && Indexed(items, index, max - 1, lists)
    ensures NEWCOMER !in Recorded(items, max - 1) && index[Bucket(NEWCOMER)] == NIL
    ensures !FillFinds(e, items, NEWCOMER, NIL) && !FillHangs(e, items, NEWCOMER, NIL, NEWCOMER)
    ensures Retained(e, Recorded(items, max - 1) + {NEWCOMER}, max) == Recorded(items, max - 1) + {NEWCOMER}
  {
    var w := Missed(max);
    MissedFills(max);
    NotYet(items, w, max - 1);
    var a := SortedWhole(e, items, w);
    EmptyBucket(items, index, max - 1, lists, NEWCOMER);
    FullArena(items, w);
    assert items[0].share in Recorded(items, max - 1);
    NewerIsLost(e, items, NEWCOMER, w[0]);
  }

  lemma EmptyBucket(items: seq<Item>, index: seq<int>, n: nat, lists: seq<seq<nat>>, s: Share)
    requires Indexed(items, index, n, lists) && n <= |items|
    requires forall i | 0 <= i < n :: Bucket(items[i].share) != Bucket(s)
    ensures index[Bucket(s)] == NIL
  {
    var b := Bucket(s);
    assert BucketOk(items, n, index[b], b, lists[b]);
  }

  // ---- a check that does not end ----

  const HIGH_OF_5: Share := Share(5 + BUCKETS, 1, 9, 0, 0, 0)
  const LOW_OF_7: Share := Share(7, 2, 9, 0, 0, 0)
  const HIGH_OF_7: Share := Share(7 + BUCKETS, 0, 9, 0, 0, 0)
  const LOW_OF_5: Share := Share(5, 1, 9, 0, 0, 0)

  /** One share in bucket 5, two in bucket 7, any others, and the one that fills the table at the front of
      bucket 5.  The newest job is that of the lower share of bucket 7, the oldest that of the higher. */
  function Caught(max: nat): seq<Share>
    requires max >= 4
  {
    [HIGH_OF_5, LOW_OF_7, HIGH_OF_7] + seq(max - 4, i requires 0 <= i < max - 4 => Share(1, 1, 9, 0, i, 0)) + [LOW_OF_5]
  }

  /** Another share of bucket 5. */
  const NEXT_OF_5: Share := Share(5 + 3 * BUCKETS, 1, 9, 0, 0, 0)

  /** In a table of any size and with any sort, after these checks the check of another share of bucket 5
      does not end. */
  method CheckDoesNotEnd(e: Env, max: nat) returns (items: seq<Item>, index: seq<int>)
    requires Sorts(e) && ThreeJobs(e) && max >= 4
    ensures |index| == BUCKETS && NeverAnswers(items, index[Bucket(NEXT_OF_5)], NEXT_OF_5)
  {
    var w := Caught(max);
    CaughtFills(max);
    var t := FillButOne(e, w);
    ghost var was := t.items;
    WillBeCaught(e, was, t.index, t.lists, max);
    var dup := t.CheckForDupe(e, LOW_OF_5);
    items, index := t.items, t.index;
    IsCaught(e, was, items, index, t.current);
  }

  lemma IsCaught(e: Env, was: seq<Item>, items: seq<Item>, index: seq<int>, n: nat)
    requires FrontFilled(e, was, LOW_OF_5, 0, items, index, n) && FillHangs(e, was, LOW_OF_5, 0, NEXT_OF_5)
    ensures NeverAnswers(items, index[Bucket(NEXT_OF_5)], NEXT_OF_5)
  {
  }

  lemma CaughtFills(max: nat)
    requires max >= 4
    ensures Filling(Caught(max)) && Caught(max)[max - 1] == LOW_OF_5 && |Caught(max)| == max
  {
  }

  lemma WillBeCaught(e: Env, items: seq<Item>, index: seq<int>, lists: seq<seq<nat>>, max: nat)
    requires Sorts(e) && ThreeJobs(e) && max >= 4
    requires HoldsAllButOne(items, Caught(max)) && Indexed(items, index, max - 1, lists)
    ensures LOW_OF_5 !in Recorded(items, max - 1) && index[Bucket(LOW_OF_5)] == 0
    ensures FillHangs(e, items, LOW_OF_5, 0, NEXT_OF_5)
  {
    var w := Caught(max);
    CaughtFills(max);
    NotYet(items, w, max - 1);
    var a := SortedWhole(e, items, w);
    HeadOfFive(items, index, max - 1, lists, max);
    CaughtJobs(max);
    NewestFirst(e, a, w);
    NextRunsOn(a);
  }

  lemma CaughtJobs(max: nat)
    requires max >= 4
    ensures LOW_OF_7 in Caught(max) && forall x | x in Caught(max) && x != LOW_OF_7 :: x.job < 2
    ensures HIGH_OF_7 in Caught(max) && forall x | x in Caught(max) && x != HIGH_OF_7 :: 0 < x.job <= 2
  {
    assert Caught(max)[1] == LOW_OF_7 && Caught(max)[2] == HIGH_OF_7;
  }

  lemma HeadOfFive(items: seq<Item>, index: seq<int>, n: nat, lists: seq<seq<nat>>, max: nat)
    requires max >= 4 && Indexed(items, index, n, lists) && n == max - 1 && HoldsAllButOne(items, Caught(max))
    ensures index[5] == 0
  {
    assert BucketOk(items, n, index[5], 5, lists[5]);
    HeadIsFirst(items, n, index[5], 5, lists[5], 0);
  }

  /** Any sort puts the only share of the newest job first and the only one of the oldest last. */
  lemma NewestFirst(e: Env, a: seq<Item>, w: seq<Share>)
    requires ThreeJobs(e) && Descending(e, a) && |a| >= 4 && (forall i | 0 <= i < |a| :: a[i].share in w)
    requires forall x | x in w :: exists i :: 0 <= i < |a| && a[i].share == x
    requires LOW_OF_7 in w && forall x | x in w && x != LOW_OF_7 :: x.job < 2
    requires HIGH_OF_7 in w && forall x | x in w && x != HIGH_OF_7 :: 0 < x.job <= 2
    ensures a[0].share == LOW_OF_7 && a[|a| - 1].share == HIGH_OF_7
  {
    var i :| 0 <= i < |a| && a[i].share == LOW_OF_7;
    assert KeyOf(e, a[0]) >= KeyOf(e, a[i]);
    var j :| 0 <= j < |a| && a[j].share == HIGH_OF_7;
    assert KeyOf(e, a[j]) >= KeyOf(e, a[|a| - 1]);
  }

  lemma NextRunsOn(a: seq<Item>)
    requires |a| >= 4 && a[0].share == LOW_OF_7 && a[|a| - 1].share == HIGH_OF_7
    ensures RunsOn(a, |a|, |a| - 1, 0, NEXT_OF_5)
  {
  }
}
