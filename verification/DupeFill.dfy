/** The insertion that fills the table, at the front of a bucket: DupePatch in terms of what is known
    before the call, the shares in the table and the order the sort will give them. */
module DupeFill {
  import opened DupeIndex
  import opened DupePatch
  import opened DupeArena

  /** The share goes in before the head of its bucket. */
  predicate FrontInsert(items: seq<Item>, index: seq<int>, s: Share)
    requires |index| == BUCKETS
  {
    var head := index[Bucket(s)];
    head == NIL || (0 <= head < |items| && items[head].share.nonce > s.nonce)
  }

  /** The table with s in its last slot, as the cleanup sorts it. */
  function FillOrder(e: Env, items: seq<Item>, s: Share): seq<Item>
    requires |items| > 0
  {
    e.qsort(items[|items| - 1 := Item(s, NIL)])
  }

  /** The cleanup keeps everything and the sort leaves the new share in the last slot, with the old head
      in its old place as the next of the bucket. */
  predicate FillOk(e: Env, items: seq<Item>, s: Share, head: int)
    requires |items| > 0
  {
    var a, slot := FillOrder(e, items, s), |items| - 1;
    && Grows(e, Recorded(items, slot) + {s}, |items|)
    && |a| == |items| && a[slot].share == s && (head == NIL || Second(a, |a|, Bucket(s), slot, head))
  }

  /** The cleanup keeps everything and the sort leaves, in the old head's place and in the last slot, shares
      of one bucket in this order, so that a later check of x is caught between them. */
  ghost predicate FillHangs(e: Env, items: seq<Item>, s: Share, head: int, x: Share)
    requires |items| > 0
  {
    var a, slot := FillOrder(e, items, s), |items| - 1;
    Grows(e, Recorded(items, slot) + {s}, |items|) && RunsOn(a, |a|, slot, head, x)
  }

  /** Whether a second check will find s: in the last slot, or in the old head's place if the last slot holds
      no higher nonce; if stale shares go, the last slot is cleared and only the old head's place counts. */
  predicate FillFinds(e: Env, items: seq<Item>, s: Share, head: int)
    requires |items| > 0
  {
    var a, slot := FillOrder(e, items, s), |items| - 1;
    && |a| == |items|
    && if Grows(e, Recorded(items, slot) + {s}, |items|)
       then a[slot].share == s || (0 <= head < |a| && a[head].share == s && a[slot].share.nonce <= s.nonce)
       else 0 <= head < |a| && a[head].share == s && KeyOf(e, a[head]) >= e.cutoff
  }

  /** The check of s does not fill the table, or the late write is none or harmless. */
  predicate CheckIsHarmless(e: Env, items: seq<Item>, index: seq<int>, n: nat, s: Share)
    requires |items| > 0 && n <= |items| && |index| == BUCKETS
  {
    s in Recorded(items, n) || n + 1 < |items| || !FrontInsert(items, index, s) || FillOk(e, items, s, index[Bucket(s)])
  }

  // ---- only the shares matter ----

  ghost predicate SameOrder(items: seq<Item>, a: seq<Item>, n: nat) {
    n <= |items| && n == |a| && forall i | 0 <= i < n :: items[i].share == a[i].share
  }

  lemma SameFirst(items: seq<Item>, a: seq<Item>, n: nat, b: nat, slot: nat, cur: int)
    requires SameOrder(items, a, n)
    ensures First(items, n, b, slot) <==> First(a, n, b, slot)
    ensures Second(items, n, b, slot, cur) <==> Second(a, n, b, slot, cur)
  {
  }

  lemma SameLoop(items: seq<Item>, a: seq<Item>, n: nat, slot: nat, cur: int, x: Share)
    requires SameOrder(items, a, n)
    ensures RunsOn(items, n, slot, cur, x) <==> RunsOn(a, n, slot, cur, x)
  {
    if Loops(items, n, slot, cur) {
      forall i | 0 <= i < n ensures OnLoop(items, n, slot, cur, i) <==> OnLoop(a, n, slot, cur, i) {}
    }
  }

  /** The new share is the lowest of its bucket. */
  ghost predicate Lowest(c: set<Share>, s: Share) {
    forall x | x in c && x != s && Bucket(x) == Bucket(s) :: x.nonce > s.nonce
  }

  lemma LowestIsFirst(a: seq<Item>, s: Share, slot: nat)
    requires DistinctShares(a, |a|) && slot < |a| && s in Recorded(a, |a|) && Lowest(Recorded(a, |a|), s)
    ensures First(a, |a|, Bucket(s), slot) <==> a[slot].share == s
  {
    var i :| 0 <= i < |a| && a[i].share == s;
    forall j | 0 <= j < |a| ensures a[j].share in Recorded(a, |a|) {}
  }

  // ---- the table after the fill ----

  /** What a filling insertion found and what the cleanup made of it. */
  ghost predicate Cleaned(e: Env, was: seq<Item>, s: Share, items: seq<Item>, index: seq<int>, n: nat,
                          lists: seq<seq<nat>>) {
    && |was| > 0 && ArenaOk(was[|was| - 1 := Item(s, NIL)], |was|) && Sorts(e)
    && Lowest(Recorded(was, |was| - 1), s)
    && Indexed(items, index, n, lists) && |was| <= |items| && n <= |was| && Arranged(items, n, FillOrder(e, was, s))
    && (n == |was| <==> Grows(e, Recorded(was, |was| - 1) + {s}, |was|))
    && Recorded(items, n) == Retained(e, Recorded(was, |was| - 1) + {s}, |was|)
  }

  lemma IsCleaned(e: Env, was: seq<Item>, s: Share, items: seq<Item>, index: seq<int>, n: nat, lists: seq<seq<nat>>)
    requires |was| > 0 && ArenaOk(was[|was| - 1 := Item(s, NIL)], |was|) && Sorts(e)
    requires Lowest(Recorded(was, |was| - 1), s)
    requires Indexed(items, index, n, lists) && n <= |was| <= |items| && Arranged(items, n, FillOrder(e, was, s))
    requires n == |was| <==> Grows(e, Recorded(was, |was| - 1) + {s}, |was|)
    requires Recorded(items, n) == Retained(e, Recorded(was, |was| - 1) + {s}, |was|)
    ensures Cleaned(e, was, s, items, index, n, lists)
  {
  }

  lemma OrderFacts(e: Env, was: seq<Item>, s: Share)
    requires |was| > 0 && ArenaOk(was[|was| - 1 := Item(s, NIL)], |was|) && Sorts(e)
    ensures var a := FillOrder(e, was, s);
            |a| == |was| && ArenaOk(a, |a|) && Recorded(a, |a|) == Recorded(was, |was| - 1) + {s}
  {
    var full := was[|was| - 1 := Item(s, NIL)];
    SortedArena(full, FillOrder(e, was, s));
    RecordedNext(full, |full|);
    RecordedSame(full, was, |was| - 1);
  }

  /** The table is well-formed after the late write exactly when FillOk said so before. */
  lemma FillRightExactly(e: Env, was: seq<Item>, s: Share, head: int, items: seq<Item>, index: seq<int>, n: nat,
                         lists: seq<seq<nat>>)
    requires Cleaned(e, was, s, items, index, n, lists)
    ensures WellFormed(Patched(items, |was| - 1, head), index[Bucket(s) := |was| - 1], n) <==> FillOk(e, was, s, head)
  {
    var a, slot, b := FillOrder(e, was, s), |was| - 1, Bucket(s);
    OrderFacts(e, was, s);
    PatchRightExactly(items, index, n, lists, slot, b, head);
    if n == |was| {
      SameFirst(items, a, n, b, slot, head);
      LowestIsFirst(a, s, slot);
    }
  }

  /** In the good case the late write changes nothing. */
  lemma FillRightChangesNothing(e: Env, was: seq<Item>, s: Share, head: int, items: seq<Item>, index: seq<int>,
                                n: nat, lists: seq<seq<nat>>)
    requires Cleaned(e, was, s, items, index, n, lists) && FillOk(e, was, s, head)
    ensures Patched(items, |was| - 1, head) == items && index[Bucket(s) := |was| - 1] == index
  {
    var slot, b := |was| - 1, Bucket(s);
    FillRightExactly(e, was, s, head, items, index, n, lists);
    RightChangesNothing(items, index, n, lists, slot, b, head);
  }

  lemma RightChangesNothing(items: seq<Item>, index: seq<int>, n: nat, lists: seq<seq<nat>>, slot: nat, b: nat,
                            cur: int)
    requires Indexed(items, index, n, lists) && slot < |items| && b < BUCKETS
    requires WellFormed(Patched(items, slot, cur), index[b := slot], n)
    ensures Patched(items, slot, cur) == items && index[b := slot] == index
  {
    PatchKeepsIndex(items, index, n, lists, slot, b, cur);
  }

  /** A later check in that bucket does not end exactly when FillHangs said so before. */
  lemma FillHangsExactly(e: Env, was: seq<Item>, s: Share, head: int, items: seq<Item>, index: seq<int>, n: nat,
                         lists: seq<seq<nat>>, x: Share)
    requires Cleaned(e, was, s, items, index, n, lists) && NIL <= head < |was| - 1
    ensures NeverAnswers(Patched(items, |was| - 1, head), |was| - 1, x) <==> FillHangs(e, was, s, head, x)
  {
    OrderFacts(e, was, s);
    HangsExactly(items, index, n, lists, |was| - 1, head, x);
    if n == |was| { SameLoop(items, FillOrder(e, was, s), n, |was| - 1, head, x); }
  }

  lemma StillLowest(e: Env, was: seq<Item>, s: Share, items: seq<Item>, index: seq<int>, n: nat,
                    lists: seq<seq<nat>>)
    requires Cleaned(e, was, s, items, index, n, lists)
    ensures IsLowest(items, n, s)
  {
    forall i | 0 <= i < n && Bucket(items[i].share) == Bucket(s)
      ensures items[i].share == s || items[i].share.nonce > s.nonce
    {
      assert items[i].share in Recorded(items, n);
    }
  }

  /** Where stale shares go, the new share is in a place that is kept exactly when it is fresh. */
  lemma KeptPlace(e: Env, was: seq<Item>, s: Share, head: nat, items: seq<Item>, index: seq<int>, n: nat,
                  lists: seq<seq<nat>>)
    requires Cleaned(e, was, s, items, index, n, lists) && head < |was| && n < |was|
    requires var a := FillOrder(e, was, s); |a| == |was| && a[head].share == s
    ensures head < n <==> e.key(s.job) >= e.cutoff
  {
    var a := FillOrder(e, was, s);
    OrderFacts(e, was, s);
    if head < n {
      assert items[head].share in Recorded(items, n);
    }
    if e.key(s.job) >= e.cutoff {
      assert s in Recorded(items, n);
      var i :| 0 <= i < n && items[i].share == s;
      assert a[i].share == a[head].share;
    }
  }

  lemma FindsAsSaid(e: Env, was: seq<Item>, s: Share, head: int, items: seq<Item>, index: seq<int>, n: nat,
                    lists: seq<seq<nat>>)
    requires Cleaned(e, was, s, items, index, n, lists) && NIL <= head < |was| - 1
    ensures Finds(items, n, |was| - 1, head, s) <==> FillFinds(e, was, s, head)
  {
    OrderFacts(e, was, s);
    if n < |was| && head != NIL && FillOrder(e, was, s)[head].share == s {
      KeptPlace(e, was, s, head, items, index, n, lists);
    }
  }

  /** A second check of the new share finds it exactly when FillFinds said so before, does not end exactly
      when FillHangs said so, and otherwise answers that it is new. */
  lemma FillFoundExactly(e: Env, was: seq<Item>, s: Share, head: int, items: seq<Item>, index: seq<int>, n: nat,
                         lists: seq<seq<nat>>)
    requires Cleaned(e, was, s, items, index, n, lists) && NIL <= head < |was| - 1 && s.ntime != 0
    ensures Rechecked(e, was, s, head, Patched(items, |was| - 1, head))
  {
    StillLowest(e, was, s, items, index, n, lists);
    FoundExactly(items, index, n, lists, |was| - 1, head, s);
    FindsAsSaid(e, was, s, head, items, index, n, lists);
    FillHangsExactly(e, was, s, head, items, index, n, lists, s);
  }

  /** What a second check of the share does. */
  ghost predicate Rechecked(e: Env, was: seq<Item>, s: Share, head: int, items: seq<Item>)
    requires |was| > 0
  {
    var finds, hangs := FillFinds(e, was, s, head), FillHangs(e, was, s, head, s);
    && (Answers(items, |was| - 1, s, true) <==> finds)
    && (NeverAnswers(items, |was| - 1, s) <==> hangs)
    && (Answers(items, |was| - 1, s, false) <==> !finds && !hangs)
  }

  /** For a bucket that was empty: any share that is newer than another in the table is lost when it fills
      the table, whatever the sort does with shares of one time. */
  lemma NewerIsLost(e: Env, was: seq<Item>, s: Share, x: Share)
    requires |was| > 0 && ArenaOk(was[|was| - 1 := Item(s, NIL)], |was|) && Sorts(e)
    requires x in Recorded(was, |was| - 1) && e.key(x.job) < e.key(s.job)
    ensures !FillFinds(e, was, s, NIL) && !FillHangs(e, was, s, NIL, s)
  {
    var a := FillOrder(e, was, s);
    OrderFacts(e, was, s);
    var k :| 0 <= k < |a| && a[k].share == x;
    assert Descending(e, a);
    assert KeyOf(e, a[|a| - 1]) <= KeyOf(e, a[k]);
  }

  /** What becomes of the table when a share fills it at the front of a bucket, as far as it can be said
      before: well-formed or not, which later checks in the bucket do not end, and whether the share is
      found again. */
  ghost predicate FrontFilled(e: Env, was: seq<Item>, s: Share, head: int, items: seq<Item>, index: seq<int>, n: nat) {
    && |was| > 0 && |index| == BUCKETS && index[Bucket(s)] == |was| - 1
    && (WellFormed(items, index, n) <==> FillOk(e, was, s, head))
    && (forall x: Share :: NeverAnswers(items, |was| - 1, x) <==> FillHangs(e, was, s, head, x))
    && Rechecked(e, was, s, head, items)
  }

  lemma PatchFills(e: Env, was: seq<Item>, s: Share, head: int, slot: nat, items: seq<Item>, index: seq<int>, n: nat,
                   lists: seq<seq<nat>>)
    requires slot + 1 == |was|
    requires Cleaned(e, was, s, items, index, n, lists) && NIL <= head < slot && s.ntime != 0
    ensures FrontFilled(e, was, s, head, Patched(items, slot, head), index[Bucket(s) := slot], n)
    ensures FillOk(e, was, s, head) ==> Indexed(Patched(items, slot, head), index[Bucket(s) := slot], n, lists)
  {
    FillRightExactly(e, was, s, head, items, index, n, lists);
    forall x: Share ensures NeverAnswers(Patched(items, slot, head), slot, x) <==> FillHangs(e, was, s, head, x) {
      FillHangsExactly(e, was, s, head, items, index, n, lists, x);
    }
    FillFoundExactly(e, was, s, head, items, index, n, lists);
    if FillOk(e, was, s, head) { FillRightChangesNothing(e, was, s, head, items, index, n, lists); }
  }

  // ---- where an insertion is at the front ----

  lemma PlaceAtFront(items: seq<Item>, index: seq<int>, n: nat, lists: seq<seq<nat>>, s: Share, prev: int, cur: int,
                     k: nat)
    requires Indexed(items, index, n, lists) && n <= |items| && PlaceOf(items, n, lists, s, prev, cur, k)
    ensures prev == NIL <==> FrontInsert(items, index, s)
    ensures prev == NIL ==> cur == index[Bucket(s)] && NIL <= cur < n && Lowest(Recorded(items, n), s)
    ensures prev == NIL && cur == NIL ==> forall x | x in Recorded(items, n) :: Bucket(x) != Bucket(s)
  {
    var b := Bucket(s);
    var l := lists[b];
    assert BucketOk(items, n, index[b], b, l);
    forall x | x in Recorded(items, n) && Bucket(x) == b ensures exists p :: 0 <= p < |l| && items[l[p]].share == x {
      var i :| 0 <= i < n && items[i].share == x;
      var p := Position(l, i);
      assert items[l[p]].share == x;
    }
  }

  lemma SplicedAtFront(items: seq<Item>, n: nat, s: Share)
    requires n < |items|
    ensures Spliced(items, n, s, NIL) == items[n := Item(s, NIL)]
  {
  }
}
