/** The arena of the duplicate-share table (src/datum_stratum_dupes.c) as a set of shares: what a
    cleanup by sort, binary search, prune or grow keeps, and where, and what one insertion adds. */
module DupeArena {
  import opened DupeIndex
  import opened DupePatch

  /** The shares in the first n positions. */
  function Recorded(items: seq<Item>, n: nat): set<Share>
    requires n <= |items|
  {
    set i | 0 <= i < n :: items[i].share
  }

  ghost predicate DistinctShares(items: seq<Item>, n: nat)
    requires n <= |items|
  {
    forall i, j | 0 <= i < j < n :: items[i].share != items[j].share
  }

  /** Exactly the first n positions are in use; an unused one is recognised by ntime 0. */
  ghost predicate ArenaOk(items: seq<Item>, n: nat) {
    && n <= |items|
    && (forall i | 0 <= i < n :: items[i].share.ntime != 0)
    && (forall i | n <= i < |items| :: items[i].share.ntime == 0)
    && DistinctShares(items, n)
  }

  // ---- what a cleanup keeps ----

  /** The environment of a cleanup: the library sort, the job timestamps (0 for a missing job)
      and the oldest timestamp that is not stale. */
  datatype Env = Env(qsort: seq<Item> -> seq<Item>, key: nat -> nat, cutoff: nat)

  function KeyOf(e: Env, x: Item): nat { e.key(x.share.job) }

  ghost predicate Descending(e: Env, a: seq<Item>) {
    forall i, j | 0 <= i < j < |a| :: KeyOf(e, a[i]) >= KeyOf(e, a[j])
  }

  /** The sort gives some arrangement of its input in descending order of timestamp. */
  ghost predicate Sorts(e: Env) {
    forall a: seq<Item> :: multiset(e.qsort(a)) == multiset(a) && Descending(e, e.qsort(a))
  }

  function Fresh(e: Env, c: set<Share>): set<Share> { set s | s in c && e.key(s.job) >= e.cutoff }

  predicate Grows(e: Env, c: set<Share>, max: nat) { |Fresh(e, c)| >= max * 95 / 100 }

  function Retained(e: Env, c: set<Share>, max: nat): set<Share> {
    if Grows(e, c, max) then c else Fresh(e, c)
  }

  /** The size of the table after that cleanup. */
  function Resized(e: Env, c: set<Share>, max: nat): nat { if Grows(e, c, max) then max * 125 / 100 else max }

  // ---- the table as a set of shares ----

  /** What a user of the table relies on: the shares it holds, and how many it has room for. */
  datatype Ref = Ref(shares: set<Share>, max: nat)

  datatype Call = Call(e: Env, s: Share)

  /** A new share is added; one that fills the table makes it forget what is stale, or grow. */
  function RefCheck(r: Ref, c: Call): Ref {
    var shares := r.shares + {c.s};
    if c.s in r.shares then r
    else if |r.shares| + 1 < r.max then Ref(shares, r.max)
    else Ref(Retained(c.e, shares, r.max), Resized(c.e, shares, r.max))
  }

  function RefRun(r: Ref, calls: seq<Call>): Ref {
    if calls == [] then r else RefCheck(RefRun(r, calls[..|calls| - 1]), calls[|calls| - 1])
  }

  lemma RefRunNext(r: Ref, calls: seq<Call>, n: nat)
    requires n < |calls|
    ensures RefRun(r, calls[..n + 1]) == RefCheck(RefRun(r, calls[..n]), calls[n])
  {
    assert calls[..n + 1][..n] == calls[..n];
  }

  /** Each answer is whether the reference holds the share at that point of the run. */
  ghost predicate AnswersLike(r: Ref, calls: seq<Call>, answers: seq<bool>) {
    && |answers| <= |calls|
    && forall i | 0 <= i < |answers| :: answers[i] <==> calls[i].s in RefRun(r, calls[..i]).shares
  }

  lemma AnswersNext(r: Ref, calls: seq<Call>, answers: seq<bool>, dup: bool)
    requires AnswersLike(r, calls, answers) && |answers| < |calls|
    requires dup == (calls[|answers|].s in RefRun(r, calls[..|answers|]).shares)
    ensures AnswersLike(r, calls, answers + [dup])
  {
    var more := answers + [dup];
    forall i | 0 <= i < |more| ensures more[i] <==> calls[i].s in RefRun(r, calls[..i]).shares {
      if i < |answers| { assert more[i] == answers[i]; }
    }
  }

  lemma RecordedNext(a: seq<Item>, n: nat)
    requires 0 < n <= |a|
    ensures Recorded(a, n) == Recorded(a, n - 1) + {a[n - 1].share}
  {
    forall x | x in Recorded(a, n) ensures x in Recorded(a, n - 1) + {a[n - 1].share} {
      var i :| 0 <= i < n && a[i].share == x;
    }
    forall x | x in Recorded(a, n - 1) ensures x in Recorded(a, n) {
      var i :| 0 <= i < n - 1 && a[i].share == x;
    }
  }

  lemma DistinctNext(a: seq<Item>, n: nat)
    requires 0 < n <= |a|
    ensures DistinctShares(a, n) <==> DistinctShares(a, n - 1) && a[n - 1].share !in Recorded(a, n - 1)
  {
    if a[n - 1].share in Recorded(a, n - 1) {
      var i :| 0 <= i < n - 1 && a[i].share == a[n - 1].share;
    }
  }

  lemma {:induction false} RecordedCount(a: seq<Item>, n: nat)
    requires n <= |a|
    ensures |Recorded(a, n)| <= n && (|Recorded(a, n)| == n <==> DistinctShares(a, n))
    decreases n
  {
    if n > 0 {
      RecordedCount(a, n - 1);
      RecordedNext(a, n);
      DistinctNext(a, n);
      AddedSize(Recorded(a, n - 1), a[n - 1].share);
    }
  }

  lemma RecordedSame(a: seq<Item>, b: seq<Item>, n: nat)
    requires n <= |a| && n <= |b| && forall i | 0 <= i < n :: a[i].share == b[i].share
    ensures Recorded(a, n) == Recorded(b, n)
  {
    forall x | x in Recorded(a, n) ensures x in Recorded(b, n) {
      var i :| 0 <= i < n && a[i].share == x;
      assert b[i].share == x;
    }
    forall x | x in Recorded(b, n) ensures x in Recorded(a, n) {
      var i :| 0 <= i < n && b[i].share == x;
      assert a[i].share == x;
    }
  }

  lemma AddedSize(c: set<Share>, x: Share)
    ensures |c + {x}| == |c| + if x in c then 0 else 1
  {
    if x in c { assert c + {x} == c; }
  }

  lemma SortedArena(a: seq<Item>, b: seq<Item>)
    requires ArenaOk(a, |a|) && multiset(a) == multiset(b)
    ensures ArenaOk(b, |b|) && |b| == |a| && Recorded(b, |b|) == Recorded(a, |a|)
  {
    assert |a| == |multiset(a)| == |b|;
    RecordedWithin(a, b);
    RecordedWithin(b, a);
    assert Recorded(b, |b|) == Recorded(a, |a|);
    forall i | 0 <= i < |b| ensures b[i].share.ntime != 0 {
      assert b[i] in multiset(b);
      assert b[i] in a;
    }
    RecordedCount(a, |a|);
    RecordedCount(b, |b|);
  }

  lemma RecordedWithin(a: seq<Item>, b: seq<Item>)
    requires multiset(a) == multiset(b)
    ensures Recorded(a, |a|) <= Recorded(b, |b|)
  {
    forall i | 0 <= i < |a| ensures a[i].share in Recorded(b, |b|) {
      assert a[i] in multiset(a);
      assert a[i] in b;
    }
  }

  /** find_first_less_than on the sorted arena: the first stale position, or -1. */
  method FindFirstLessThan(e: Env, a: seq<Item>) returns (r: int)
    requires Descending(e, a)
    ensures -1 <= r < |a|
    ensures forall i | 0 <= i < |a| :: KeyOf(e, a[i]) >= e.cutoff <==> (r == -1 || i < r)
  {
    var low, high := 0, |a| - 1;
    r := -1;
    while low <= high
      invariant 0 <= low <= high + 1 <= |a|
      invariant if r == -1 then high == |a| - 1 else high == r - 1 && r < |a| && KeyOf(e, a[r]) < e.cutoff
      invariant low > 0 ==> KeyOf(e, a[low - 1]) >= e.cutoff
    {
      var mid := low + (high - low) / 2;
      if KeyOf(e, a[mid]) < e.cutoff {
        r := mid;
        high := mid - 1;
      } else {
        low := mid + 1;
      }
    }
  }

  /** With the fresh shares in front, their number decides as the program's tests do. */
  lemma FreshFront(e: Env, a: seq<Item>, r: int)
    requires DistinctShares(a, |a|) && -1 <= r < |a|
    requires forall i | 0 <= i < |a| :: KeyOf(e, a[i]) >= e.cutoff <==> (r == -1 || i < r)
    ensures Fresh(e, Recorded(a, |a|)) == Recorded(a, if r == -1 then |a| else r)
    ensures |Fresh(e, Recorded(a, |a|))| == if r == -1 then |a| else r
  {
    var f := if r == -1 then |a| else r;
    assert Fresh(e, Recorded(a, |a|)) == Recorded(a, f);
    RecordedCount(a, f);
  }

  /** k is where s goes in its bucket, between positions prev and cur. */
  ghost predicate PlaceOf(items: seq<Item>, n: nat, lists: seq<seq<nat>>, s: Share, prev: int, cur: int, k: nat) {
    && |lists| == BUCKETS && Listed(items, n, Bucket(s), lists[Bucket(s)])
    && IsPlace(items, lists[Bucket(s)], s.nonce, k)
    && prev == Before(lists[Bucket(s)], k) && cur == At(lists[Bucket(s)], k)
  }

  lemma AfterPrev(items: seq<Item>, index: seq<int>, n: nat, lists: seq<seq<nat>>, s: Share, prev: int, cur: int,
                  k: nat)
      returns (lists': seq<seq<nat>>)
    requires Indexed(items, index, n, lists) && n < |items| && PlaceOf(items, n, lists, s, prev, cur, k) && prev != NIL
    ensures Indexed(Spliced(items, n, s, prev), index, n + 1, lists')
  {
    var b := Bucket(s);
    assert BucketOk(items, n, index[b], b, lists[b]);
    SplicedIndex(items, index, n, lists, s, k);
    SpliceFacts(items, n, index[b], s, lists[b], k);
    lists' := lists[b := Insert(lists[b], k, n)];
  }

  lemma AtFront(items: seq<Item>, index: seq<int>, n: nat, lists: seq<seq<nat>>, s: Share, cur: int, k: nat)
      returns (lists': seq<seq<nat>>)
    requires Indexed(items, index, n, lists) && n < |items| && PlaceOf(items, n, lists, s, NIL, cur, k)
    ensures Indexed(Patched(Spliced(items, n, s, NIL), n, cur), index[Bucket(s) := n], n + 1, lists')
  {
    var b := Bucket(s);
    assert BucketOk(items, n, index[b], b, lists[b]);
    SplicedIndex(items, index, n, lists, s, k);
    SpliceFacts(items, n, index[b], s, lists[b], k);
    assert SetNext(Spliced(items, n, s, NIL), n, cur) == Patched(Spliced(items, n, s, NIL), n, cur);
    lists' := lists[b := Insert(lists[b], k, n)];
  }

  /** The tests of datum_stratum_dupes_cleanup on the first stale position. */
  predicate Expands(i: int, max: nat) { i == -1 || i == max - 1 || i >= max * 95 / 100 }

  function Blank(n: nat): seq<Item> { seq(n, _ => EMPTY) }

  /** The first n positions hold the shares of a, in its order, and the rest is cleared. */
  ghost predicate Arranged(items: seq<Item>, n: nat, a: seq<Item>) {
    && n <= |items| && n <= |a| && (forall i | 0 <= i < n :: items[i].share == a[i].share)
    && forall i | n <= i < |items| :: items[i] == EMPTY
  }

  lemma CutArena(e: Env, a: seq<Item>, i: int)
    requires ArenaOk(a, |a|) && |a| >= 4 && -1 <= i < |a|
    requires forall j | 0 <= j < |a| :: KeyOf(e, a[j]) >= e.cutoff <==> (i == -1 || j < i)
    ensures Expands(i, |a|) <==> Grows(e, Recorded(a, |a|), |a|)
    ensures Expands(i, |a|) ==> var next := a + Blank(|a| * 125 / 100 - |a|);
      ArenaOk(next, |a|) && |a| < |next| && Recorded(next, |a|) == Retained(e, Recorded(a, |a|), |a|)
    ensures !Expands(i, |a|) ==> var next := a[..i] + Blank(|a| - i);
      ArenaOk(next, i) && i < |a| == |next| && Recorded(next, i) == Retained(e, Recorded(a, |a|), |a|)
  {
    FreshFront(e, a, i);
    if Expands(i, |a|) {
      SamePrefix(a, a + Blank(|a| * 125 / 100 - |a|), |a|);
    } else {
      SamePrefix(a, a[..i] + Blank(|a| - i), i);
    }
  }

  lemma SamePrefix(a: seq<Item>, b: seq<Item>, n: nat)
    requires ArenaOk(a, |a|) && n <= |a| && n <= |b|
    requires (forall j | 0 <= j < n :: b[j] == a[j]) && forall j | n <= j < |b| :: b[j] == EMPTY
    ensures ArenaOk(b, n) && Recorded(b, n) == Recorded(a, n)
  {
  }

  lemma SameShares(a: seq<Item>, b: seq<Item>, n: nat)
    requires n <= |a| == |b| && forall j | 0 <= j < |a| :: b[j].share == a[j].share
    ensures Recorded(b, n) == Recorded(a, n) && (ArenaOk(a, n) ==> ArenaOk(b, n))
  {
  }

  /** The first half of a cleanup: sort, find the first stale item, grow or clear from there. */
  method SortAndCut(e: Env, a: seq<Item>) returns (cut: seq<Item>, ghost n: nat)
    requires Sorts(e) && |a| >= 4 && ArenaOk(a, |a|)
    ensures ArenaOk(cut, n) && n < |cut| && Recorded(cut, n) == Retained(e, Recorded(a, |a|), |a|)
    ensures |cut| == if Grows(e, Recorded(a, |a|), |a|) then |a| * 125 / 100 else |a|
    ensures Arranged(cut, n, e.qsort(a)) && n <= |a| && (n == |a| <==> Grows(e, Recorded(a, |a|), |a|))
  {
    var sorted := e.qsort(a);
    SortedArena(a, sorted);
    var i := FindFirstLessThan(e, sorted);
    CutArena(e, sorted, i);
    if Expands(i, |a|) {
      cut, n := sorted + Blank(|a| * 125 / 100 - |a|), |a|;
    } else {
      cut, n := sorted[..i] + Blank(|a| - i), i;
    }
  }

  /** Slot n filled with s and spliced in after prev. */
  function Spliced(items: seq<Item>, n: nat, s: Share, prev: int): seq<Item>
    requires n < |items| && (prev == NIL || 0 <= prev < n)
  {
    Link(items[n := Item(s, NIL)], n, prev, if prev == NIL then NIL else items[prev].next)
  }

  /** The arena has s behind what it had before. */
  ghost predicate Appended(items: seq<Item>, n': nat, was: seq<Item>, n: nat, s: Share) {
    && |items| == |was| && n' == n + 1 <= |was| && items[n].share == s
    && forall i | 0 <= i < n :: items[i].share == was[i].share
  }

  lemma AddedShare(items: seq<Item>, n: nat, s: Share, prev: int)
    requires ArenaOk(items, n) && n < |items| && (prev == NIL || 0 <= prev < n)
    requires s.ntime != 0 && s !in Recorded(items, n)
    ensures ArenaOk(Spliced(items, n, s, prev), n + 1)
    ensures Recorded(Spliced(items, n, s, prev), n + 1) == Recorded(items, n) + {s}
  {
    var items' := Spliced(items, n, s, prev);
    assert forall i | 0 <= i < |items| :: items'[i].share == if i == n then s else items[i].share;
    assert forall i | 0 <= i < n :: items[i].share in Recorded(items, n);
    AddedArena(items, items', n, s);
  }

  lemma AddedArena(items: seq<Item>, items': seq<Item>, n: nat, s: Share)
    requires ArenaOk(items, n) && n < |items| == |items'| && s.ntime != 0
    requires forall i | 0 <= i < |items| :: items'[i].share == if i == n then s else items[i].share
    requires forall i | 0 <= i < n :: items[i].share != s
    ensures ArenaOk(items', n + 1) && Recorded(items', n + 1) == Recorded(items, n) + {s}
  {
    RecordedSame(items, items', n);
    RecordedNext(items', n + 1);
  }

  /** Writing slot n and linking it in at its place keeps the index in order. */
  lemma SplicedIndex(items: seq<Item>, index: seq<int>, n: nat, lists: seq<seq<nat>>, s: Share, k: nat)
    requires Indexed(items, index, n, lists) && n < |items|
    requires Listed(items, n, Bucket(s), lists[Bucket(s)]) && IsPlace(items, lists[Bucket(s)], s.nonce, k)
    ensures var l := lists[Bucket(s)];
            Indexed(Link(items[n := Item(s, NIL)], n, Before(l, k), At(l, k)),
                    if k == 0 then index[Bucket(s) := n] else index, n + 1, lists[Bucket(s) := Insert(l, k, n)])
  {
    var items0 := items[n := Item(s, NIL)];
    IndexIgnoresRest(items, items0, index, n, lists);
    assert BucketOk(items0, n, index[Bucket(s)], Bucket(s), lists[Bucket(s)]);
    LinkKeepsIndex(items0, index, n, lists, k);
  }

  lemma SpliceFacts(items: seq<Item>, n: nat, head: int, s: Share, l: seq<nat>, k: nat)
    requires BucketOk(items, n, head, Bucket(s), l) && n < |items| && k <= |l|
    ensures k > 0 ==> Spliced(items, n, s, Before(l, k)) == Link(items[n := Item(s, NIL)], n, Before(l, k), At(l, k))
    ensures k == 0
      ==> SetNext(Spliced(items, n, s, NIL), n, At(l, 0)) == Link(items[n := Item(s, NIL)], n, NIL, At(l, 0))
  {
  }
}
