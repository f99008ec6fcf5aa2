/** The link structure of the duplicate-share table (src/datum_stratum_dupes.c): an arena of
    items with intrusive next links, one list per value of the low 16 bits of the nonce.
    Pointers are arena positions; NIL is NULL. */
module DupeIndex {
  import opened Wrappers

  const BUCKETS: nat := 65536
  const NIL: int := -1

  /** The tuple that identifies a share; extraA and extraB are the two halves of the extranonce. */
  datatype Share = Share(nonce: nat, job: nat, ntime: nat, version: nat, extraA: nat, extraB: nat)

  datatype Item = Item(share: Share, next: int)

  const EMPTY: Item := Item(Share(0, 0, 0, 0, 0, 0), NIL)

  function Bucket(s: Share): (b: nat)
    ensures b < BUCKETS
  {
    s.nonce % BUCKETS
  }

  // ---- one bucket ----

  /** The list holds positions below n, all of bucket b. */
  ghost predicate Listed(items: seq<Item>, n: nat, b: nat, l: seq<nat>) {
    n <= |items| && forall k | 0 <= k < |l| :: l[k] < n && Bucket(items[l[k]].share) == b
  }

  function At(l: seq<nat>, k: nat): int { if k < |l| then l[k] else NIL }
  function Before(l: seq<nat>, k: nat): int { if 0 < k <= |l| then l[k - 1] else NIL }

  /** The links, followed from the head, spell out the list. */
  ghost predicate Linked(items: seq<Item>, head: int, l: seq<nat>)
    requires forall k | 0 <= k < |l| :: l[k] < |items|
  {
    head == At(l, 0) && forall k | 0 <= k < |l| :: items[l[k]].next == At(l, k + 1)
  }

  /** By nonce, and by arena position where nonces are equal. */
  predicate Precedes(items: seq<Item>, i: nat, j: nat)
    requires i < |items| && j < |items|
  {
    items[i].share.nonce < items[j].share.nonce || (items[i].share.nonce == items[j].share.nonce && i < j)
  }

  ghost predicate Ordered(items: seq<Item>, l: seq<nat>)
    requires forall k | 0 <= k < |l| :: l[k] < |items|
  {
    forall j, k | 0 <= j < k < |l| :: Precedes(items, l[j], l[k])
  }

  ghost predicate Distinct(l: seq<nat>) { forall j, k | 0 <= j < k < |l| :: l[j] != l[k] }

  /** Every position below n of bucket b is on the list. */
  ghost predicate Complete(items: seq<Item>, n: nat, b: nat, l: seq<nat>)
    requires n <= |items|
  {
    forall i | 0 <= i < n && Bucket(items[i].share) == b :: i in l
  }

  ghost predicate BucketOk(items: seq<Item>, n: nat, head: int, b: nat, l: seq<nat>) {
    Listed(items, n, b, l) && Linked(items, head, l) && Ordered(items, l) && Distinct(l) && Complete(items, n, b, l)
  }

  /** All buckets are acyclic, sorted and complete for the first n positions of the arena. */
  ghost predicate Indexed(items: seq<Item>, index: seq<int>, n: nat, lists: seq<seq<nat>>) {
    && |index| == BUCKETS && |lists| == BUCKETS
    && forall b | 0 <= b < BUCKETS :: BucketOk(items, n, index[b], b, lists[b])
  }

  // ---- linking position n in ----

  function SetNext(items: seq<Item>, i: nat, next: int): (r: seq<Item>)
    requires i < |items|
    ensures |r| == |items| && r[i] == Item(items[i].share, next)
    ensures forall j | 0 <= j < |items| && j != i :: r[j] == items[j]
  {
    items[i := Item(items[i].share, next)]
  }

  function Link(items: seq<Item>, n: nat, prev: int, next: int): (r: seq<Item>)
    requires n < |items| && (prev == NIL || 0 <= prev < n)
    ensures |r| == |items| && forall i | 0 <= i < |items| :: r[i].share == items[i].share
    ensures forall i | 0 <= i < |items| && i != n && i != prev :: r[i] == items[i]
    ensures r[n].next == next && (prev != NIL ==> r[prev].next == n)
  {
    var a := SetNext(items, n, next);
    if prev == NIL then a else SetNext(a, prev, n)
  }

  function Insert(l: seq<nat>, k: nat, n: nat): (r: seq<nat>)
    requires k <= |l|
    ensures |r| == |l| + 1 && r[k] == n
    ensures forall j | 0 <= j < k :: r[j] == l[j]
    ensures forall j | k < j < |r| :: r[j] == l[j - 1]
  {
    l[..k] + [n] + l[k..]
  }

  /** k is the place for position n: after everything not above it, before everything above. */
  ghost predicate IsPlace(items: seq<Item>, l: seq<nat>, x: nat, k: nat)
    requires forall j | 0 <= j < |l| :: l[j] < |items|
  {
    && k <= |l|
    && (forall j | 0 <= j < k :: items[l[j]].share.nonce <= x)
    && (forall j | k <= j < |l| :: items[l[j]].share.nonce > x)
  }

  lemma OtherBucketKept(items: seq<Item>, items': seq<Item>, n: nat, prev: int, head: int, c: nat, l: seq<nat>)
    requires BucketOk(items, n, head, c, l) && n < |items| == |items'|
    requires forall i | 0 <= i < |items| :: items'[i].share == items[i].share
    requires forall i | 0 <= i < |items| && i != n && i != prev :: items'[i] == items[i]
    requires Bucket(items[n].share) != c && (prev == NIL || (0 <= prev < n && Bucket(items[prev].share) != c))
    ensures BucketOk(items', n + 1, head, c, l)
  {
  }

  lemma InsertLinked(items: seq<Item>, n: nat, head: int, l: seq<nat>, k: nat)
    requires (forall j | 0 <= j < |l| :: l[j] < n) && n < |items| && Linked(items, head, l) && Distinct(l) && k <= |l|
    ensures Linked(Link(items, n, Before(l, k), At(l, k)), if k == 0 then n else head, Insert(l, k, n))
  {
    var items', l' := Link(items, n, Before(l, k), At(l, k)), Insert(l, k, n);
    forall j | 0 <= j < |l'| ensures l'[j] < |items| && items'[l'[j]].next == At(l', j + 1) {
      LinkAt(items, n, l, k, j);
    }
  }

  /** What the links are around the place k, for each place j of the new list. */
  lemma LinkAt(items: seq<Item>, n: nat, l: seq<nat>, k: nat, j: nat)
    requires (forall i | 0 <= i < |l| :: l[i] < n) && n < |items| && Distinct(l) && k <= |l| && j <= |l|
    requires forall i | 0 <= i < |l| :: items[l[i]].next == At(l, i + 1)
    ensures var items', l' := Link(items, n, Before(l, k), At(l, k)), Insert(l, k, n);
            l'[j] < |items| && items'[l'[j]].next == At(l', j + 1)
  {
    if j < k {
      LinkBefore(items, n, l, k, j);
    } else if j > k {
      LinkAfter(items, n, l, k, j);
    }
  }

  lemma LinkBefore(items: seq<Item>, n: nat, l: seq<nat>, k: nat, j: nat)
    requires (forall i | 0 <= i < |l| :: l[i] < n) && n < |items| && Distinct(l) && j < k <= |l|
    requires items[l[j]].next == At(l, j + 1)
    ensures var items', l' := Link(items, n, l[k - 1], At(l, k)), Insert(l, k, n);
            items'[l'[j]].next == At(l', j + 1)
  {
    if j < k - 1 { assert l[j] != l[k - 1]; }
  }

  lemma LinkAfter(items: seq<Item>, n: nat, l: seq<nat>, k: nat, j: nat)
    requires (forall i | 0 <= i < |l| :: l[i] < n) && n < |items| && Distinct(l) && k < j <= |l|
    requires items[l[j - 1]].next == At(l, j)
    ensures var items', l' := Link(items, n, Before(l, k), At(l, k)), Insert(l, k, n);
            items'[l'[j]].next == At(l', j + 1)
  {
    if k > 0 { assert l[k - 1] != l[j - 1]; }
  }

  lemma InsertOrdered(items: seq<Item>, n: nat, l: seq<nat>, k: nat)
    requires (forall j | 0 <= j < |l| :: l[j] < n) && n < |items| && Ordered(items, l)
    requires IsPlace(items, l, items[n].share.nonce, k)
    ensures Ordered(items, Insert(l, k, n)) && (Distinct(l) ==> Distinct(Insert(l, k, n)))
  {
  }

  lemma InsertComplete(items: seq<Item>, n: nat, b: nat, l: seq<nat>, k: nat)
    requires n < |items| && Complete(items, n, b, l) && k <= |l|
    ensures Complete(items, n + 1, b, Insert(l, k, n))
  {
    var l' := Insert(l, k, n);
    forall i | 0 <= i < n + 1 && Bucket(items[i].share) == b ensures i in l' {
      if i < n {
        var j :| 0 <= j < |l| && l[j] == i;
        assert l'[if j < k then j else j + 1] == i;
      } else {
        assert l'[k] == n;
      }
    }
  }

  lemma InsertListed(items: seq<Item>, n: nat, b: nat, l: seq<nat>, k: nat)
    requires Listed(items, n, b, l) && n < |items| && b == Bucket(items[n].share) && k <= |l|
    ensures Listed(items, n + 1, b, Insert(l, k, n))
  {
  }

  lemma SharesDecide(items: seq<Item>, items': seq<Item>, n: nat, b: nat, l: seq<nat>)
    requires |items| == |items'| && forall i | 0 <= i < |items| :: items'[i].share == items[i].share
    requires Listed(items, n, b, l) && Ordered(items, l) && Complete(items, n, b, l)
    ensures Listed(items', n, b, l) && Ordered(items', l) && Complete(items', n, b, l)
  {
  }

  lemma OwnBucketGrows(items: seq<Item>, n: nat, head: int, b: nat, l: seq<nat>, k: nat)
    requires BucketOk(items, n, head, b, l) && n < |items| && b == Bucket(items[n].share)
    requires IsPlace(items, l, items[n].share.nonce, k)
    ensures BucketOk(Link(items, n, Before(l, k), At(l, k)), n + 1, if k == 0 then n else head, b, Insert(l, k, n))
  {
    var items', l' := Link(items, n, Before(l, k), At(l, k)), Insert(l, k, n);
    InsertListed(items, n, b, l, k);
    InsertOrdered(items, n, l, k);
    InsertComplete(items, n, b, l, k);
    SharesDecide(items, items', n + 1, b, l');
    InsertLinked(items, n, head, l, k);
  }

  /** Linking position n into its place keeps every bucket in order. */
  lemma LinkKeepsIndex(items: seq<Item>, index: seq<int>, n: nat, lists: seq<seq<nat>>, k: nat)
    requires Indexed(items, index, n, lists) && n < |items|
    requires var b := Bucket(items[n].share);
             Listed(items, n, b, lists[b]) && IsPlace(items, lists[b], items[n].share.nonce, k)
    ensures var b := Bucket(items[n].share);
            var l := lists[b];
            Indexed(Link(items, n, Before(l, k), At(l, k)), if k == 0 then index[b := n] else index, n + 1,
                    lists[b := Insert(l, k, n)])
  {
    var b := Bucket(items[n].share);
    var l := lists[b];
    var items' := Link(items, n, Before(l, k), At(l, k));
    var index', lists' := if k == 0 then index[b := n] else index, lists[b := Insert(l, k, n)];
    forall c | 0 <= c < BUCKETS ensures BucketOk(items', n + 1, index'[c], c, lists'[c]) {
      assert BucketOk(items, n, index[c], c, lists[c]);
      if c == b {
        OwnBucketGrows(items, n, index[b], b, l, k);
      } else {
        OtherBucketKept(items, items', n, Before(l, k), index[c], c, lists[c]);
      }
    }
  }

  /** The links of positions from n on do not matter. */
  lemma IndexIgnoresRest(items: seq<Item>, items': seq<Item>, index: seq<int>, n: nat, lists: seq<seq<nat>>)
    requires Indexed(items, index, n, lists) && n <= |items'| && n <= |items|
    requires forall i | 0 <= i < n :: items'[i] == items[i]
    ensures Indexed(items', index, n, lists)
  {
    forall b | 0 <= b < BUCKETS ensures BucketOk(items', n, index[b], b, lists[b]) {
      assert BucketOk(items, n, index[b], b, lists[b]);
    }
  }

  lemma EmptyIndex(items: seq<Item>)
    ensures Indexed(items, seq(BUCKETS, _ => NIL), 0, seq(BUCKETS, _ => []))
  {
  }

  // ---- walking a bucket ----

  /** What the walk of datum_stratum_check_for_dupe answers from position i on, within `fuel` links:
      past the nonce or at the end it is no duplicate, at the share itself it is. */
  function WalkAnswer(items: seq<Item>, i: int, s: Share, fuel: nat): Option<bool>
    decreases fuel
  {
    if !(0 <= i < |items|) || items[i].share.nonce > s.nonce then Some(false)
    else if items[i].share == s then Some(true)
    else if fuel == 0 then None
    else WalkAnswer(items, items[i].next, s, fuel - 1)
  }

  ghost predicate Answers(items: seq<Item>, i: int, s: Share, dup: bool) {
    exists fuel :: WalkAnswer(items, i, s, fuel) == Some(dup)
  }

  /** The walk does not end. */
  ghost predicate NeverAnswers(items: seq<Item>, i: int, s: Share) {
    forall fuel :: WalkAnswer(items, i, s, fuel) == None
  }

  /** The walk of the reorganize loop: the first position whose nonce is above x. */
  method FindPlace(items: seq<Item>, n: nat, head: int, x: nat, ghost b: nat, ghost l: seq<nat>)
      returns (prev: int, cur: int, ghost k: nat)
    requires BucketOk(items, n, head, b, l)
    ensures IsPlace(items, l, x, k) && prev == Before(l, k) && cur == At(l, k)
  {
    prev, cur, k := NIL, head, 0;
    while cur != NIL && items[cur].share.nonce <= x
      invariant k <= |l| && prev == Before(l, k) && cur == At(l, k)
      invariant forall j | 0 <= j < k :: items[l[j]].share.nonce <= x
      decreases |l| - k
    {
      prev, cur, k := cur, items[cur].next, k + 1;
    }
  }

  /** Where position i goes, and that linking it there keeps the index in order. */
  method Locate(items: seq<Item>, index: seq<int>, i: nat, ghost lists: seq<seq<nat>>)
      returns (prev: int, cur: int, ghost l': seq<nat>)
    requires i < |items| && Indexed(items, index, i, lists)
    ensures prev == NIL || 0 <= prev < i
    ensures var b := Bucket(items[i].share);
            Indexed(Link(items, i, prev, cur), if prev == NIL then index[b := i] else index, i + 1, lists[b := l'])
  {
    var b := Bucket(items[i].share);
    assert BucketOk(items, i, index[b], b, lists[b]);
    ghost var k;
    prev, cur, k := FindPlace(items, i, index[b], items[i].share.nonce, b, lists[b]);
    LinkKeepsIndex(items, index, i, lists, k);
    l' := Insert(lists[b], k, i);
  }

  /** The chain l leads, over items that do not stop the walk, to place k where it ends with dup. */
  ghost predicate StopsAt(items: seq<Item>, l: seq<nat>, s: Share, k: nat, dup: bool) {
    && (forall j | 0 <= j < |l| :: l[j] < |items|) && k <= |l|
    && (forall j | 0 <= j < k :: items[l[j]].share.nonce <= s.nonce && items[l[j]].share != s)
    && if dup then k < |l| && items[l[k]].share == s else k < |l| ==> items[l[k]].share.nonce > s.nonce
  }

  lemma {:induction false} ChainAnswer(items: seq<Item>, l: seq<nat>, s: Share, k: nat, dup: bool, q: nat)
    requires StopsAt(items, l, s, k, dup) && q <= k
    requires forall j | q <= j < |l| :: items[l[j]].next == At(l, j + 1)
    ensures WalkAnswer(items, At(l, q), s, |l| - q) == Some(dup)
    decreases k - q
  {
    if q < k { ChainAnswer(items, l, s, k, dup, q + 1); }
  }

  /** The loop of datum_stratum_check_for_dupe over the chain l. */
  method WalkChain(items: seq<Item>, head: int, s: Share, ghost l: seq<nat>)
      returns (dup: bool, prev: int, cur: int, ghost k: nat)
    requires (forall j | 0 <= j < |l| :: l[j] < |items|) && Linked(items, head, l)
    ensures StopsAt(items, l, s, k, dup) && prev == Before(l, k) && cur == At(l, k)
  {
    prev, cur, k := NIL, head, 0;
    while cur != NIL && items[cur].share.nonce <= s.nonce
      invariant k <= |l| && prev == Before(l, k) && cur == At(l, k)
      invariant forall j | 0 <= j < k :: items[l[j]].share.nonce <= s.nonce && items[l[j]].share != s
      decreases |l| - k
    {
      if items[cur].share == s { return true, prev, cur, k; }
      prev, cur, k := cur, items[cur].next, k + 1;
    }
    dup := false;
  }

  /** The walk of datum_stratum_check_for_dupe: it finds the share if it is recorded anywhere, and
      otherwise the place for it. */
  method FindShare(items: seq<Item>, n: nat, head: int, s: Share, ghost b: nat, ghost l: seq<nat>)
      returns (dup: bool, prev: int, cur: int, ghost k: nat)
    requires BucketOk(items, n, head, b, l) && b == Bucket(s)
    ensures dup <==> exists i | 0 <= i < n :: items[i].share == s
    ensures WalkAnswer(items, head, s, |l|) == Some(dup)
    ensures !dup ==> IsPlace(items, l, s.nonce, k) && prev == Before(l, k) && cur == At(l, k)
  {
    dup, prev, cur, k := WalkToAnswer(items, head, s, l);
    StopDecides(items, n, head, s, l, k, dup);
  }

  method WalkToAnswer(items: seq<Item>, head: int, s: Share, ghost l: seq<nat>)
      returns (dup: bool, prev: int, cur: int, ghost k: nat)
    requires (forall j | 0 <= j < |l| :: l[j] < |items|) && Linked(items, head, l)
    ensures StopsAt(items, l, s, k, dup) && prev == Before(l, k) && cur == At(l, k)
    ensures WalkAnswer(items, head, s, |l|) == Some(dup)
  {
    dup, prev, cur, k := WalkChain(items, head, s, l);
    ChainAnswer(items, l, s, k, dup, 0);
  }

  lemma StopDecides(items: seq<Item>, n: nat, head: int, s: Share, l: seq<nat>, k: nat, dup: bool)
    requires BucketOk(items, n, head, Bucket(s), l) && StopsAt(items, l, s, k, dup)
    ensures dup <==> exists i | 0 <= i < n :: items[i].share == s
    ensures !dup ==> IsPlace(items, l, s.nonce, k)
  {
    if !dup {
      PlaceFound(items, l, s.nonce, k);
      NotRecorded(items, n, head, s, l, k);
    } else {
      assert l[k] < n;
    }
  }

  lemma PlaceFound(items: seq<Item>, l: seq<nat>, x: nat, k: nat)
    requires (forall j | 0 <= j < |l| :: l[j] < |items|) && Ordered(items, l) && k <= |l|
    requires (forall j | 0 <= j < k :: items[l[j]].share.nonce <= x) && (k < |l| ==> items[l[k]].share.nonce > x)
    ensures IsPlace(items, l, x, k)
  {
    forall j | k <= j < |l| ensures items[l[j]].share.nonce > x {
      if j > k { assert Precedes(items, l[k], l[j]); }
    }
  }

  lemma NotRecorded(items: seq<Item>, n: nat, head: int, s: Share, l: seq<nat>, k: nat)
    requires BucketOk(items, n, head, Bucket(s), l) && k <= |l|
    requires forall j | 0 <= j < k :: items[l[j]].share != s
    requires forall j | k <= j < |l| :: items[l[j]].share.nonce > s.nonce
    ensures forall i | 0 <= i < n :: items[i].share != s
  {
    forall i | 0 <= i < n ensures items[i].share != s {
      if Bucket(items[i].share) == Bucket(s) {
        var j :| 0 <= j < |l| && l[j] == i;
      }
    }
  }
}
