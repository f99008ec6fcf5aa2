/** The insertion that fills the table at the front of a bucket (src/datum_stratum_dupes.c, lines
    301 and 316-318): it writes its slot into the index, and the old head into the slot's link, after
    the cleanup has moved everything.  Here is exactly when that leaves the index in order, when a
    later check finds the new share, and when a later check does not end. */
module DupePatch {
  import opened Wrappers
  import opened DupeIndex

  /** What the program does to the slot's link once the cleanup is over; cur is the old head. */
  function Patched(items: seq<Item>, slot: nat, cur: int): seq<Item>
    requires slot < |items|
  {
    if cur == NIL then items else SetNext(items, slot, cur)
  }

  lemma Position(l: seq<nat>, x: nat) returns (k: nat)
    requires x in l
    ensures k < |l| && l[k] == x
  {
    k :| 0 <= k < |l| && l[k] == x;
  }

  // ---- a well-formed index ----

  /** A position that some other member of the bucket points at is not the head. */
  lemma HeadIsSlot(items: seq<Item>, items': seq<Item>, n: nat, head: int, b: nat, l: seq<nat>, l': seq<nat>, slot: nat)
    requires BucketOk(items, n, head, b, l) && BucketOk(items', n, slot, b, l')
    requires |items| == |items'| && forall i | 0 <= i < |items| && i != slot :: items'[i] == items[i]
    requires slot < |items| && items'[slot].share == items[slot].share
    ensures head == slot
  {
    assert l'[0] == slot;
    var m := Position(l, slot);
    if m > 0 {
      var p := l[m - 1];
      assert p != slot;
      var t := Position(l', p);
    }
  }

  lemma NextIsCur(items: seq<Item>, items': seq<Item>, n: nat, b: nat, l: seq<nat>, l': seq<nat>, slot: nat, cur: int)
    requires BucketOk(items, n, slot, b, l) && BucketOk(items', n, slot, b, l')
    requires |items| == |items'| && forall i | 0 <= i < |items| && i != slot :: items'[i] == items[i]
    requires slot < |items| && items'[slot].share == items[slot].share && items'[slot].next == cur != NIL
    ensures items[slot].next == cur
  {
    assert l[0] == slot == l'[0] && l'[1] == cur;
    var u := Position(l, l'[1]);
    assert l'[0] != l'[1];
    if u > 1 {
      var z := l[u - 1];
      assert l[0] != z && l[u - 1] != l[u];
      var t := Position(l', z);
    }
  }

  /** Some lists are spelled out by the links and the index. */
  ghost predicate WellFormed(items: seq<Item>, index: seq<int>, n: nat) {
    exists lists :: Indexed(items, index, n, lists)
  }

  /** The late write leaves a well-formed index exactly when it writes what is there already. */
  lemma PatchKeepsIndex(items: seq<Item>, index: seq<int>, n: nat, lists: seq<seq<nat>>, slot: nat, b: nat, cur: int)
    requires Indexed(items, index, n, lists) && slot < |items| && b < BUCKETS
    ensures WellFormed(Patched(items, slot, cur), index[b := slot], n)
            <==> (index[b] == slot && (cur == NIL || items[slot].next == cur))
  {
    var items', index' := Patched(items, slot, cur), index[b := slot];
    if WellFormed(items', index', n) {
      var lists' :| Indexed(items', index', n, lists');
      assert BucketOk(items, n, index[b], b, lists[b]) && BucketOk(items', n, index'[b], b, lists'[b]);
      HeadIsSlot(items, items', n, index[b], b, lists[b], lists'[b], slot);
      if cur != NIL { NextIsCur(items, items', n, b, lists[b], lists'[b], slot, cur); }
    }
    if index[b] == slot && (cur == NIL || items[slot].next == cur) {
      assert items' == items && index' == index;
    }
  }

  // ---- in terms of the shares alone ----

  /** Position i comes before all others of bucket b. */
  predicate First(items: seq<Item>, n: nat, b: nat, i: nat) {
    && i < n <= |items| && Bucket(items[i].share) == b
    && forall j | 0 <= j < n && j != i && Bucket(items[j].share) == b :: Precedes(items, i, j)
  }

  /** Position cur comes before all others of bucket b but the slot. */
  predicate Second(items: seq<Item>, n: nat, b: nat, slot: nat, cur: int) {
    && 0 <= cur < n <= |items| && cur != slot && Bucket(items[cur].share) == b
    && forall j | 0 <= j < n && j != slot && j != cur && Bucket(items[j].share) == b :: Precedes(items, cur, j)
  }

  lemma HeadIsFirst(items: seq<Item>, n: nat, head: int, b: nat, l: seq<nat>, slot: nat)
    requires BucketOk(items, n, head, b, l)
    ensures head == slot <==> First(items, n, b, slot)
  {
    if head == slot {
      forall j | 0 <= j < n && j != slot && Bucket(items[j].share) == b ensures Precedes(items, slot, j) {
        var p := Position(l, j);
      }
    }
    if First(items, n, b, slot) {
      var m := Position(l, slot);
    }
  }

  lemma NextIsSecond(items: seq<Item>, n: nat, b: nat, l: seq<nat>, slot: nat, cur: int)
    requires BucketOk(items, n, slot, b, l) && slot < |items| && cur != NIL
    ensures items[slot].next == cur <==> Second(items, n, b, slot, cur)
  {
    assert l[0] == slot;
    if items[slot].next == cur {
      assert l[1] == cur && l[0] != l[1];
      forall j | 0 <= j < n && j != slot && j != cur && Bucket(items[j].share) == b ensures Precedes(items, cur, j) {
        var p := Position(l, j);
      }
    }
    if Second(items, n, b, slot, cur) {
      var u := Position(l, cur);
    }
  }

  /** The late write is right exactly when the slot holds the first of bucket b and cur the second. */
  lemma PatchRightExactly(items: seq<Item>, index: seq<int>, n: nat, lists: seq<seq<nat>>, slot: nat, b: nat, cur: int)
    requires Indexed(items, index, n, lists) && slot < |items| && b < BUCKETS
    ensures WellFormed(Patched(items, slot, cur), index[b := slot], n)
            <==> First(items, n, b, slot) && (cur == NIL || Second(items, n, b, slot, cur))
  {
    PatchKeepsIndex(items, index, n, lists, slot, b, cur);
    assert BucketOk(items, n, index[b], b, lists[b]);
    HeadIsFirst(items, n, index[b], b, lists[b], slot);
    if index[b] == slot && cur != NIL { NextIsSecond(items, n, b, lists[b], slot, cur); }
  }

  // ---- a check that does not end ----

  /** The slot's new link leads back to it: cur is in the slot's own bucket, before it. */
  predicate Loops(items: seq<Item>, n: nat, slot: nat, cur: int) {
    && 0 <= cur < n <= |items| && slot < n && Bucket(items[cur].share) == Bucket(items[slot].share)
    && Precedes(items, cur, slot)
  }

  /** Position i is on the way from cur to the slot. */
  predicate OnLoop(items: seq<Item>, n: nat, slot: nat, cur: nat, i: nat)
    requires slot < n <= |items| && cur < n
  {
    && i < n && Bucket(items[i].share) == Bucket(items[slot].share)
    && (i == cur || Precedes(items, cur, i)) && (i == slot || Precedes(items, i, slot))
  }

  /** Nothing on the loop stops the walk for s. */
  ghost predicate RunsOn(items: seq<Item>, n: nat, slot: nat, cur: int, s: Share) {
    && Loops(items, n, slot, cur) && items[slot].share.nonce <= s.nonce
    && forall i | 0 <= i < n && OnLoop(items, n, slot, cur, i) :: items[i].share != s
  }

  lemma OrderIsPosition(items: seq<Item>, n: nat, head: int, c: nat, l: seq<nat>, p: nat, m: nat)
    requires BucketOk(items, n, head, c, l) && p < |l| && m < |l|
    ensures p < m <==> Precedes(items, l[p], l[m])
  {
    if m < p { assert Precedes(items, l[m], l[p]); }
  }

  /** Links from p to m, and from m back to p. */
  ghost predicate Circle(items: seq<Item>, l: seq<nat>, p: nat, m: nat) {
    && p <= m < |l| && (forall j | 0 <= j < |l| :: l[j] < |items|)
    && (forall j | p <= j < m :: items[l[j]].next == l[j + 1]) && items[l[m]].next == l[p]
  }

  lemma {:induction false} CircleNeverEnds(items: seq<Item>, l: seq<nat>, p: nat, m: nat, s: Share, q: nat, fuel: nat)
    requires Circle(items, l, p, m) && p <= q <= m
    requires forall j | p <= j <= m :: items[l[j]].share.nonce <= s.nonce && items[l[j]].share != s
    ensures WalkAnswer(items, l[q], s, fuel) == None
    decreases fuel
  {
    if fuel > 0 { CircleNeverEnds(items, l, p, m, s, if q < m then q + 1 else p, fuel - 1); }
  }

  /** A walk that reaches a stopping item is answered. */
  lemma {:induction false} StopIsReached(items: seq<Item>, l: seq<nat>, p: nat, m: nat, s: Share, q: nat, r: nat)
    requires Circle(items, l, p, m) && p <= q <= r <= m
    requires items[l[r]].share.nonce > s.nonce || items[l[r]].share == s
    ensures WalkAnswer(items, l[q], s, r - q).Some?
    decreases r - q
  {
    if q < r { StopIsReached(items, l, p, m, s, q + 1, r); }
  }

  lemma {:induction false} ChainEnds(items: seq<Item>, l: seq<nat>, q: nat, s: Share)
    requires q <= |l| && (forall j | q <= j < |l| :: l[j] < |items| && items[l[j]].next == At(l, j + 1))
    ensures WalkAnswer(items, At(l, q), s, |l| - q).Some?
    decreases |l| - q
  {
    if q < |l| { ChainEnds(items, l, q + 1, s); }
  }

  lemma OneMore(items: seq<Item>, i: nat, s: Share, fuel: nat)
    requires i < |items| && WalkAnswer(items, items[i].next, s, fuel).Some?
    ensures !NeverAnswers(items, i, s)
  {
    assert WalkAnswer(items, i, s, fuel + 1).Some?;
  }

  /** In a bucket that the slot is not in, or only before cur, the chain from cur is as it was. */
  lemma StraightOn(items: seq<Item>, index: seq<int>, n: nat, lists: seq<seq<nat>>, slot: nat, cur: nat, s: Share)
    requires Indexed(items, index, n, lists) && slot < |items| && cur < n && cur < slot && !Loops(items, n, slot, cur)
    ensures !NeverAnswers(Patched(items, slot, cur), slot, s)
  {
    var items' := Patched(items, slot, cur);
    var c := Bucket(items[cur].share);
    var l := lists[c];
    assert BucketOk(items, n, index[c], c, l);
    var p := Position(l, cur);
    AfterCur(items, n, index[c], c, l, slot, p);
    ChainEnds(items', l, p, s);
    OneMore(items', slot, s, |l| - p);
  }

  /** The slot is not on the chain from place p on. */
  lemma AfterCur(items: seq<Item>, n: nat, head: int, c: nat, l: seq<nat>, slot: nat, p: nat)
    requires BucketOk(items, n, head, c, l) && n <= |items| && slot < |items| && p < |l| && l[p] < slot
    requires !Loops(items, n, slot, l[p])
    ensures forall j | p <= j < |l| ::
      l[j] < |items| && Patched(items, slot, l[p])[l[j]].next == At(l, j + 1)
  {
    forall j | p <= j < |l| ensures l[j] < |items| && l[j] != slot {
      OrderIsPosition(items, n, head, c, l, p, j);
    }
  }

  /** Without a second link, or into what the cleanup cleared, the chain ends. */
  lemma EndsOtherwise(items: seq<Item>, index: seq<int>, n: nat, lists: seq<seq<nat>>, slot: nat, cur: int, s: Share)
    requires Indexed(items, index, n, lists) && n <= |items| && slot < |items| && NIL <= cur < slot
    requires (forall i | n <= i < |items| :: items[i].next == NIL) && (cur == NIL || cur >= n)
    ensures !NeverAnswers(Patched(items, slot, cur), slot, s)
  {
    var items' := Patched(items, slot, cur);
    if cur != NIL {
      assert items'[cur].next == NIL;
      assert WalkAnswer(items', cur, s, 1).Some?;
      OneMore(items', slot, s, 1);
    } else if slot < n {
      var c := Bucket(items[slot].share);
      assert BucketOk(items, n, index[c], c, lists[c]);
      var m := Position(lists[c], slot);
      ChainEnds(items, lists[c], m, s);
    } else {
      assert WalkAnswer(items, slot, s, 1).Some?;
    }
  }

  lemma LoopIsCircle(items: seq<Item>, n: nat, head: int, c: nat, l: seq<nat>, p: nat, m: nat)
    requires BucketOk(items, n, head, c, l) && p <= m < |l|
    ensures Circle(Patched(items, l[m], l[p]), l, p, m)
  {
    forall j | p <= j < m ensures Patched(items, l[m], l[p])[l[j]].next == l[j + 1] { assert l[j] != l[m]; }
  }

  lemma InBucket(items: seq<Item>, n: nat, head: int, c: nat, l: seq<nat>, j: nat)
    requires BucketOk(items, n, head, c, l) && j < |l|
    ensures l[j] < n <= |items| && Bucket(items[l[j]].share) == c
  {
  }

  /** Not after in the list: the same or before in the order. */
  lemma UpTo(items: seq<Item>, n: nat, head: int, c: nat, l: seq<nat>, p: nat, j: nat)
    requires BucketOk(items, n, head, c, l) && p <= j < |l|
    ensures l[p] < |items| && l[j] < |items| && (l[j] == l[p] || Precedes(items, l[p], l[j]))
  {
    if p < j { OrderIsPosition(items, n, head, c, l, p, j); }
  }

  lemma OnLoopBetween(items: seq<Item>, n: nat, head: int, c: nat, l: seq<nat>, p: nat, m: nat, j: nat)
    requires BucketOk(items, n, head, c, l) && p <= j <= m < |l|
    ensures l[m] < n <= |items| && l[p] < n && OnLoop(items, n, l[m], l[p], l[j])
  {
    assert l[m] < n <= |items| && Bucket(items[l[m]].share) == c by { InBucket(items, n, head, c, l, m); }
    assert l[p] < n by { InBucket(items, n, head, c, l, p); }
    assert l[j] < n && Bucket(items[l[j]].share) == c by { InBucket(items, n, head, c, l, j); }
    UpTo(items, n, head, c, l, p, j);
    UpTo(items, n, head, c, l, j, m);
  }

  lemma BetweenOnLoop(items: seq<Item>, n: nat, head: int, c: nat, l: seq<nat>, p: nat, m: nat, i: nat)
      returns (j: nat)
    requires BucketOk(items, n, head, c, l) && p <= m < |l| && i < n
    requires l[m] < n <= |items| && l[p] < n && OnLoop(items, n, l[m], l[p], i)
    ensures p <= j <= m && l[j] == i
  {
    j := Position(l, i);
    OrderIsPosition(items, n, head, c, l, p, j);
    OrderIsPosition(items, n, head, c, l, j, m);
  }

  lemma LoopMembers(items: seq<Item>, n: nat, head: int, c: nat, l: seq<nat>, p: nat, m: nat, i: nat)
    requires BucketOk(items, n, head, c, l) && p <= m < |l| && i < n
    ensures l[m] < n <= |items| && l[p] < n
    ensures OnLoop(items, n, l[m], l[p], i) <==> exists j :: p <= j <= m && l[j] == i
  {
    if j :| p <= j <= m && l[j] == i { OnLoopBetween(items, n, head, c, l, p, m, j); }
    if OnLoop(items, n, l[m], l[p], i) { var j := BetweenOnLoop(items, n, head, c, l, p, m, i); }
  }

  lemma LoopPositions(items: seq<Item>, index: seq<int>, n: nat, lists: seq<seq<nat>>, slot: nat, cur: nat)
      returns (c: nat, p: nat, m: nat)
    requires Indexed(items, index, n, lists) && n <= |items| && Loops(items, n, slot, cur)
    ensures c < BUCKETS && p <= m < |lists[c]| && lists[c][p] == cur && lists[c][m] == slot
  {
    c := Bucket(items[slot].share);
    assert BucketOk(items, n, index[c], c, lists[c]);
    p := Position(lists[c], cur);
    m := Position(lists[c], slot);
    OrderIsPosition(items, n, index[c], c, lists[c], p, m);
  }

  /** No item of the circle has a higher nonce than the last. */
  ghost predicate LastIsHighest(items: seq<Item>, l: seq<nat>, p: nat, m: nat) {
    && p <= m < |l| && (forall j | 0 <= j < |l| :: l[j] < |items|)
    && forall j | p <= j <= m :: items[l[j]].share.nonce <= items[l[m]].share.nonce
  }

  lemma LoopIsOrdered(items: seq<Item>, n: nat, head: int, c: nat, l: seq<nat>, p: nat, m: nat)
    requires BucketOk(items, n, head, c, l) && p <= m < |l|
    ensures LastIsHighest(Patched(items, l[m], l[p]), l, p, m)
  {
    forall j | p <= j <= m ensures items[l[j]].share.nonce <= items[l[m]].share.nonce {
      assert j == m || Precedes(items, l[j], l[m]);
    }
  }

  lemma LoopHangsExactly(items: seq<Item>, l: seq<nat>, p: nat, m: nat, s: Share)
    requires p <= m < |l| && l[m] < |items| && Circle(Patched(items, l[m], l[p]), l, p, m)
    requires LastIsHighest(Patched(items, l[m], l[p]), l, p, m)
    ensures NeverAnswers(Patched(items, l[m], l[p]), l[m], s)
            <==> items[l[m]].share.nonce <= s.nonce && forall j | p <= j <= m :: items[l[j]].share != s
  {
    var items' := Patched(items, l[m], l[p]);
    CircleHangsExactly(items', l, p, m, s);
    assert forall j | p <= j <= m :: items'[l[j]].share == items[l[j]].share;
  }

  lemma CircleHangsExactly(items: seq<Item>, l: seq<nat>, p: nat, m: nat, s: Share)
    requires Circle(items, l, p, m) && LastIsHighest(items, l, p, m)
    ensures NeverAnswers(items, l[m], s)
            <==> items[l[m]].share.nonce <= s.nonce && forall j | p <= j <= m :: items[l[j]].share != s
  {
    if items[l[m]].share.nonce > s.nonce {
      AnsweredBy(items, l[m], s, 0);
    } else if j :| p <= j <= m && items[l[j]].share == s {
      StopIsReached(items, l, p, m, s, p, j);
      OneMore(items, l[m], s, j - p);
    } else {
      forall fuel ensures WalkAnswer(items, l[m], s, fuel) == None { CircleNeverEnds(items, l, p, m, s, m, fuel); }
    }
  }

  lemma AnsweredBy(items: seq<Item>, i: int, s: Share, fuel: nat)
    requires WalkAnswer(items, i, s, fuel).Some?
    ensures !NeverAnswers(items, i, s) && Answers(items, i, s, WalkAnswer(items, i, s, fuel).value)
  {
  }

  /** A check that starts at the patched slot does not end exactly when the slot's new link leads back
      to it and nothing on that loop stops the walk. */
  lemma HangsExactly(items: seq<Item>, index: seq<int>, n: nat, lists: seq<seq<nat>>, slot: nat, cur: int, s: Share)
    requires Indexed(items, index, n, lists) && n <= |items| && slot < |items| && NIL <= cur < slot
    requires forall i | n <= i < |items| :: items[i].next == NIL
    ensures NeverAnswers(Patched(items, slot, cur), slot, s) <==> RunsOn(items, n, slot, cur, s)
  {
    if Loops(items, n, slot, cur) {
      var c, p, m := LoopPositions(items, index, n, lists, slot, cur);
      var l := lists[c];
      assert BucketOk(items, n, index[c], c, l);
      LoopIsCircle(items, n, index[c], c, l, p, m);
      LoopIsOrdered(items, n, index[c], c, l, p, m);
      LoopHangsExactly(items, l, p, m, s);
      forall i | 0 <= i < n ensures OnLoop(items, n, slot, cur, i) <==> exists j :: p <= j <= m && l[j] == i {
        LoopMembers(items, n, index[c], c, l, p, m, i);
      }
    } else if 0 <= cur < n {
      StraightOn(items, index, n, lists, slot, cur, s);
    } else {
      EndsOtherwise(items, index, n, lists, slot, cur, s);
    }
  }

  // ---- whether the new share is found again ----

  /** The slot holds s, or the old head's position does and the slot does not stop the walk before it. */
  predicate Finds(items: seq<Item>, n: nat, slot: nat, cur: int, s: Share)
    requires n <= |items|
  {
    || (slot < n && items[slot].share == s)
    || (0 <= cur < n && items[cur].share == s && (slot < n ==> items[slot].share.nonce <= s.nonce))
  }

  /** No share of its bucket has a lower nonce than s. */
  ghost predicate IsLowest(items: seq<Item>, n: nat, s: Share)
    requires n <= |items|
  {
    forall i | 0 <= i < n && Bucket(items[i].share) == Bucket(s) ::
      items[i].share == s || items[i].share.nonce > s.nonce
  }

  lemma {:induction false} SameAnswer(items: seq<Item>, i: int, s: Share, fuel: nat, more: nat)
    requires fuel <= more && WalkAnswer(items, i, s, fuel).Some?
    ensures WalkAnswer(items, i, s, more) == WalkAnswer(items, i, s, fuel)
    decreases fuel
  {
    if WalkAnswer(items, i, s, 0) == None { SameAnswer(items, items[i].next, s, fuel - 1, more - 1); }
  }

  /** A walk answers one thing or never ends. */
  lemma OneAnswer(items: seq<Item>, i: int, s: Share)
    ensures !(Answers(items, i, s, true) && Answers(items, i, s, false))
    ensures NeverAnswers(items, i, s) <==> !Answers(items, i, s, true) && !Answers(items, i, s, false)
  {
    if Answers(items, i, s, true) && Answers(items, i, s, false) {
      var f: nat :| WalkAnswer(items, i, s, f) == Some(true);
      var g: nat :| WalkAnswer(items, i, s, g) == Some(false);
      SameAnswer(items, i, s, f, f + g);
      SameAnswer(items, i, s, g, f + g);
    }
    forall fuel | WalkAnswer(items, i, s, fuel).Some?
      ensures Answers(items, i, s, WalkAnswer(items, i, s, fuel).value)
    {
      AnsweredBy(items, i, s, fuel);
    }
  }

  /** Links from members of l lead to members of l or end, and none of them is s. */
  ghost predicate ClosedWithout(items: seq<Item>, l: seq<nat>, s: Share) {
    forall i | i in l ::
      i < |items| && items[i].share != s && (items[i].next == NIL || (items[i].next >= 0 && items[i].next in l))
  }

  lemma {:induction false} ClosedNeverFinds(items: seq<Item>, l: seq<nat>, i: nat, s: Share, fuel: nat)
    requires ClosedWithout(items, l, s) && i in l
    ensures WalkAnswer(items, i, s, fuel) != Some(true)
    decreases fuel
  {
    if fuel > 0 && items[i].next != NIL { ClosedNeverFinds(items, l, items[i].next, s, fuel - 1); }
  }

  /** In another bucket, s is not found, whether or not the slot closes a circle there. */
  lemma OtherBucketIsClosed(items: seq<Item>, n: nat, head: int, c: nat, l: seq<nat>, slot: nat, cur: int, s: Share)
    requires BucketOk(items, n, head, c, l) && n <= |items| && c != Bucket(s) && slot < |items|
    requires cur == NIL || (cur >= 0 && cur in l)
    ensures ClosedWithout(Patched(items, slot, cur), l, s)
  {
    var items' := Patched(items, slot, cur);
    forall i | i in l
      ensures items'[i].share != s && (items'[i].next == NIL || (items'[i].next >= 0 && items'[i].next in l))
    {
      var j := Position(l, i);
      assert items[l[j]].next == At(l, j + 1);
    }
  }

  lemma FindsIt(items: seq<Item>, n: nat, slot: nat, cur: int, s: Share)
    requires n <= |items| && slot < |items| && NIL <= cur < slot && Finds(items, n, slot, cur, s)
    requires forall i | n <= i < |items| :: items[i] == EMPTY
    ensures Answers(Patched(items, slot, cur), slot, s, true)
  {
    var items' := Patched(items, slot, cur);
    if items[slot].share == s {
      assert WalkAnswer(items', slot, s, 0) == Some(true);
    } else {
      assert WalkAnswer(items', cur, s, 0) == Some(true);
      assert WalkAnswer(items', slot, s, 1) == Some(true);
    }
  }

  /** From the old head on, the walk does not come to s unless it is there. */
  lemma HeadNeverFinds(items: seq<Item>, index: seq<int>, n: nat, lists: seq<seq<nat>>, slot: nat, cur: nat, s: Share,
                       fuel: nat)
    requires Indexed(items, index, n, lists) && n <= |items| && slot < |items| && cur < slot && s.ntime != 0
    requires IsLowest(items, n, s) && (forall i | n <= i < |items| :: items[i] == EMPTY) && items[cur].share != s
    ensures WalkAnswer(Patched(items, slot, cur), cur, s, fuel) != Some(true)
  {
    var items' := Patched(items, slot, cur);
    if cur >= n {
      assert items'[cur] == EMPTY;
    } else if Bucket(items[cur].share) != Bucket(s) {
      var c := Bucket(items[cur].share);
      assert BucketOk(items, n, index[c], c, lists[c]);
      var p := Position(lists[c], cur);
      OtherBucketIsClosed(items, n, index[c], c, lists[c], slot, cur, s);
      ClosedNeverFinds(items', lists[c], cur, s, fuel);
    }
  }

  /** Nor from the slot on, where there was no old head. */
  lemma SlotNeverFinds(items: seq<Item>, index: seq<int>, n: nat, lists: seq<seq<nat>>, slot: nat, s: Share, fuel: nat)
    requires Indexed(items, index, n, lists) && n <= |items| && slot < |items| && s.ntime != 0
    requires IsLowest(items, n, s) && (forall i | n <= i < |items| :: items[i] == EMPTY) && items[slot].share != s
    ensures WalkAnswer(items, slot, s, fuel) != Some(true)
  {
    if slot < n && Bucket(items[slot].share) != Bucket(s) {
      var c := Bucket(items[slot].share);
      assert BucketOk(items, n, index[c], c, lists[c]);
      var p := Position(lists[c], slot);
      OtherBucketIsClosed(items, n, index[c], c, lists[c], slot, NIL, s);
      ClosedNeverFinds(items, lists[c], slot, s, fuel);
    }
  }

  lemma NeverFinds(items: seq<Item>, index: seq<int>, n: nat, lists: seq<seq<nat>>, slot: nat, cur: int, s: Share,
                   fuel: nat)
    requires Indexed(items, index, n, lists) && n <= |items| && slot < |items| && NIL <= cur < slot && s.ntime != 0
    requires IsLowest(items, n, s) && forall i | n <= i < |items| :: items[i] == EMPTY
    requires !Finds(items, n, slot, cur, s)
    ensures WalkAnswer(Patched(items, slot, cur), slot, s, fuel) != Some(true)
  {
    if cur == NIL {
      SlotNeverFinds(items, index, n, lists, slot, s, fuel);
    } else if fuel > 0 && (slot < n ==> items[slot].share.nonce <= s.nonce) {
      HeadNeverFinds(items, index, n, lists, slot, cur, s, fuel - 1);
    }
  }

  /** A check of s from the patched head, for the lowest nonce of its bucket: when it finds s, when it does
      not end, and that otherwise it answers that s is new. */
  lemma FoundExactly(items: seq<Item>, index: seq<int>, n: nat, lists: seq<seq<nat>>, slot: nat, cur: int, s: Share)
    requires Indexed(items, index, n, lists) && n <= |items| && slot < |items| && NIL <= cur < slot && s.ntime != 0
    requires IsLowest(items, n, s) && forall i | n <= i < |items| :: items[i] == EMPTY
    ensures var items' := Patched(items, slot, cur);
            && (Answers(items', slot, s, true) <==> Finds(items, n, slot, cur, s))
            && (NeverAnswers(items', slot, s) <==> RunsOn(items, n, slot, cur, s))
            && (Answers(items', slot, s, false) <==> !Finds(items, n, slot, cur, s) && !RunsOn(items, n, slot, cur, s))
  {
    var items' := Patched(items, slot, cur);
    HangsExactly(items, index, n, lists, slot, cur, s);
    OneAnswer(items', slot, s);
    if Finds(items, n, slot, cur, s) {
      FindsIt(items, n, slot, cur, s);
    } else {
      forall fuel ensures WalkAnswer(items', slot, s, fuel) != Some(true) {
        NeverFinds(items, index, n, lists, slot, cur, s, fuel);
      }
    }
  }
}
