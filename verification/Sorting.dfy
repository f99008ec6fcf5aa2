/** What a library sort promises, and why its result does not depend on the library: for an order
    that tells the elements apart there is only one sorted arrangement. */
module Sorting {

  ghost predicate SortedBy<T(!new)>(le: (T, T) -> bool, a: seq<T>) {
    forall i, j | 0 <= i < j < |a| :: le(a[i], a[j])
  }

  /** Of two different elements, not each comes before the other. */
  ghost predicate TellsApart<T(!new)>(le: (T, T) -> bool, a: seq<T>) {
    forall x, y | x in a && y in a && le(x, y) && le(y, x) :: x == y
  }

  lemma HeadsAgree<T(!new)>(le: (T, T) -> bool, a: seq<T>, b: seq<T>)
    requires |a| > 0 && |b| > 0 && multiset(a) == multiset(b)
    requires SortedBy(le, a) && SortedBy(le, b) && TellsApart(le, a)
    ensures a[0] == b[0]
  {
    assert a[0] in multiset(b) && b[0] in multiset(a);
    var i :| 0 <= i < |b| && b[i] == a[0];
    var j :| 0 <= j < |a| && a[j] == b[0];
    if i > 0 && j > 0 { assert le(b[0], b[i]) && le(a[0], a[j]); }
  }

  lemma TailMultiset<T(!new)>(a: seq<T>)
    requires |a| > 0
    ensures multiset(a[1..]) == multiset(a) - multiset{a[0]}
  {
    assert a == [a[0]] + a[1..];
  }

  lemma TailKeeps<T(!new)>(le: (T, T) -> bool, a: seq<T>)
    requires |a| > 0 && SortedBy(le, a)
    ensures SortedBy(le, a[1..]) && (TellsApart(le, a) ==> TellsApart(le, a[1..]))
  {
    assert forall x | x in a[1..] :: x in a;
  }

  lemma {:induction false} SortedIsUnique<T(!new)>(le: (T, T) -> bool, a: seq<T>, b: seq<T>)
    requires multiset(a) == multiset(b) && SortedBy(le, a) && SortedBy(le, b) && TellsApart(le, a)
    ensures a == b
    decreases |a|
  {
    assert |multiset(a)| == |a| && |multiset(b)| == |b|;
    if |a| > 0 {
      HeadsAgree(le, a, b);
      TailMultiset(a);
      TailMultiset(b);
      TailKeeps(le, a);
      TailKeeps(le, b);
      SortedIsUnique(le, a[1..], b[1..]);
    }
  }

  lemma SameMembers<T(!new)>(a: seq<T>, b: seq<T>)
    requires multiset(a) == multiset(b)
    ensures |a| == |b| && forall x | x in a :: x in b
  {
    assert |multiset(a)| == |a| && |multiset(b)| == |b|;
    forall x | x in a ensures x in b { assert x in multiset(a); assert x in multiset(b); }
  }
}
