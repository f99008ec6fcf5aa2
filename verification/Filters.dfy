/** What a loop that keeps some elements of a sequence leaves. */
module Filters {

  /** kept has exactly the elements of all that pass, each once, in order; at[k] is the place of kept[k]. */
  ghost predicate KeptAt<T>(all: seq<T>, pass: T -> bool, kept: seq<T>, at: seq<nat>) {
    && |at| == |kept| && (forall j, k | 0 <= j < k < |at| :: at[j] < at[k])
    && (forall k | 0 <= k < |at| :: at[k] < |all| && kept[k] == all[at[k]] && pass(kept[k]))
    && (forall i | 0 <= i < |all| && pass(all[i]) :: i in at)
  }

  ghost predicate Keeps<T>(all: seq<T>, pass: T -> bool, kept: seq<T>) { exists at :: KeptAt(all, pass, kept, at) }

  lemma KeepsNothing<T>(pass: T -> bool)
    ensures Keeps([], pass, [])
  {
    assert KeptAt([], pass, [], []);
  }

  lemma KeepsNext<T>(all: seq<T>, pass: T -> bool, kept: seq<T>, x: T)
    requires Keeps(all, pass, kept)
    ensures Keeps(all + [x], pass, if pass(x) then kept + [x] else kept)
  {
    var at :| KeptAt(all, pass, kept, at);
    if pass(x) {
      KeptNext(all, pass, kept, at, x, |all|);
    } else {
      SkippedNext(all, pass, kept, at, x);
    }
  }

  lemma KeptNext<T>(all: seq<T>, pass: T -> bool, kept: seq<T>, at: seq<nat>, x: T, n: nat)
    requires KeptAt(all, pass, kept, at) && pass(x) && n == |all|
    ensures KeptAt(all + [x], pass, kept + [x], at + [n])
  {
    forall i | 0 <= i < n + 1 && pass((all + [x])[i]) ensures i in at + [n] {
      if i < n { assert all[i] == (all + [x])[i]; }
    }
  }

  lemma SkippedNext<T>(all: seq<T>, pass: T -> bool, kept: seq<T>, at: seq<nat>, x: T)
    requires KeptAt(all, pass, kept, at) && !pass(x)
    ensures KeptAt(all + [x], pass, kept, at)
  {
    forall i | 0 <= i < |all| + 1 && pass((all + [x])[i]) ensures i in at { assert all[i] == (all + [x])[i]; }
  }

  /** So membership is as it should be. */
  lemma KeptMembers<T>(all: seq<T>, pass: T -> bool, kept: seq<T>, x: T)
    requires Keeps(all, pass, kept)
    ensures x in kept <==> x in all && pass(x)
  {
    var at :| KeptAt(all, pass, kept, at);
    if x in all && pass(x) { PassedIsKept(all, pass, kept, at, x); }
    if x in kept { KeptPassed(all, pass, kept, at, x); }
  }

  lemma PassedIsKept<T>(all: seq<T>, pass: T -> bool, kept: seq<T>, at: seq<nat>, x: T)
    requires KeptAt(all, pass, kept, at) && x in all && pass(x)
    ensures x in kept
  {
    var i :| 0 <= i < |all| && all[i] == x;
    assert i in at;
    var k :| 0 <= k < |at| && at[k] == i;
    assert kept[k] == x;
  }

  lemma KeptPassed<T>(all: seq<T>, pass: T -> bool, kept: seq<T>, at: seq<nat>, x: T)
    requires KeptAt(all, pass, kept, at) && x in kept
    ensures x in all && pass(x)
  {
    var k :| 0 <= k < |kept| && kept[k] == x;
    assert all[at[k]] == x;
  }
}
