/** The weighted draw of src/datum_chirp.c (chirp_weighted_draw): Efraimidis-Spirakis keys, the top
    n by key.  The key u^(1/w) is an arbitrary function of seed, address and weight, weights are
    reals, and the library sort is any arrangement of its input in descending key order. */
module ChirpDraw {
  import opened Sorting

  datatype Cand = Cand(addr: string, weight: real)

  type Key = Cand -> real
  type Sort = seq<Cand> -> seq<Cand>

  ghost predicate Descending(key: Key, a: seq<Cand>) {
    forall i, j | 0 <= i < j < |a| :: key(a[i]) >= key(a[j])
  }

  ghost predicate Sorts(sort: Sort, key: Key) {
    forall a: seq<Cand> :: multiset(sort(a)) == multiset(a) && Descending(key, sort(a))
  }

  /** The order of the sort: higher keys first. */
  function ByKey(key: Key): (Cand, Cand) -> bool { (x, y) => key(x) >= key(y) }

  /** Different candidates have different keys. */
  ghost predicate DistinctKeys(key: Key, a: seq<Cand>) {
    forall x, y | x in a && y in a && key(x) == key(y) :: x == y
  }

  /** Candidates of positive weight, in order. */
  function Positive(cands: seq<Cand>): seq<Cand> {
    if cands == [] then []
    else Positive(cands[..|cands| - 1]) + if cands[|cands| - 1].weight > 0.0 then [cands[|cands| - 1]] else []
  }

  function Draw(sort: Sort, cands: seq<Cand>, n: nat): seq<Cand> {
    var sorted := sort(Positive(cands));
    if |sorted| < n then sorted else sorted[..n]
  }

  /** The multiset of candidates decides the multiset of those with positive weight. */
  lemma {:induction false} PositiveCount(cands: seq<Cand>, x: Cand)
    ensures multiset(Positive(cands))[x] == if x.weight > 0.0 then multiset(cands)[x] else 0
    decreases |cands|
  {
    if cands != [] {
      var front, last := cands[..|cands| - 1], cands[|cands| - 1];
      PositiveCount(front, x);
      assert cands == front + [last];
      assert multiset(cands)[x] == multiset(front)[x] + multiset([last])[x];
      if last.weight > 0.0 {
        assert multiset(Positive(cands))[x] == multiset(Positive(front))[x] + multiset([last])[x];
      } else {
        assert Positive(cands) == Positive(front);
      }
    }
  }

  lemma PositiveOfSame(a: seq<Cand>, b: seq<Cand>)
    requires multiset(a) == multiset(b)
    ensures multiset(Positive(a)) == multiset(Positive(b))
  {
    forall x: Cand ensures multiset(Positive(a))[x] == multiset(Positive(b))[x] {
      PositiveCount(a, x);
      PositiveCount(b, x);
    }
  }

  /** With distinct keys the draw depends neither on the order of the candidates nor on the sort. */
  lemma DrawIsUnique(key: Key, sort: Sort, sort': Sort, cands: seq<Cand>, cands': seq<Cand>, n: nat)
    requires Sorts(sort, key) && Sorts(sort', key) && multiset(cands) == multiset(cands')
    requires DistinctKeys(key, Positive(cands))
    ensures Draw(sort, cands, n) == Draw(sort', cands', n)
  {
    PositiveOfSame(cands, cands');
    var p, p' := Positive(cands), Positive(cands');
    assert multiset(sort(p)) == multiset(p) && multiset(sort'(p')) == multiset(p');
    assert Descending(key, sort(p)) && Descending(key, sort'(p'));
    SameMembers(sort(p), p);
    SortedIsUnique(ByKey(key), sort(p), sort'(p'));
  }

  lemma PositiveWeights(cands: seq<Cand>, x: Cand)
    requires x in Positive(cands)
    ensures x.weight > 0.0
  {
    PositiveCount(cands, x);
    assert multiset(Positive(cands))[x] > 0;
  }

  lemma DrawSplits(key: Key, sort: Sort, cands: seq<Cand>, n: nat) returns (out: seq<Cand>)
    requires Sorts(sort, key)
    ensures var d, p := Draw(sort, cands, n), Positive(cands);
            && |d| == (if |p| < n then |p| else n) && (forall x | x in d :: x in p)
            && multiset(d + out) == multiset(p) && Descending(key, d + out)
  {
    var p := Positive(cands);
    var sorted := sort(p);
    assert multiset(sorted) == multiset(p) && Descending(key, sorted);
    SameMembers(sorted, p);
    out := sorted[|Draw(sort, cands, n)|..];
    assert Draw(sort, cands, n) + out == sorted;
  }

  /** The draw is the top n: as many as there are up to n, only candidates of positive weight, and
      whoever is left out has no higher key than anyone drawn. */
  lemma DrawIsTop(key: Key, sort: Sort, cands: seq<Cand>, n: nat) returns (out: seq<Cand>)
    requires Sorts(sort, key)
    ensures var d := Draw(sort, cands, n);
            && |d| == (if |Positive(cands)| < n then |Positive(cands)| else n)
            && multiset(d + out) == multiset(Positive(cands))
            && (forall x | x in d :: x.weight > 0.0)
            && forall i, j | 0 <= i < |d| && 0 <= j < |out| :: key(d[i]) >= key(out[j])
  {
    out := DrawSplits(key, sort, cands, n);
    var d := Draw(sort, cands, n);
    forall x | x in d ensures x.weight > 0.0 { PositiveWeights(cands, x); }
    forall i, j | 0 <= i < |d| && 0 <= j < |out| ensures key(d[i]) >= key(out[j]) {
      assert (d + out)[i] == d[i] && (d + out)[|d| + j] == out[j];
    }
  }

  /** chirp_weighted_draw: the filtering loop, the sort and the copy. */
  method WeightedDraw(sort: Sort, cands: seq<Cand>, n: nat) returns (drawn: seq<Cand>)
    ensures drawn == Draw(sort, cands, n)
  {
    var kd := [];
    for i := 0 to |cands|
      invariant kd == Positive(cands[..i])
    {
      assert cands[..i + 1][..i] == cands[..i];
      if cands[i].weight > 0.0 { kd := kd + [cands[i]]; }
    }
    assert cands[..|cands|] == cands;
    kd := sort(kd);
    var take := if |kd| < n then |kd| else n;
    drawn := kd[..take];
  }
}
