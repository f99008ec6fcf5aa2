/** Why a checksum made by a linear step closes: the argument of BIP-173, section "Bech32", for
    any words with an addition `xor` and any step that is linear and only shifts low words.
    Bech32Checksum applies it to the step of the program. */
module LinearChecksum {

  const CHECK_LEN: nat := 6

  datatype Ops<!W> = Ops(xor: (W, W) -> W, step: W -> W, shl: W -> W, low: W -> bool, word: nat -> W)

  ghost predicate Laws<W(!new)>(o: Ops<W>) {
    && (forall a, b, c :: o.xor(o.xor(a, b), c) == o.xor(a, o.xor(b, c)))
    && (forall a, h :: o.low(h) ==> o.step(o.xor(a, h)) == o.xor(o.step(a), o.shl(h)))
  }

  predicate Quintets(d: seq<nat>) { forall i | 0 <= i < |d| :: d[i] < 32 }

  function Six(d0: nat, d1: nat, d2: nat, d3: nat, d4: nat, d5: nat): (d: seq<nat>)
    ensures |d| == CHECK_LEN
    ensures d0 < 32 && d1 < 32 && d2 < 32 && d3 < 32 && d4 < 32 && d5 < 32 ==> Quintets(d)
  {
    [d0, d1, d2, d3, d4, d5]
  }

  /** The checksum state takes in values from the left. */
  function Absorb<W>(o: Ops<W>, chk: W, d: seq<nat>): W {
    if d == [] then chk else o.xor(o.step(Absorb(o, chk, d[..|d| - 1])), o.word(d[|d| - 1]))
  }

  lemma AbsorbSnoc<W>(o: Ops<W>, chk: W, d: seq<nat>, x: nat)
    ensures Absorb(o, chk, d + [x]) == o.xor(o.step(Absorb(o, chk, d)), o.word(x))
  {
    assert (d + [x])[..|d|] == d;
  }

  lemma {:induction false} AbsorbConcat<W>(o: Ops<W>, chk: W, d: seq<nat>, e: seq<nat>)
    ensures Absorb(o, chk, d + e) == Absorb(o, Absorb(o, chk, d), e)
    decreases |e|
  {
    if e == [] {
      assert d + e == d;
    } else {
      AbsorbConcat(o, chk, d, e[..|e| - 1]);
      assert (d + e)[..|d + e| - 1] == d + e[..|e| - 1];
    }
  }

  lemma AbsorbThree<W>(o: Ops<W>, chk: W, head: seq<nat>, data: seq<nat>, c: seq<nat>)
    ensures Absorb(o, chk, head + (data + c)) == Absorb(o, Absorb(o, chk, head + data), c)
  {
    assert head + (data + c) == (head + data) + c;
    AbsorbConcat(o, chk, head + data, c);
  }

  function Steps<W>(o: Ops<W>, x: W, n: nat): W { if n == 0 then x else o.step(Steps(o, x, n - 1)) }

  /** The loop that absorbs nothing: n plain steps. */
  method RunSteps<W>(o: Ops<W>, x: W, n: nat) returns (y: W)
    ensures y == Steps(o, x, n)
  {
    y := x;
    for i := 0 to n
      invariant y == Steps(o, x, i)
    {
      y := o.step(y);
    }
  }

  /** A checksum loop over five-bit values. */
  method RunChecksum<W>(o: Ops<W>, chk0: W, d: seq<nat>) returns (chk: W)
    ensures chk == Absorb(o, chk0, d)
  {
    chk := chk0;
    for i := 0 to |d|
      invariant chk == Absorb(o, chk0, d[..i])
    {
      AbsorbSnoc(o, chk0, d[..i], d[i]);
      assert d[..i + 1] == d[..i] + [d[i]];
      chk := o.xor(o.step(chk), o.word(d[i]));
    }
    assert d[..|d|] == d;
  }

  /** lead[i] is the number made by the i leading digits. */
  ghost predicate Leading<W(!new)>(o: Ops<W>, lead: seq<W>, d: seq<nat>) {
    && |lead| == |d| + 1
    && (forall a :: o.xor(a, lead[0]) == a)
    && forall i | 0 <= i < |d| :: Extends(o, lead[i], lead[i + 1], d[i])
  }

  ghost predicate Extends<W>(o: Ops<W>, hi: W, next: W, x: nat) {
    o.low(hi) && next == o.xor(o.shl(hi), o.word(x))
  }

  /** After n digits the state is the plain one plus the checksum's n leading digits. */
  lemma {:induction false} DigitsAddUp<W(!new)>(o: Ops<W>, chk: W, lead: seq<W>, d: seq<nat>, n: nat)
    requires Laws(o) && Leading(o, lead, d) && n <= |d|
    ensures Absorb(o, chk, d[..n]) == o.xor(Steps(o, chk, n), lead[n])
    decreases n
  {
    if n == 0 {
      assert d[..0] == [];
    } else {
      DigitsAddUp(o, chk, lead, d, n - 1);
      assert d[..n] == d[..n - 1] + [d[n - 1]];
      AbsorbSnoc(o, chk, d[..n - 1], d[n - 1]);
      assert Extends(o, lead[n - 1], lead[n], d[n - 1]);
    }
  }

  /** Digits of (plain state + constant) bring the state to the constant. */
  lemma Closes<W(!new)>(o: Ops<W>, chk: W, lead: seq<W>, d: seq<nat>, s: W, k: W)
    requires Laws(o) && Leading(o, lead, d) && lead[|d|] == s
    requires o.xor(Steps(o, chk, |d|), s) == k
    ensures Absorb(o, chk, d) == k
  {
    DigitsAddUp(o, chk, lead, d, |d|);
    assert d[..|d|] == d;
  }

  /** Six extensions in a row make the table of leading numbers. */
  lemma Assemble<W(!new)>(o: Ops<W>, zero: W, l1: W, l2: W, l3: W, l4: W, l5: W, s: W,
                    d0: nat, d1: nat, d2: nat, d3: nat, d4: nat, d5: nat) returns (lead: seq<W>, d: seq<nat>)
    requires forall a :: o.xor(a, zero) == a
    requires Extends(o, zero, l1, d0) && Extends(o, l1, l2, d1) && Extends(o, l2, l3, d2)
    requires Extends(o, l3, l4, d3) && Extends(o, l4, l5, d4) && Extends(o, l5, s, d5)
    ensures d == Six(d0, d1, d2, d3, d4, d5) && Leading(o, lead, d) && lead[6] == s
  {
    lead, d := [zero, l1, l2, l3, l4, l5, s], Six(d0, d1, d2, d3, d4, d5);
  }
}
