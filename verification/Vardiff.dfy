/** Difficulty per miner in src/datum_stratum.c: stratum_update_vardiff, the difficulty part of
    send_mining_notify, and client_mining_subscribe.  The clock is a parameter. */
module Vardiff {
  import opened Wrappers
  import opened Radix
  import opened Target

  ghost predicate IsPow2(x: nat) { exists e: nat :: Pow(2, e) == x }

  lemma Doubled(x: nat)
    requires IsPow2(x)
    ensures IsPow2(2 * x)
  {
    var e: nat :| Pow(2, e) == x;
    assert Pow(2, e + 1) == 2 * x;
  }

  lemma Halved(x: nat)
    requires IsPow2(x)
    ensures x > 0 && (x > 1 ==> IsPow2(x / 2))
  {
    var e: nat :| Pow(2, e) == x;
    PowPositive(2, e);
    if e > 0 { assert Pow(2, e - 1) == x / 2; }
  }

  lemma One()
    ensures IsPow2(1) && IsPow2(524288)
  {
    assert Pow(2, 0) == 1;
    PowAdd(2, 9, 10);
    assert Pow(2, 9) == 512 && Pow(2, 10) == 1024;
    assert Pow(2, 19) == 524288;
  }

  /** The exponent found by FloorPoT is the one. */
  lemma PowerBetween(x: nat, pos: nat)
    requires IsPow2(x) && Pow(2, pos) <= x < Pow(2, pos + 1)
    ensures Pow(2, pos) == x
  {
    var e: nat :| Pow(2, e) == x;
    if e < pos {
      PowMonoExp(2, e + 1, pos);
    } else if e > pos {
      PowMonoExp(2, pos + 1, e);
    }
  }

  lemma ExponentSmall(pos: nat)
    requires Pow(2, pos) < WORD
    ensures pos < 64
  {
    PowMul(2, 8, 8);
    assert Pow(2, 8) == 256 && Pow(256, 8) == WORD;
    if pos >= 64 { PowMonoExp(2, 64, pos); }
  }

  /** The configuration after its checks. */
  datatype Config = Config(vardiffMin: nat, targetShares: nat, quickCount: nat, quickDelta: nat, overrideMin: nat)

  ghost predicate ConfigOk(c: Config) {
    && IsPow2(c.vardiffMin) && c.vardiffMin < WORD && c.targetShares >= 1 && c.quickCount >= 4 && c.quickDelta >= 3
    && (c.overrideMin == 0 || IsPow2(c.overrideMin)) && c.overrideMin < WORD
  }

  /** The stratum job being announced: its slot, its proof of work, whether a pool job. */
  datatype JobInfo = JobInfo(index: nat, blake2b: bool, pooled: bool)

  /** The exact target of a difficulty. */
  ghost function ExactTarget(blake2b: bool, diff: nat): nat
    requires diff > 0
  {
    PowPositive(2, 224);
    if blake2b then (Pow(2, 224) - 1) / diff else (0xFFFF * Pow(2, 208)) / diff
  }

  /** The target the program stores for a difficulty, computed by either method. */
  method StoredTarget(blake2b: bool, diff: nat) returns (t: nat)
    requires IsPow2(diff) && 0 < diff < WORD
    ensures t == ExactTarget(blake2b, diff)
  {
    if blake2b {
      var bits := FloorPoT(diff);
      PowerBetween(diff, bits);
      ExponentSmall(bits);
      var r := Blake2bShareTarget(bits);
      return FromLE(r.value[..]);
    }
    var a := TargetFromDiff(diff);
    t := FromLE(a[..]);
  }

  /** roundDownToPowerOfTwo_64 */
  method RoundDown(x: nat) returns (r: nat)
    requires x > 0
    ensures IsPow2(r) && r <= x < 2 * r
  {
    var pos := FloorPoT(x);
    r := Pow(2, pos);
  }

  /** Milliseconds per share that the configuration aims at, and those observed. */
  function TargetMs(c: Config): (ms: nat)
    requires c.targetShares >= 1
    ensures ms * c.targetShares <= 60000 < (ms + 1) * c.targetShares
  {
    Floored(60000, c.targetShares);
    60000 / c.targetShares
  }

  function ObservedMs(delta: nat, shares: nat): (ms: nat)
    requires shares > 0
    ensures ms >= 1 && if delta < shares then ms == 1 else ms * shares <= delta < (ms + 1) * shares
  {
    Floored(delta, shares);
    if delta / shares == 0 then 1 else delta / shares
  }

  lemma Floored(x: nat, d: nat)
    requires d > 0
    ensures (x / d) * d <= x < (x / d + 1) * d && (x < d ==> x / d == 0) && (x >= d ==> x / d > 0)
  {
    DivMod(x, d);
    MulDist(x / d, 1, d);
  }

  function Larger(x: nat, y: nat): nat { if x < y then y else x }

  // ---- what 64 bits leave of a rise ----

  /** x shifted left by k bits in a 64-bit word. */
  function Shifted(x: nat, k: nat): nat { (x * Pow(2, k)) % WORD }

  /** A doubled power of two is a higher power of two exactly when the double fits the word. */
  lemma DoublingIsExact(x: nat)
    requires IsPow2(x) && x < WORD
    ensures 2 * x < WORD <==> Shifted(x, 1) > x && IsPow2(Shifted(x, 1))
    ensures 2 * x < WORD ==> Shifted(x, 1) == 2 * x
  {
    assert Pow(2, 1) == 2;
    Halved(x);
    assert Shifted(x, 1) == if 2 * x < WORD then 2 * x else 2 * x - WORD;
    if 2 * x < WORD { Doubled(x); }
  }

  /** The product of a quick rise, as the word holds it. */
  function Product(factor: nat, x: nat): nat { (factor * x) % WORD }

  /** The quick rise fits: the fourfold does, and the word holds something of the product. */
  predicate QuickFits(factor: nat, x: nat) { 4 * x < WORD && Product(factor, x) > 0 }

  /** Then, and only then, rounding the product down and taking the fourfold if that is more leads to at
      least the fourfold. */
  lemma QuickIsExact(factor: nat, x: nat, r: nat)
    requires IsPow2(x) && x < WORD && (Product(factor, x) > 0 ==> IsPow2(r) && r <= Product(factor, x) < 2 * r)
    ensures var risen := if r < Shifted(x, 2) then Shifted(x, 2) else r;
            QuickFits(factor, x)
            <==> Product(factor, x) > 0 && 4 * x <= risen < WORD && IsPow2(risen)
  {
    RiseIsExact(Product(factor, x), x, r);
  }

  lemma RiseIsExact(p: nat, x: nat, r: nat)
    requires IsPow2(x) && x < WORD && p < WORD && (p > 0 ==> IsPow2(r) && r <= p < 2 * r)
    ensures var risen := if r < Shifted(x, 2) then Shifted(x, 2) else r;
            4 * x < WORD && p > 0 <==> p > 0 && 4 * x <= risen < WORD && IsPow2(risen)
    ensures 4 * x < WORD ==> Shifted(x, 2) == 4 * x
  {
    Fourfold(x);
    Doubled(x);
    Doubled(2 * x);
  }

  lemma Fourfold(x: nat)
    ensures Shifted(x, 2) < WORD && (4 * x < WORD ==> Shifted(x, 2) == 4 * x)
  {
    assert Pow(2, 2) == 4;
  }

  /** r is the largest power of two that is not above the product, as a 64-bit word holds it. */
  ghost predicate RoundsTo(factor: nat, x: nat, r: nat) {
    IsPow2(r) && r <= (factor * x) % 0x1_0000_0000_0000_0000 < 2 * r
  }

  datatype Verdict = Quicken(factor: nat) | Double | Fall | Stays

  /** Every job's target is exact for its difficulty. */
  ghost predicate ExactTable(diffs: map<nat, nat>, targets: map<nat, nat>, blake2b: map<nat, bool>) {
    && targets.Keys == diffs.Keys == blake2b.Keys
    && forall g | g in diffs :: diffs[g] > 0 && targets[g] == ExactTarget(blake2b[g], diffs[g])
  }

  lemma ExactTableUpdate(diffs: map<nat, nat>, targets: map<nat, nat>, blake2b: map<nat, bool>, g: nat, d: nat, b: bool)
    requires ExactTable(diffs, targets, blake2b) && d > 0
    ensures ExactTable(diffs[g := d], targets[g := ExactTarget(b, d)], blake2b[g := b])
  {
  }

  class Miner {
    const cfg: Config
    var current: nat
    var lastSent: nat
    var forcedMin: nat
    var shares: nat
    var snapTs: nat
    var quickActive: bool
    var quickValue: nat
    var quickTarget: nat
    var quickBlake: bool
    var jobDiffs: map<nat, nat>
    var jobTargets: map<nat, nat>
    ghost var jobBlake: map<nat, bool>

    /** The difficulty is a power of two at or above its floors. */
    ghost predicate DiffOk()
      reads this
    {
      && IsPow2(current) && 0 < current < WORD
      && current >= cfg.vardiffMin && current >= forcedMin && (forcedMin == 0 || IsPow2(forcedMin))
    }

    /** Every stored target is exact for the difficulty stored beside it. */
    ghost predicate TargetsExact()
      reads this
    {
      && ExactTable(jobDiffs, jobTargets, jobBlake)
      && (quickActive ==> quickValue > 0 && quickTarget == ExactTarget(quickBlake, quickValue))
    }

    ghost predicate Valid()
      reads this
    {
      ConfigOk(cfg) && DiffOk() && TargetsExact()
    }

    /** client_mining_subscribe: `high` for user agents that need a high minimum. */
    constructor (c: Config, high: bool, now: nat)
      requires ConfigOk(c)
      ensures Valid() && cfg == c && lastSent == 0 && snapTs == now && shares == 0
      ensures forcedMin == (if high then 524288 else 0) && current == Larger(c.vardiffMin, forcedMin)
    {
      cfg, lastSent, shares, snapTs := c, 0, 0, now;
      quickActive, quickValue, quickTarget, quickBlake := false, 0, 0, false;
      jobDiffs, jobTargets, jobBlake := map[], map[], map[];
      forcedMin := if high then 524288 else 0;
      current := if high && 524288 > c.vardiffMin then 524288 else c.vardiffMin;
      One();
      Halved(c.vardiffMin);
    }

    /** The halving of the downward steps, held at the floors. */
    method StepDown(now: nat)
      requires ConfigOk(cfg) && DiffOk()
      modifies `current, `shares, `snapTs
      ensures DiffOk() && shares == 0 && snapTs == now
      ensures current == Larger(Larger(old(current) / 2, forcedMin), cfg.vardiffMin) <= old(current)
    {
      Halved(current);
      Halved(cfg.vardiffMin);
      current := current / 2;
      if current < forcedMin { current := forcedMin; }
      if current < cfg.vardiffMin { current := cfg.vardiffMin; }
      shares, snapTs := 0, now;
    }

    /** With n shares the miner is judged: nothing is pending, and there are enough shares and time to go by. */
    predicate Judged(n: nat, noQuick: bool, now: nat)
      reads this
      requires now >= snapTs
    {
      current == lastSent && (noQuick || n >= cfg.quickCount) && n > 0 && now - snapTs >= 1000
    }

    /** A quick rise is due. */
    predicate Quickens(n: nat, noQuick: bool, now: nat)
      reads this
      requires now >= snapTs && cfg.targetShares >= 1 && cfg.quickDelta >= 1
    {
      Judged(n, noQuick, now) && !quickActive && !noQuick
      && ObservedMs(now - snapTs, n) < TargetMs(cfg) / cfg.quickDelta
    }

    /** A doubling is due. */
    predicate Doubles(n: nat, noQuick: bool, now: nat)
      reads this
      requires now >= snapTs && cfg.targetShares >= 1 && cfg.quickDelta >= 1
    {
      Judged(n, noQuick, now) && !Quickens(n, noQuick, now)
      && n >= 16 && ObservedMs(now - snapTs, n) < TargetMs(cfg) / 2
    }

    /** A fall is due: the miner was silent for more than a minute, or its shares came at less than half of the
        aimed rate. */
    predicate Falls(n: nat, noQuick: bool, now: nat)
      reads this
      requires now >= snapTs && cfg.targetShares >= 1 && cfg.quickDelta >= 1
    {
      if n == 0 then current == lastSent && (noQuick || cfg.quickCount == 0) && now - snapTs > 60000
      else Judged(n, noQuick, now) && !Quickens(n, noQuick, now) && ObservedMs(now - snapTs, n) > 2 * TargetMs(cfg)
    }

    /** The difficulty after a fall. */
    function Fallen(): nat
      reads this
    {
      Larger(Larger(current / 2, forcedMin), cfg.vardiffMin)
    }

    /** What is due, with the factor by which shares came too fast for a quick rise. */
    function Judge(n: nat, noQuick: bool, now: nat): Verdict
      reads this
      requires now >= snapTs && cfg.targetShares >= 1 && cfg.quickDelta >= 1
    {
      if Quickens(n, noQuick, now) then Quicken(TargetMs(cfg) / ObservedMs(now - snapTs, n))
      else if Doubles(n, noQuick, now) then Double
      else if Falls(n, noQuick, now) then Fall
      else Stays
    }

    /** The difficulty now is what the verdict makes of the one before. */
    ghost predicate Follows(v: Verdict, was: nat, fallen: nat, job: Option<JobInfo>, now: nat)
      reads this
    {
      && (!v.Stays? ==> shares == 0 && snapTs == now)
      && match v
         case Quicken(factor) => current >= 4 * was && RisenTo(was, factor, job, current)
         case Double => current == 2 * was
         case Fall => current == fallen
         case Stays => current == was
    }

    /** What an update without quick rises makes of the difficulty. */
    function Ticked(now: nat): nat
      reads this
      requires now >= snapTs && cfg.targetShares >= 1 && cfg.quickDelta >= 1
    {
      if Falls(shares, true, now) then Fallen() else if Doubles(shares, true, now) then 2 * current else current
    }

    /** The rise that is due, if any, fits 64 bits; DoublingIsExact and QuickIsExact say what else happens. */
    predicate RiseFits(n: nat, noQuick: bool, now: nat)
      reads this
      requires now >= snapTs && cfg.targetShares >= 1 && cfg.quickDelta >= 1
    {
      && (Doubles(n, noQuick, now) ==> 2 * current < WORD)
      && (Quickens(n, noQuick, now) ==> QuickFits(TargetMs(cfg) / ObservedMs(now - snapTs, n), current))
    }

    /** stratum_update_vardiff.  A pending change is left alone; the difficulty rises exactly when
        shares came at more than twice the aimed rate and there are enough of them, and falls exactly when
        they came at less than half of it or not at all for a minute. */
    method Update(noQuick: bool, now: nat, job: Option<JobInfo>)
      requires Valid() && now >= snapTs && RiseFits(shares, noQuick, now)
      modifies this
      ensures Valid() && forcedMin == old(forcedMin)
      ensures noQuick ==> lastSent == old(lastSent) && jobDiffs == old(jobDiffs) && quickActive == old(quickActive)
      ensures Follows(old(Judge(shares, noQuick, now)), old(current), old(Fallen()), job, now)
      ensures old(Judge(shares, noQuick, now)).Stays? ==> shares == old(shares) && snapTs == old(snapTs)
      ensures !old(Judge(shares, noQuick, now)).Quicken? ==> lastSent == old(lastSent)
      ensures noQuick ==> current == old(Ticked(now))
      decreases if noQuick then 0 else 3
    {
      ghost var quickens, doubles := Quickens(shares, noQuick, now), Doubles(shares, noQuick, now);
      ghost var falls := Falls(shares, noQuick, now);
      if current != lastSent { return; }
      if !noQuick && shares < cfg.quickCount { return; }
      var delta := now - snapTs;
      if shares == 0 {
        if delta > 60000 { StepDown(now); }
        return;
      }
      if delta < 1000 { return; }
      var observed, aimed := ObservedMs(delta, shares), TargetMs(cfg);
      QuickIsFast(aimed, cfg.quickDelta);
      if !quickActive && !noQuick && observed < aimed / cfg.quickDelta {
        assert quickens && !doubles && !falls;
        QuickRise(observed, aimed, now, job);
        return;
      }
      assert !quickens && (doubles <==> shares >= 16 && observed < aimed / 2) && (falls <==> observed > 2 * aimed);
      Tick(observed, aimed, now);
    }

    /** One step down or up. */
    method Tick(observed: nat, aimed: nat, now: nat)
      requires ConfigOk(cfg) && DiffOk() && (shares >= 16 && observed < aimed / 2 ==> 2 * current < WORD)
      modifies `current, `shares, `snapTs
      ensures DiffOk()
      ensures observed > 2 * aimed ==> current == old(Fallen()) && shares == 0 && snapTs == now
      ensures old(shares) >= 16 && observed < aimed / 2 ==> current == 2 * old(current) && shares == 0 && snapTs == now
      ensures observed <= 2 * aimed && !(old(shares) >= 16 && observed < aimed / 2) ==>
        current == old(current) && shares == old(shares) && snapTs == old(snapTs)
    {
      if observed > aimed * 2 {
        StepDown(now);
        return;
      }
      if shares < 16 { return; }
      if observed < aimed / 2 {
        DoublingIsExact(current);
        current := Shifted(current, 1);
        shares, snapTs := 0, now;
      }
    }

    /** After a quick rise by this factor: the product, rounded down to a power of two, or the fourfold if that is
        more, or the pool's minimum if that is more still. */
    ghost predicate RisenTo(was: nat, factor: nat, job: Option<JobInfo>, now: nat)
      reads this
    {
      exists r: nat :: RoundsTo(factor, was, r) && now == Raised(job, Larger(r, 4 * was))
    }

    /** A difficulty raised to the minimum of the pool, for a pool job. */
    function Raised(job: Option<JobInfo>, diff: nat): nat {
      if job.Some? && job.value.pooled then Larger(diff, cfg.overrideMin) else diff
    }

    /** The quick rise: toward the aimed rate at once, at least fourfold, and announced at once. */
    method QuickRise(observed: nat, aimed: nat, now: nat, job: Option<JobInfo>)
      requires Valid() && now >= snapTs && 0 < observed && QuickFits(aimed / observed, current)
      modifies this
      ensures Valid() && forcedMin == old(forcedMin) && current >= 4 * old(current) && shares == 0 && snapTs == now
      ensures job.Some? ==> quickActive && lastSent == current == quickValue
      ensures RisenTo(old(current), aimed / observed, job, current)
      decreases 2
    {
      var product := Product(aimed / observed, current);
      var rounded := RoundDown(product);
      assert RoundsTo(aimed / observed, current, rounded);
      RiseIsExact(product, current, rounded);
      var risen := if rounded < Shifted(current, 2) then Shifted(current, 2) else rounded;
      assert risen == Larger(rounded, 4 * current);
      current := risen;
      Notify(job, true, false, now);
      shares, snapTs := 0, now;
    }

    /** send_mining_set_difficulty */
    method SendDifficulty()
      requires Valid()
      modifies `lastSent
      ensures Valid() && lastSent == current
    {
      lastSent := current;
    }

    /** The difficulty part of send_mining_notify: it announces a difficulty at or above the pool's
        minimum for a pool job and stores the exact target for it, apart from the job's own one
        when the change is a quick one. */
    method Notify(job: Option<JobInfo>, quickdiff: bool, newBlock: bool, now: nat)
      requires Valid() && now >= snapTs && (!quickdiff || newBlock ==> RiseFits(shares, true, now))
      modifies this
      ensures Valid() && forcedMin == old(forcedMin)
      ensures job.None? ==> current == old(current) && lastSent == old(lastSent)
      ensures job.Some? ==> lastSent == current && (job.value.pooled ==> lastSent >= cfg.overrideMin)
      ensures job.Some? ==>
        current == Raised(job, if quickdiff && !newBlock then old(current) else old(Ticked(now)))
      ensures job.Some? && (!quickdiff || newBlock) ==>
        job.value.index in jobDiffs && jobDiffs[job.value.index] == lastSent && !quickActive
      ensures quickdiff && !newBlock ==> jobDiffs == old(jobDiffs) && current >= old(current)
      ensures job.Some? && quickdiff && !newBlock ==> quickActive && quickValue == lastSent
      decreases if quickdiff && !newBlock then 1 else 2
    {
      if job.None? { return; }
      var j, quick := job.value, quickdiff && !newBlock;
      if !quick { Update(true, now, job); }
      RaiseAndSend(j);
      StoreTarget(j, quick);
    }

    /** The pool's minimum, and the announcement if anything changed. */
    method RaiseAndSend(j: JobInfo)
      requires Valid()
      modifies `current, `lastSent
      ensures DiffOk() && lastSent == current == Raised(Some(j), old(current)) >= old(current)
    {
      if j.pooled && current < cfg.overrideMin { current := cfg.overrideMin; }
      if lastSent != current { SendDifficulty(); }
    }

    method StoreTarget(j: JobInfo, quick: bool)
      requires Valid() && lastSent == current
      modifies `jobTargets, `jobDiffs, `jobBlake, `quickActive, `quickValue, `quickTarget, `quickBlake
      ensures TargetsExact()
      ensures quickActive == quick && (quick ==> quickValue == lastSent)
      ensures jobDiffs == if quick then old(jobDiffs) else old(jobDiffs)[j.index := lastSent]
    {
      var t := StoredTarget(j.blake2b, lastSent);
      ExactTableUpdate(jobDiffs, jobTargets, jobBlake, j.index, lastSent, j.blake2b);
      if !quick {
        jobTargets, jobDiffs, jobBlake :=
          jobTargets[j.index := t], jobDiffs[j.index := lastSent], jobBlake[j.index := j.blake2b];
        quickActive := false;
      } else {
        quickActive, quickValue, quickTarget, quickBlake := true, lastSent, t, j.blake2b;
      }
    }

    /** An accepted share: it is counted, and the miner judged with it. */
    method Accept(now: nat, job: Option<JobInfo>)
      requires Valid() && now >= snapTs && RiseFits(shares + 1, false, now)
      modifies this
      ensures Valid() && forcedMin == old(forcedMin)
      ensures Follows(old(Judge(shares + 1, false, now)), old(current), old(Fallen()), job, now)
      ensures old(Judge(shares + 1, false, now)).Stays? ==> shares == old(shares) + 1 && snapTs == old(snapTs)
    {
      shares := shares + 1;
      Update(false, now, job);
    }
  }

  /** Fast enough for a quick rise is more than twice the aimed rate. */
  lemma QuickIsFast(aimed: nat, delta: nat)
    requires delta >= 3
    ensures aimed / delta <= aimed / 2
  {
    DivMod(aimed, delta);
    MulMono(2, delta, aimed / delta);
  }
}
