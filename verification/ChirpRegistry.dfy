/** The member registry of src/datum_chirp.c (chirp_record_share, window_work, chirp_candidates)
    and its persistence in src/datum_chirp_glue.c: pruned in place, it answers as if it kept every
    share ever recorded.  Work is a real number; the saved file is the list of members. */
module ChirpRegistry {
  import ChirpDraw
  import opened Filters

  const WINDOW_SECS: nat := 86400
  const GAP_CAP: nat := 3600
  const ADDR_LEN: nat := 127

  datatype Share = Share(ts: nat, work: real)

  datatype Member = Member(addr: string, firstSeen: nat, lastSeen: nat, activeSecs: nat, shares: seq<Share>)

  // ---- what the full history says ----

  function Cutoff(now: nat): nat { if now > WINDOW_SECS then now - WINDOW_SECS else 0 }

  function Since(h: seq<Share>, c: nat): seq<Share> {
    if h == [] then [] else Since(h[..|h| - 1], c) + if h[|h| - 1].ts >= c then [h[|h| - 1]] else []
  }

  function Work(h: seq<Share>): real { if h == [] then 0.0 else Work(h[..|h| - 1]) + h[|h| - 1].work }

  /** The work of the last 24 hours. */
  function WindowWork(h: seq<Share>, now: nat): real { Work(Since(h, Cutoff(now))) }

  function Gap(last: nat, now: nat): nat {
    if last != 0 && now > last && now - last < GAP_CAP then now - last else 0
  }

  function LastSeen(h: seq<Share>): nat { if h == [] then 0 else h[|h| - 1].ts }

  /** Active seconds: the gaps between consecutive shares that are shorter than an hour. */
  function Tenure(h: seq<Share>): nat {
    if h == [] then 0 else Tenure(h[..|h| - 1]) + Gap(LastSeen(h[..|h| - 1]), h[|h| - 1].ts)
  }

  /** A share of the last 86400 seconds. */
  function InWindow(now: nat): Share -> bool { (s: Share) => s.ts + 86400 >= now }

  /** The shares of the window are exactly these, in order. */
  lemma {:induction false} WindowIs(h: seq<Share>, now: nat)
    ensures Keeps(h, InWindow(now), Since(h, Cutoff(now)))
    decreases |h|
  {
    if h == [] {
      KeepsNothing(InWindow(now));
    } else {
      var front, last := h[..|h| - 1], h[|h| - 1];
      assert front + [last] == h;
      WindowIs(front, now);
      KeepsNext(front, InWindow(now), Since(front, Cutoff(now)), last);
      SinceLast(h, Cutoff(now));
      assert InWindow(now)(last) <==> last.ts >= Cutoff(now);
    }
  }

  lemma SinceLast(h: seq<Share>, c: nat)
    requires h != []
    ensures var front, last := Since(h[..|h| - 1], c), h[|h| - 1];
            Since(h, c) == if last.ts >= c then front + [last] else front
  {
  }

  /** What a share adds to the tenure: the seconds since the one before, if there was one, time went on, and
      less than an hour passed. */
  ghost predicate IsGap(h: seq<Share>, i: nat, gap: nat)
    requires i < |h|
  {
    gap == if i > 0 && h[i - 1].ts > 0 && h[i - 1].ts < h[i].ts < h[i - 1].ts + 3600 then h[i].ts - h[i - 1].ts else 0
  }

  function Sum(gaps: seq<nat>): nat { if gaps == [] then 0 else Sum(gaps[..|gaps| - 1]) + gaps[|gaps| - 1] }

  /** Tenure is the sum of these gaps. */
  lemma {:induction false} TenureIs(h: seq<Share>) returns (gaps: seq<nat>)
    ensures |gaps| == |h| && (forall i | 0 <= i < |h| :: IsGap(h, i, gaps[i])) && Tenure(h) == Sum(gaps)
    decreases |h|
  {
    if h == [] {
      gaps := [];
    } else {
      var front, last := h[..|h| - 1], h[|h| - 1];
      var before := TenureIs(front);
      gaps := before + [Gap(LastSeen(front), last.ts)];
      assert gaps[..|front|] == before;
      forall i | 0 <= i < |h| ensures IsGap(h, i, gaps[i]) {
        if i < |front| { assert IsGap(front, i, before[i]); }
      }
    }
  }

  // ---- pruning ----

  lemma SinceSnoc(h: seq<Share>, s: Share, c: nat)
    ensures Since(h + [s], c) == Since(h, c) + if s.ts >= c then [s] else []
  {
    assert (h + [s])[..|h|] == h;
  }

  /** Pruning at an earlier cutoff does not show at a later one. */
  lemma {:induction false} SinceTwice(h: seq<Share>, c: nat, d: nat)
    requires c <= d
    ensures Since(Since(h, c), d) == Since(h, d)
    decreases |h|
  {
    if h != [] {
      var front, last := h[..|h| - 1], h[|h| - 1];
      SinceTwice(front, c, d);
      if last.ts >= c {
        SinceSnoc(Since(front, c), last, d);
      } else {
        assert Since(h, c) == Since(front, c) && Since(h, d) == Since(front, d);
      }
    }
  }

  lemma WorkSnoc(h: seq<Share>, s: Share)
    ensures Work(h + [s]) == Work(h) + s.work
  {
    assert (h + [s])[..|h|] == h;
  }

  /** From the cutoff `cut` on, the kept shares are as good as the history. */
  ghost predicate AsGoodAs(kept: seq<Share>, h: seq<Share>, cut: nat) {
    forall c: nat | c >= cut :: Since(kept, c) == Since(h, c)
  }

  lemma PrunedIsAsGood(kept: seq<Share>, h: seq<Share>, cut: nat, c: nat)
    requires AsGoodAs(kept, h, cut)
    ensures AsGoodAs(Since(kept, c), h, if c > cut then c else cut)
  {
    forall d: nat | d >= (if c > cut then c else cut) ensures Since(Since(kept, c), d) == Since(h, d) {
      SinceTwice(kept, c, d);
    }
  }

  lemma RecordedIsAsGood(kept: seq<Share>, h: seq<Share>, cut: nat, s: Share)
    requires AsGoodAs(kept, h, cut)
    ensures AsGoodAs(kept + [s], h + [s], cut)
  {
    forall c: nat | c >= cut ensures Since(kept + [s], c) == Since(h + [s], c) {
      SinceSnoc(kept, s, c);
      SinceSnoc(h, s, c);
    }
  }

  /** window_work: compacts the shares in place while adding up. */
  method Prune(shares: seq<Share>, cutoff: nat) returns (kept: seq<Share>, sum: real)
    ensures kept == Since(shares, cutoff) && sum == Work(kept)
  {
    var a, w := shares, 0;
    sum := 0.0;
    for i := 0 to |shares|
      invariant w <= i && |a| == |shares| && a[i..] == shares[i..]
      invariant a[..w] == Since(shares[..i], cutoff) && sum == Work(a[..w])
    {
      assert shares[..i + 1][..i] == shares[..i];
      assert a[i] == shares[i] by { assert a[i..][0] == shares[i..][0]; }
      ghost var before := a;
      if a[i].ts >= cutoff {
        WorkSnoc(a[..w], a[i]);
        a := a[w := a[i]];
        sum := sum + a[i].work;
        assert a[..w + 1] == before[..w] + [before[i]];
        w := w + 1;
      }
      assert a[i + 1..] == before[i..][1..] == shares[i..][1..];
    }
    assert shares[..|shares|] == shares;
    kept := a[..w];
  }

  // ---- one member ----

  /** The member answers for the history h from the cutoff on. */
  ghost predicate Tracks(m: Member, h: seq<Share>, cut: nat) {
    m.lastSeen == LastSeen(h) && m.activeSecs == Tenure(h) && AsGoodAs(m.shares, h, cut)
  }

  function WithShare(m: Member, s: Share): Member {
    m.(activeSecs := m.activeSecs + Gap(m.lastSeen, s.ts), lastSeen := s.ts, shares := m.shares + [s])
  }

  lemma RecordTracks(m: Member, h: seq<Share>, cut: nat, s: Share)
    requires Tracks(m, h, cut)
    ensures Tracks(WithShare(m, s), h + [s], cut)
  {
    RecordedIsAsGood(m.shares, h, cut, s);
    assert (h + [s])[..|h|] == h;
  }

  lemma PruneTracks(m: Member, h: seq<Share>, cut: nat, now: nat)
    requires Tracks(m, h, cut) && cut <= Cutoff(now)
    ensures Work(Since(m.shares, Cutoff(now))) == WindowWork(h, now)
    ensures Tracks(m.(shares := Since(m.shares, Cutoff(now))), h, Cutoff(now))
  {
    PrunedIsAsGood(m.shares, h, cut, Cutoff(now));
  }

  /** What chirp_load_locked makes of a saved member. */
  function Restored(m: Member, now: nat): Member {
    m.(firstSeen := if m.firstSeen == 0 then now else m.firstSeen, shares := Since(m.shares, Cutoff(now)))
  }

  /** Saving and loading leaves every later answer unchanged: work in the window, tenure, and the
      same again after any further share. */
  lemma RestoredAnswersSame(m: Member, saved: nat, later: nat, s: Share)
    requires saved <= later
    ensures var r := Restored(m, saved);
            && Work(Since(r.shares, Cutoff(later))) == Work(Since(m.shares, Cutoff(later)))
            && r.activeSecs == m.activeSecs
            && WithShare(r, s).activeSecs == WithShare(m, s).activeSecs
            && Work(Since(WithShare(r, s).shares, Cutoff(later))) == Work(Since(WithShare(m, s).shares, Cutoff(later)))
  {
    SinceTwice(m.shares, Cutoff(saved), Cutoff(later));
    SinceSnoc(m.shares, s, Cutoff(later));
    SinceSnoc(Restored(m, saved).shares, s, Cutoff(later));
  }

  // ---- the registry ----

  /** The first 127 characters. */
  function Key(addr: string): (key: string)
    ensures key <= addr && |key| == if |addr| <= 127 then |addr| else 127
  {
    if |addr| <= ADDR_LEN then addr else addr[..ADDR_LEN]
  }

  ghost predicate Distinct(ms: seq<Member>) { forall i, j | 0 <= i < j < |ms| :: ms[i].addr != ms[j].addr }

  /** Every member tracks the history under its address, and there are no other histories. */
  ghost predicate AllTrack(ms: seq<Member>, hs: map<string, seq<Share>>, cut: nat) {
    && Distinct(ms) && (forall i | 0 <= i < |ms| :: ms[i].addr in hs && Tracks(ms[i], hs[ms[i].addr], cut))
    && forall a | a in hs :: Listed(ms, a)
  }

  ghost predicate Listed(ms: seq<Member>, a: string) { exists i :: 0 <= i < |ms| && ms[i].addr == a }

  function HistoryOf(hs: map<string, seq<Share>>, a: string): seq<Share> { if a in hs then hs[a] else [] }

  class Registry {
    var members: seq<Member>
    ghost var histories: map<string, seq<Share>>
    ghost var cut: nat

    ghost predicate Valid()
      reads this
    {
      AllTrack(members, histories, cut)
    }

    constructor ()
      ensures Valid() && histories == map[] && cut == 0
    {
      members, histories, cut := [], map[], 0;
    }

    /** find_or_add */
    method FindOrAdd(addr: string, now: nat) returns (i: nat)
      requires Valid()
      modifies `members, `histories
      ensures Valid() && i < |members| && members[i].addr == Key(addr)
      ensures histories == old(histories)[Key(addr) := HistoryOf(old(histories), Key(addr))]
    {
      i := 0;
      while i < |members|
        invariant i <= |members| && forall j | 0 <= j < i :: members[j].addr != Key(addr)
      {
        if members[i].addr == Key(addr) { return; }
        i := i + 1;
      }
      AddAll(members, histories, cut, Key(addr), now);
      members := members + [Member(Key(addr), now, 0, 0, [])];
      histories := histories[Key(addr) := []];
    }

    /** chirp_record_share */
    method Record(addr: string, work: real, now: nat)
      requires Valid()
      modifies `members, `histories
      ensures Valid()
      ensures histories == old(histories)[Key(addr) := HistoryOf(old(histories), Key(addr)) + [Share(now, work)]]
    {
      var i := FindOrAdd(addr, now);
      var s := Share(now, work);
      RecordAll(members, histories, cut, i, s);
      members := members[i := WithShare(members[i], s)];
      UpdateTwice(old(histories), Key(addr), HistoryOf(old(histories), Key(addr)), histories[Key(addr)] + [s]);
      histories := histories[Key(addr) := histories[Key(addr)] + [s]];
    }

    /** chirp_member_stats for member i: with query times that do not go back, the pruned registry
        gives the work and the tenure of the full history. */
    method Stats(i: nat, now: nat) returns (power: real, active: nat)
      requires Valid() && i < |members| && cut <= Cutoff(now)
      modifies `members, `cut
      ensures Valid() && cut == Cutoff(now) && |members| == |old(members)|
      ensures forall j | 0 <= j < |members| :: members[j].addr == old(members)[j].addr
      ensures members[i].addr in histories
      ensures power == WindowWork(histories[members[i].addr], now) && active == Tenure(histories[members[i].addr])
    {
      ghost var h := histories[members[i].addr];
      PruneTracks(members[i], h, cut, now);
      PruneAll(members, histories, cut, i, now);
      var kept, sum := Prune(members[i].shares, Cutoff(now));
      members := members[i := members[i].(shares := kept)];
      cut := Cutoff(now);
      return sum, members[i].activeSecs;
    }

    /** chirp_save_locked and chirp_load_locked after a restart at time now. */
    method Restart(now: nat)
      requires Valid() && cut <= Cutoff(now)
      modifies `members, `cut
      ensures Valid() && cut == Cutoff(now) && |members| == |old(members)|
      ensures forall j | 0 <= j < |members| :: members[j] == Restored(old(members)[j], now)
    {
      ghost var saved, before := members, cut;
      members := Load(members, now);
      cut := Cutoff(now);
      RestoredTrack(saved, members, histories, before, now);
    }

    /** One turn of the candidate loop. */
    method Candidate(i: nat, now: nat, p: Params) returns (c: seq<Cand>)
      requires Valid() && i < |members| && cut <= Cutoff(now) && ParamsOk(p)
      modifies `members, `cut
      ensures Valid() && cut <= Cutoff(now) && Addresses(members) == old(Addresses(members))
      ensures c == JudgedOn(Addresses(members)[i], histories, now, p)
    {
      var power, active := Stats(i, now);
      assert Addresses(members) == old(Addresses(members));
      c := Judged(members[i].addr, active, power, p);
    }

    /** chirp_candidates: who is eligible and with which weight, as the full histories say. */
    method Candidates(now: nat, p: Params) returns (out: seq<Cand>)
      requires Valid() && cut <= Cutoff(now) && ParamsOk(p)
      modifies `members, `cut
      ensures Valid() && Addresses(members) == old(Addresses(members))
      ensures out == Eligible(Addresses(members), histories, now, p)
    {
      out := [];
      ghost var addrs := Addresses(members);
      for i := 0 to |members|
        invariant Valid() && cut <= Cutoff(now) && Addresses(members) == addrs && |members| == |addrs|
        invariant out == Eligible(addrs[..i], histories, now, p)
      {
        var c := Candidate(i, now, p);
        EligibleNext(addrs, i, histories, now, p);
        out := out + c;
      }
      assert addrs[..|addrs|] == addrs;
    }
  }

  datatype Params = Params(minDays: real, minPower: real, daysFull: real, powerFull: real)
  type Cand = ChirpDraw.Cand

  predicate ParamsOk(p: Params) { p.daysFull > 0.0 && p.powerFull > 0.0 }

  function AtMostOne(x: real): real { if x > 1.0 then 1.0 else x }

  /** The mean of tenure and work, each relative to its full value and at most one. */
  function Weight(active: nat, power: real, p: Params): real
    requires ParamsOk(p)
  {
    (AtMostOne(active as real / 86400.0 / p.daysFull) + AtMostOne(power / p.powerFull)) / 2.0
  }

  /** Whoever is below a threshold is no candidate. */
  function Judged(addr: string, active: nat, power: real, p: Params): seq<Cand>
    requires ParamsOk(p)
  {
    if active as real / 86400.0 < p.minDays || power < p.minPower then []
    else [ChirpDraw.Cand(addr, Weight(active, power, p))]
  }

  function Addresses(ms: seq<Member>): (r: seq<string>)
    ensures |r| == |ms|
  {
    seq(|ms|, i requires 0 <= i < |ms| => ms[i].addr)
  }

  /** The judgement on an address by its full history. */
  function JudgedOn(a: string, hs: map<string, seq<Share>>, now: nat, p: Params): seq<Cand>
    requires ParamsOk(p)
  {
    Judged(a, Tenure(HistoryOf(hs, a)), WindowWork(HistoryOf(hs, a), now), p)
  }

  /** The candidates among the addresses, by the histories alone. */
  function Eligible(addrs: seq<string>, hs: map<string, seq<Share>>, now: nat, p: Params): seq<Cand>
    requires ParamsOk(p)
  {
    if addrs == [] then []
    else Eligible(addrs[..|addrs| - 1], hs, now, p) + JudgedOn(addrs[|addrs| - 1], hs, now, p)
  }

  // ---- who is a candidate, and with which weight ----

  /** Enough days of tenure and enough work in the window. */
  ghost predicate Qualifies(a: string, hs: map<string, seq<Share>>, now: nat, p: Params) {
    && Tenure(HistoryOf(hs, a)) as real >= p.minDays * 86400.0
    && WindowWork(HistoryOf(hs, a), now) >= p.minPower
  }

  ghost function Qualified(hs: map<string, seq<Share>>, now: nat, p: Params): string -> bool {
    a => Qualifies(a, hs, now, p)
  }

  function Names(cs: seq<Cand>): (names: seq<string>)
    ensures |names| == |cs|
  {
    seq(|cs|, i requires 0 <= i < |cs| => cs[i].addr)
  }

  lemma JudgedIs(a: string, hs: map<string, seq<Share>>, now: nat, p: Params)
    requires ParamsOk(p)
    ensures Names(JudgedOn(a, hs, now, p)) == if Qualified(hs, now, p)(a) then [a] else []
  {
    DaysOrSeconds(Tenure(HistoryOf(hs, a)) as real, p.minDays);
  }

  lemma DaysOrSeconds(active: real, days: real)
    ensures active / 86400.0 < days <==> active < days * 86400.0
  {
  }

  /** The candidates are exactly the members that qualify, in the order of the registry. */
  lemma {:induction false} EligibleQualify(addrs: seq<string>, hs: map<string, seq<Share>>, now: nat, p: Params)
    requires ParamsOk(p)
    ensures Keeps(addrs, Qualified(hs, now, p), Names(Eligible(addrs, hs, now, p)))
    decreases |addrs|
  {
    if addrs == [] {
      KeepsNothing(Qualified(hs, now, p));
      assert Names(Eligible(addrs, hs, now, p)) == [];
    } else {
      var front, a := addrs[..|addrs| - 1], addrs[|addrs| - 1];
      assert front + [a] == addrs;
      EligibleQualify(front, hs, now, p);
      JudgedIs(a, hs, now, p);
      KeepsNext(front, Qualified(hs, now, p), Names(Eligible(front, hs, now, p)), a);
      NamesConcat(Eligible(front, hs, now, p), JudgedOn(a, hs, now, p));
      NothingAdded(Names(Eligible(front, hs, now, p)));
    }
  }

  /** Each with the weight of its tenure and its work in the window. */
  lemma {:induction false} EligibleWeights(addrs: seq<string>, hs: map<string, seq<Share>>, now: nat, p: Params)
    requires ParamsOk(p)
    ensures forall c | c in Eligible(addrs, hs, now, p) ::
      c.weight == Weight(Tenure(HistoryOf(hs, c.addr)), WindowWork(HistoryOf(hs, c.addr), now), p)
    decreases |addrs|
  {
    if addrs != [] { EligibleWeights(addrs[..|addrs| - 1], hs, now, p); }
  }

  lemma NamesConcat(a: seq<Cand>, b: seq<Cand>)
    ensures Names(a + b) == Names(a) + Names(b)
  {
  }

  lemma NothingAdded(names: seq<string>)
    ensures names + [] == names
  {
  }

  /** A weight is between zero and one, and one exactly at full tenure and full work. */
  lemma WeightRange(active: nat, power: real, p: Params)
    requires ParamsOk(p) && power >= 0.0
    ensures 0.0 <= Weight(active, power, p) <= 1.0
    ensures Weight(active, power, p) == 1.0 <==>
            active as real >= p.daysFull * 86400.0 && power >= p.powerFull
  {
    RatioRange(active as real / 86400.0, p.daysFull);
    RatioRange(power, p.powerFull);
    DaysOrSeconds(active as real, p.daysFull);
  }

  lemma RatioRange(x: real, full: real)
    requires x >= 0.0 && full > 0.0
    ensures 0.0 <= AtMostOne(x / full) <= 1.0 && (AtMostOne(x / full) == 1.0 <==> x >= full)
  {
    DivideBack(x, full);
    RatioBounds(x, full, x / full);
  }

  lemma RatioBounds(x: real, full: real, q: real)
    requires q * full == x && x >= 0.0 && full > 0.0
    ensures q >= 0.0 && (q >= 1.0 <==> x >= full)
  {
    if q < 0.0 { RealMonoStrict(q, 0.0, full); }
    if q >= 1.0 { RealMono(1.0, q, full); } else { RealMonoStrict(q, 1.0, full); }
  }

  lemma RealMono(a: real, b: real, c: real)
    requires a <= b && c >= 0.0
    ensures a * c <= b * c
  {
  }

  lemma RealMonoStrict(a: real, b: real, c: real)
    requires a < b && c > 0.0
    ensures a * c < b * c
  {
  }

  /** More tenure or more work never weighs less. */
  lemma WeightGrows(active: nat, power: real, active': nat, power': real, p: Params)
    requires ParamsOk(p) && active <= active' && power <= power'
    ensures Weight(active, power, p) <= Weight(active', power', p)
  {
    RatioGrows(active as real / 86400.0, active' as real / 86400.0, p.daysFull);
    RatioGrows(power, power', p.powerFull);
  }

  lemma RatioGrows(x: real, y: real, full: real)
    requires x <= y && full > 0.0
    ensures AtMostOne(x / full) <= AtMostOne(y / full)
  {
    var q, r := x / full, y / full;
    assert q * full == x && r * full == y;
    if r < q { RealMonoStrict(r, q, full); }
  }

  /** Below both full values, the weight is the mean of the two ratios. */
  lemma WeightIsMean(active: nat, power: real, p: Params)
    requires ParamsOk(p) && active as real <= p.daysFull * 86400.0 && power <= p.powerFull
    ensures var days, work := active as real / 86400.0 / p.daysFull, power / p.powerFull;
            days * p.daysFull == active as real / 86400.0 && work * p.powerFull == power
            && 2.0 * Weight(active, power, p) == days + work
  {
    RatioAtMost(active as real / 86400.0, p.daysFull);
    RatioAtMost(power, p.powerFull);
  }

  lemma RatioAtMost(x: real, full: real)
    requires full > 0.0 && x <= full
    ensures x / full <= 1.0 && (x / full) * full == x
  {
    DivideBack(x, full);
    RatioBelow(x, full, x / full);
  }

  lemma RatioBelow(x: real, full: real, q: real)
    requires q * full == x && x <= full && full > 0.0
    ensures q <= 1.0
  {
    if q > 1.0 { RealMonoStrict(1.0, q, full); }
  }

  lemma DivideBack(x: real, full: real)
    requires full > 0.0
    ensures (x / full) * full == x
  {
  }

  lemma EligibleNext(addrs: seq<string>, i: nat, hs: map<string, seq<Share>>, now: nat, p: Params)
    requires ParamsOk(p) && i < |addrs|
    ensures Eligible(addrs[..i + 1], hs, now, p) == Eligible(addrs[..i], hs, now, p) + JudgedOn(addrs[i], hs, now, p)
  {
    assert addrs[..i + 1][..i] == addrs[..i];
  }

  /** chirp_load_locked */
  method Load(saved: seq<Member>, now: nat) returns (ms: seq<Member>)
    ensures |ms| == |saved| && forall j | 0 <= j < |ms| :: ms[j] == Restored(saved[j], now)
  {
    ms := [];
    for k := 0 to |saved|
      invariant |ms| == k && forall j | 0 <= j < k :: ms[j] == Restored(saved[j], now)
    {
      var kept, _ := Prune(saved[k].shares, Cutoff(now));
      ms := ms + [saved[k].(firstSeen := if saved[k].firstSeen == 0 then now else saved[k].firstSeen, shares := kept)];
    }
  }

  lemma SameAddresses(ms: seq<Member>, ms': seq<Member>, a: string)
    requires |ms'| == |ms| && (forall j | 0 <= j < |ms| :: ms'[j].addr == ms[j].addr) && Listed(ms, a)
    ensures Listed(ms', a)
  {
    var j :| 0 <= j < |ms| && ms[j].addr == a;
    assert ms'[j].addr == a;
  }

  lemma SameListed(ms: seq<Member>, ms': seq<Member>, hs: map<string, seq<Share>>)
    requires |ms'| == |ms| && (forall j | 0 <= j < |ms| :: ms'[j].addr == ms[j].addr)
    requires Distinct(ms) && forall a | a in hs :: Listed(ms, a)
    ensures Distinct(ms') && forall a | a in hs :: Listed(ms', a)
  {
    forall a | a in hs ensures Listed(ms', a) { SameAddresses(ms, ms', a); }
  }

  lemma UpdateTwice(hs: map<string, seq<Share>>, a: string, x: seq<Share>, y: seq<Share>)
    ensures hs[a := x][a := y] == hs[a := y]
  {
  }

  lemma RecordAll(ms: seq<Member>, hs: map<string, seq<Share>>, cut: nat, i: nat, s: Share)
    requires AllTrack(ms, hs, cut) && i < |ms|
    ensures var a := ms[i].addr; AllTrack(ms[i := WithShare(ms[i], s)], hs[a := hs[a] + [s]], cut)
  {
    var a := ms[i].addr;
    RecordTracks(ms[i], hs[a], cut, s);
    SameListed(ms, ms[i := WithShare(ms[i], s)], hs);
  }

  lemma AddAll(ms: seq<Member>, hs: map<string, seq<Share>>, cut: nat, a: string, now: nat)
    requires AllTrack(ms, hs, cut) && forall j | 0 <= j < |ms| :: ms[j].addr != a
    ensures a !in hs && AllTrack(ms + [Member(a, now, 0, 0, [])], hs[a := []], cut)
  {
    var ms' := ms + [Member(a, now, 0, 0, [])];
    assert a in hs ==> Listed(ms, a);
    assert ms'[|ms|].addr == a;
    forall b | b in hs ensures Listed(ms', b) {
      var j :| 0 <= j < |ms| && ms[j].addr == b;
      assert ms'[j].addr == b;
    }
  }

  lemma PruneAll(ms: seq<Member>, hs: map<string, seq<Share>>, cut: nat, i: nat, now: nat)
    requires AllTrack(ms, hs, cut) && i < |ms| && cut <= Cutoff(now)
    ensures AllTrack(ms[i := ms[i].(shares := Since(ms[i].shares, Cutoff(now)))], hs, Cutoff(now))
  {
    PruneTracks(ms[i], hs[ms[i].addr], cut, now);
    RaiseCut(ms, hs, cut, Cutoff(now));
    SameListed(ms, ms[i := ms[i].(shares := Since(ms[i].shares, Cutoff(now)))], hs);
  }

  lemma RaiseCut(ms: seq<Member>, hs: map<string, seq<Share>>, cut: nat, cut': nat)
    requires AllTrack(ms, hs, cut) && cut <= cut'
    ensures AllTrack(ms, hs, cut')
  {
  }

  lemma RestoredTrack(saved: seq<Member>, ms: seq<Member>, hs: map<string, seq<Share>>, cut: nat, now: nat)
    requires AllTrack(saved, hs, cut) && cut <= Cutoff(now) && |ms| == |saved|
    requires forall j | 0 <= j < |ms| :: ms[j] == Restored(saved[j], now)
    ensures AllTrack(ms, hs, Cutoff(now))
  {
    forall j | 0 <= j < |ms| ensures ms[j].addr in hs && Tracks(ms[j], hs[ms[j].addr], Cutoff(now)) {
      PruneTracks(saved[j], hs[saved[j].addr], cut, now);
    }
    SameListed(saved, ms, hs);
  }
}
