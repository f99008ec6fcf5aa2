/** What the barrier of EmptyBarrier promises: full work of a type-2 job goes out only after every
    active thread has sent the job's empty work.  The flag is one for all jobs, and a thread being
    started takes part before it is counted, so the promise can be broken at two places, raising
    the flag and reading it; here is exactly when each of them keeps it. */
module BarrierPromise {
  import opened Wrappers
  import opened EmptyBarrier

  // ---- the two places ----

  predicate Raises(s: State) { !s.ready && s.count >= s.active }

  /** Every active thread has sent the empty work of the barrier's job. */
  ghost predicate AllActiveSent(s: State) { forall u | u in Active(s) :: (u, s.barrier) in s.sent }

  /** Thread v is between sending that work and reporting it. */
  predicate Reporting(s: State, v: nat) {
    v in s.threads && s.threads[v].pc == CountEmpty && s.threads[v].job == s.barrier
  }

  /** No thread stands in for a missing one: no thread is being started, or it has not reported, or
      there is a report to spare, or the missing report is on its way. */
  ghost predicate RaiseOk(s: State) {
    || s.starting.None? || s.starting.value !in s.counted || s.count > s.active
    || exists v :: v in Active(s) && v !in s.counted && Reporting(s, v)
  }

  /** The flag was raised for the job, and every thread active then has sent its empty work. */
  ghost predicate Covered(s: State, job: nat) {
    job in s.readyFor && forall u | u in s.readyFor[job] :: (u, job) in s.sent
  }

  /** The reader is not the thread that was being started when the flag went up, or it reads the flag
      of its own job, or that job's flag was up once. */
  predicate CheckOk(s: State, t: nat)
    requires t in s.threads
  {
    s.stranger != Some(t) || s.threads[t].job == s.barrier || s.threads[t].job in s.readyFor
  }

  // ---- raising the flag ----

  /** With at least |all| - 1 members, `c` covers `all` but for t exactly when t is not one of its
      members or it has one to spare. */
  lemma AllButOne(c: set<nat>, all: set<nat>, t: nat)
    requires c <= all && t in all && |c| >= |all| - 1
    ensures all - {t} <= c <==> (t !in c || |c| > |all| - 1)
  {
    var others := all - {t};
    if t in c {
      var rest := c - {t};
      if |c| > |all| - 1 { SubsetOfSameSize(rest, others); }
      if others <= c {
        assert others <= rest;
        SubsetSize(others, rest);
      }
    } else {
      SubsetOfSameSize(c, others);
    }
  }

  /** With exactly |all| - 1 members, t among them, only one is missing. */
  lemma OneMissing(c: set<nat>, all: set<nat>, t: nat, v: nat)
    requires c <= all && t in c && |c| == |all| - 1 && v in all - {t} && v !in c
    ensures all - {t} <= c + {v}
  {
    assert |c + {v}| == |all|;
    SubsetOfSameSize(c + {v}, all);
  }

  lemma CountedHaveSent(s: State, u: nat)
    requires CountInv(s) && u in s.counted
    ensures (u, s.barrier) in s.sent
  {
    assert ThreadInv(s, u, s.threads[u]);
  }

  lemma UncountedSenderReports(s: State, u: nat)
    requires CountInv(s) && !s.ready && u in s.threads && u !in s.counted
    ensures (u, s.barrier) in s.sent <==> Reporting(s, u)
  {
    assert ThreadInv(s, u, s.threads[u]);
  }

  /** A raise finds all active threads done exactly when no thread stands in for a missing one. */
  lemma RaiseIsExact(s: State)
    requires CountInv(s) && Raises(s)
    ensures AllActiveSent(s) <==> RaiseOk(s)
  {
    if s.starting.None? {
      AllCounted(s);
    } else {
      var x, all := s.starting.value, s.threads.Keys;
      assert |all| == |s.threads|;
      AllButOne(s.counted, all, x);
      forall u | u in s.counted ensures (u, s.barrier) in s.sent { CountedHaveSent(s, u); }
      if x in s.counted && s.count <= s.active { StandInIsExact(s, x); }
    }
  }

  lemma StandInIsExact(s: State, x: nat)
    requires CountInv(s) && Raises(s) && s.starting == Some(x) && x in s.counted && s.count == s.active
    ensures AllActiveSent(s) <==> exists v :: v in Active(s) && v !in s.counted && Reporting(s, v)
  {
    var all := s.threads.Keys;
    assert |all| == |s.threads|;
    AllButOne(s.counted, all, x);
    assert Active(s) == all - {x};
    var v :| v in Active(s) && v !in s.counted;
    OneMissing(s.counted, all, x, v);
    UncountedSenderReports(s, v);
    forall u | u in s.counted ensures (u, s.barrier) in s.sent { CountedHaveSent(s, u); }
  }

  // ---- reading the flag ----

  ghost predicate ThreadReady(s: State, t: nat, th: Thread) {
    && (s.ready && s.stranger != Some(t) ==>
          && (th.job >= s.barrier || (!th.newJob && th.pc != SendFull))
          && (s.publishing.Some? && th.pc != Boot ==> th.job == |s.jobs| - 1))
    && (th.pc == SendFull ==> th.job in s.readyFor)
  }

  /** Holds while every raise and every reading so far was right. */
  ghost predicate ReadyInv(s: State) {
    && (s.ready ==> s.barrier in s.readyFor)
    && (forall t | t in s.threads :: ThreadReady(s, t, s.threads[t]))
    && (forall j | j in s.readyFor :: Covered(s, j))
  }

  /** Under a raised flag a reading gives leave for a job that is covered exactly when the reader
      is not the stranger, or its job is the barrier's or was raised for. */
  lemma CheckIsExact(s: State, t: nat)
    requires CountInv(s) && ReadyInv(s) && Enabled(s, CheckFull(t)) && s.ready
    ensures Covered(s, s.threads[t].job) <==> CheckOk(s, t)
    ensures s.stranger != Some(t) ==> s.threads[t].job == s.barrier
  {
    assert ThreadInv(s, t, s.threads[t]) && ThreadReady(s, t, s.threads[t]);
  }

  /** Leave is given exactly under a raised flag, and with it the thread can send the full work of its job,
      once; without it, it asks again. */
  lemma LeaveIsGiven(s: State, t: nat)
    requires CountInv(s) && Enabled(s, CheckFull(t))
    ensures var s' := Apply(s, CheckFull(t));
            if s.ready then
              && Enabled(s', FullBlast(t)) && s'.threads[t].job == s.threads[t].job
              && !Apply(s', FullBlast(t)).threads[t].newJob
            else
              && !Enabled(s', FullBlast(t)) && s'.threads[t] == s.threads[t].(pc := Top)
  {
    assert ThreadInv(s, t, s.threads[t]);
  }

  /** The steps that keep the promise: what RaiseIsExact and CheckIsExact ask for. */
  ghost predicate SafeStep(s: State, e: Step)
    requires Enabled(s, e)
  {
    (e.CheckReady? && Raises(s) ==> RaiseOk(s)) && (e.CheckFull? && s.ready ==> CheckOk(s, e.t))
  }

  /** The promise itself, where a step could break it. */
  ghost predicate KeepsPromise(s: State, e: Step)
    requires Enabled(s, e)
  {
    && (e.CheckReady? && Raises(s) ==> AllActiveSent(s))
    && (e.CheckFull? && s.ready ==> Covered(s, s.threads[e.t].job))
  }

  lemma StepIsExact(s: State, e: Step)
    requires CountInv(s) && ReadyInv(s) && Enabled(s, e)
    ensures KeepsPromise(s, e) <==> SafeStep(s, e)
  {
    if e.CheckReady? && Raises(s) {
      RaiseIsExact(s);
    } else if e.CheckFull? && s.ready {
      CheckIsExact(s, e.t);
    }
  }

  // ---- the invariant ----

  /** One thread moves; sends only add up; the barrier itself stays. */
  lemma ThreadMoveKeepsReadyInv(s: State, s': State, t: nat, th: Thread)
    requires ReadyInv(s) && t in s.threads && s'.threads == s.threads[t := th]
    requires s'.ready == s.ready && s'.barrier == s.barrier && s'.readyFor == s.readyFor
    requires s'.jobs == s.jobs && s'.publishing == s.publishing && s.sent <= s'.sent && s'.stranger == s.stranger
    requires ThreadReady(s, t, th)
    ensures ReadyInv(s')
  {
    forall j | j in s'.readyFor ensures Covered(s', j) { assert Covered(s, j); }
    forall u | u in s'.threads ensures ThreadReady(s', u, s'.threads[u]) {
      if u != t { assert ThreadReady(s, u, s.threads[u]); }
    }
  }

  lemma PickUpIsReady(s: State, t: nat)
    requires CountInv(s) && ReadyInv(s) && Enabled(s, PickUp(t))
    ensures ThreadReady(s, t, Apply(s, PickUp(t)).threads[t])
  {
    assert ThreadReady(s, t, s.threads[t]);
    assert s.threads[t].job != |s.jobs| - 1;
  }

  lemma CheckFullIsReady(s: State, t: nat)
    requires CountInv(s) && ReadyInv(s) && Enabled(s, CheckFull(t)) && SafeStep(s, CheckFull(t))
    ensures ThreadReady(s, t, Apply(s, CheckFull(t)).threads[t])
  {
    assert ThreadReady(s, t, s.threads[t]);
    if s.ready { CheckIsExact(s, t); }
  }

  lemma CheckReadyKeepsReadyInv(s: State)
    requires CountInv(s) && ReadyInv(s) && SafeStep(s, CheckReady)
    ensures ReadyInv(Apply(s, CheckReady))
  {
    if Raises(s) {
      RaiseIsExact(s);
      var s' := Apply(s, CheckReady);
      forall j | j in s'.readyFor ensures Covered(s', j) {
        if j != s.barrier { assert Covered(s, j); }
      }
      forall u | u in s'.threads ensures ThreadReady(s', u, s'.threads[u]) {
        assert ThreadReady(s, u, s.threads[u]) && ThreadInv(s, u, s.threads[u]);
        assert u in Active(s) ==> (u, s.barrier) in s.sent;
      }
    }
  }

  lemma PublisherKeepsReadyInv(s: State, e: Step)
    requires CountInv(s) && ReadyInv(s) && Enabled(s, e)
    requires e.ResetBarrier? || e.PublishReset? || e.PublishPlain? || e.CountStart? || e.Start?
    ensures ReadyInv(Apply(s, e))
  {
    var s' := Apply(s, e);
    forall j | j in s'.readyFor ensures Covered(s', j) { assert Covered(s, j); }
    forall u | u in s'.threads ensures ThreadReady(s', u, s'.threads[u]) {
      if u in s.threads { assert ThreadReady(s, u, s.threads[u]) && s'.threads[u] == s.threads[u]; }
    }
  }

  predicate IsThreadStep(e: Step) {
    IsPlainMove(e) || e.PickUp? || e.EmptyBlast? || e.Increment?
  }

  lemma ThreadStepFrame(s: State, e: Step)
    requires Enabled(s, e) && IsThreadStep(e)
    ensures e.t in s.threads
    ensures var s' := Apply(s, e);
            && e.t in s'.threads && s'.threads == s.threads[e.t := s'.threads[e.t]]
            && s'.ready == s.ready && s'.barrier == s.barrier && s'.readyFor == s.readyFor
            && s'.jobs == s.jobs && s'.publishing == s.publishing && s.sent <= s'.sent && s'.stranger == s.stranger
  {
  }

  lemma ThreadStepIsReady(s: State, e: Step)
    requires CountInv(s) && ReadyInv(s) && Enabled(s, e) && IsThreadStep(e) && SafeStep(s, e)
    ensures e.t in Apply(s, e).threads && ThreadReady(s, e.t, Apply(s, e).threads[e.t])
  {
    if e.PickUp? {
      PickUpIsReady(s, e.t);
    } else if e.CheckFull? {
      CheckFullIsReady(s, e.t);
    } else {
      OtherStepIsReady(s, e);
    }
  }

  lemma OtherStepIsReady(s: State, e: Step)
    requires ReadyInv(s) && Enabled(s, e) && IsThreadStep(e) && !e.PickUp? && !e.CheckFull?
    ensures e.t in Apply(s, e).threads && ThreadReady(s, e.t, Apply(s, e).threads[e.t])
  {
    assert ThreadReady(s, e.t, s.threads[e.t]);
  }

  lemma SafeStepKeepsReadyInv(s: State, e: Step)
    requires CountInv(s) && ReadyInv(s) && Enabled(s, e) && SafeStep(s, e)
    ensures ReadyInv(Apply(s, e))
  {
    if IsThreadStep(e) {
      ThreadStepFrame(s, e);
      ThreadStepIsReady(s, e);
      ThreadMoveKeepsReadyInv(s, Apply(s, e), e.t, Apply(s, e).threads[e.t]);
    } else if e.CheckReady? {
      CheckReadyKeepsReadyInv(s);
    } else {
      PublisherKeepsReadyInv(s, e);
    }
  }

  // ---- whole runs ----

  ghost predicate IsSafeRun(s: State, steps: seq<Step>, last: State)
    decreases |steps|
  {
    if steps == [] then s == last
    else Enabled(s, steps[0]) && SafeStep(s, steps[0]) && IsSafeRun(Apply(s, steps[0]), steps[1..], last)
  }

  ghost predicate IsKeptRun(s: State, steps: seq<Step>, last: State)
    decreases |steps|
  {
    if steps == [] then s == last
    else Enabled(s, steps[0]) && KeepsPromise(s, steps[0]) && IsKeptRun(Apply(s, steps[0]), steps[1..], last)
  }

  lemma {:induction false} SafeRunKeepsInv(s: State, steps: seq<Step>, last: State)
    requires CountInv(s) && ReadyInv(s) && IsSafeRun(s, steps, last)
    ensures CountInv(last) && ReadyInv(last)
    decreases |steps|
  {
    if steps != [] {
      StepKeepsCountInv(s, steps[0]);
      SafeStepKeepsReadyInv(s, steps[0]);
      SafeRunKeepsInv(Apply(s, steps[0]), steps[1..], last);
    }
  }

  /** A thread about to send the full work of a type-2 job does so after the flag was raised for that
      very job and every thread active at that time has sent the job's empty work, in every run whose
      raises and readings meet their conditions. */
  lemma EmptyEverywhereBeforeFull(steps: seq<Step>, s: State, t: nat)
    requires IsSafeRun(INIT, steps, s) && Enabled(s, FullBlast(t))
    ensures Covered(s, s.threads[t].job)
  {
    SafeRunKeepsInv(INIT, steps, s);
    assert ThreadReady(s, t, s.threads[t]);
  }

  /** And in no other: a run keeps the promise at every raise and every reading if and only if each
      of them meets its condition. */
  lemma PromiseKeptExactly(steps: seq<Step>, s: State)
    ensures IsKeptRun(INIT, steps, s) <==> IsSafeRun(INIT, steps, s)
  {
    KeptExactlyFrom(INIT, steps, s);
  }

  lemma {:induction false} KeptExactlyFrom(s: State, steps: seq<Step>, last: State)
    requires CountInv(s) && ReadyInv(s)
    ensures IsKeptRun(s, steps, last) <==> IsSafeRun(s, steps, last)
    decreases |steps|
  {
    if steps != [] && Enabled(s, steps[0]) {
      StepIsExact(s, steps[0]);
      if SafeStep(s, steps[0]) {
        StepKeepsCountInv(s, steps[0]);
        SafeStepKeepsReadyInv(s, steps[0]);
        KeptExactlyFrom(Apply(s, steps[0]), steps[1..], last);
      }
    }
  }

  /** The main loop looks at the flag only between thread starts. */
  predicate Quiet(s: State, e: Step) { e.CheckReady? ==> s.starting.None? }

  ghost predicate IsQuietRun(s: State, steps: seq<Step>, last: State)
    decreases |steps|
  {
    if steps == [] then s == last
    else Enabled(s, steps[0]) && Quiet(s, steps[0]) && IsQuietRun(Apply(s, steps[0]), steps[1..], last)
  }

  /** Such runs meet all conditions by themselves. */
  lemma {:induction false} QuietRunIsSafe(s: State, steps: seq<Step>, last: State)
    requires IsQuietRun(s, steps, last) && s.stranger.None?
    ensures IsSafeRun(s, steps, last)
    decreases |steps|
  {
    if steps != [] { QuietRunIsSafe(Apply(s, steps[0]), steps[1..], last); }
  }
}
