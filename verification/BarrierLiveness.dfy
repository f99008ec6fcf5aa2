/** Whether the flag of EmptyBarrier can still go up for the job it was last reset for.  A thread that
    reads its first job after that one was published has nothing new to do and never reports it, and a thread
    that was behind when a later job came skips it; each such thread that is counted as active is one
    report too few. */
module BarrierLiveness {
  import opened EmptyBarrier
  import opened BarrierPromise

  /** The thread has reported the barrier's job, is about to, has it to send, or will still pick it up. */
  predicate CanReport(s: State, t: nat)
    requires t in s.threads
  {
    var th := s.threads[t];
    || t in s.counted || Reporting(s, t)
    || (s.barrier < |s.jobs| && IsEmptyKind(s.jobs[s.barrier])
        && ((th.job == s.barrier && th.pc == Dispatch && OwesEmpty(s, th))
            || (th.pc != Boot && th.job < s.barrier && s.barrier == |s.jobs| - 1)))
  }

  function Reporters(s: State): set<nat> { set t | t in s.threads && CanReport(s, t) }

  /** The barrier's job is published and its flag is down. */
  ghost predicate Open(s: State) { CountInv(s) && s.publishing.None? && s.barrier < |s.jobs| && !s.ready }

  // ---- without enough reporters it never goes up ----

  lemma CountedAreReporters(s: State)
    requires CountInv(s)
    ensures s.counted <= Reporters(s) && s.count <= |Reporters(s)|
  {
    SubsetSize(s.counted, Reporters(s));
  }

  /** A thread's own step does not make it a reporter. */
  lemma OwnStepAddsNone(s: State, e: Step)
    requires Open(s) && Enabled(s, e) && IsThreadStep(e) && e.t in s.threads
    requires CanReport(Apply(s, e), e.t)
    ensures CanReport(s, e.t)
  {
    assert ThreadInv(s, e.t, s.threads[e.t]);
    if e.PickUp? {
      PickUpAddsNone(s, e.t);
    } else if e.EmptyBlast? || e.Increment? {
      SendAddsNone(s, e);
    } else {
      PlainMoveAddsNone(s, e);
    }
  }

  lemma PickUpAddsNone(s: State, t: nat)
    requires s.publishing.None? && s.barrier < |s.jobs| && Enabled(s, PickUp(t)) && ThreadInv(s, t, s.threads[t])
    requires CanReport(Apply(s, PickUp(t)), t)
    ensures CanReport(s, t)
  {
  }

  lemma SendAddsNone(s: State, e: Step)
    requires Enabled(s, e) && (e.EmptyBlast? || e.Increment?) && ThreadInv(s, e.t, s.threads[e.t])
    requires !s.ready && s.barrier < |s.jobs| && CanReport(Apply(s, e), e.t)
    ensures CanReport(s, e.t)
  {
    if SameSlot(s.threads[e.t].job, s.barrier) && e.Increment? { SameResidue(s.threads[e.t].job, s.barrier); }
  }

  lemma PlainMoveAddsNone(s: State, e: Step)
    requires Enabled(s, e) && IsPlainMove(e) && ThreadInv(s, e.t, s.threads[e.t])
    requires CanReport(Apply(s, e), e.t)
    ensures CanReport(s, e.t)
  {
  }

  /** Nor does any other step but a reset. */
  lemma OtherStepAddsNone(s: State, e: Step, t: nat)
    requires Open(s) && Enabled(s, e) && !e.ResetBarrier? && !(IsThreadStep(e) && e.t == t)
    requires t in Apply(s, e).threads && CanReport(Apply(s, e), t)
    ensures t in s.threads && CanReport(s, t)
  {
    if IsThreadStep(e) {
      OthersStepAddsNone(s, e, t);
    } else if t in s.threads {
      assert ThreadInv(s, t, s.threads[t]);
      assert Apply(s, e).threads[t] == s.threads[t];
    }
  }

  lemma OthersStepAddsNone(s: State, e: Step, t: nat)
    requires Open(s) && Enabled(s, e) && IsThreadStep(e) && e.t != t
    requires t in Apply(s, e).threads && CanReport(Apply(s, e), t)
    ensures t in s.threads && CanReport(s, t)
  {
    ThreadStepFrame(s, e);
    assert Apply(s, e).threads[t] == s.threads[t];
    CountsOnlyItself(s, e);
  }

  lemma CountsOnlyItself(s: State, e: Step)
    requires Enabled(s, e) && IsThreadStep(e)
    ensures Apply(s, e).counted <= s.counted + {e.t}
  {
  }

  lemma NoNewReporter(s: State, e: Step, t: nat)
    requires Open(s) && Enabled(s, e) && !e.ResetBarrier?
    requires t in Apply(s, e).threads && CanReport(Apply(s, e), t)
    ensures t in s.threads && CanReport(s, t)
  {
    if IsThreadStep(e) && e.t == t {
      ThreadStepFrame(s, e);
      OwnStepAddsNone(s, e);
    } else {
      OtherStepAddsNone(s, e, t);
    }
  }

  lemma ReportersOnlyShrink(s: State, e: Step)
    requires Open(s) && Enabled(s, e) && !e.ResetBarrier?
    ensures Reporters(Apply(s, e)) <= Reporters(s) && Apply(s, e).active >= s.active
  {
    forall t | t in Reporters(Apply(s, e)) ensures t in Reporters(s) { NoNewReporter(s, e, t); }
  }

  ghost predicate NoReset(steps: seq<Step>) { forall i | 0 <= i < |steps| :: !steps[i].ResetBarrier? }

  /** Fewer possible reporters than active threads. */
  ghost predicate TooFew(s: State) { Open(s) && |Reporters(s)| < s.active }

  /** Then the flag stays down until the next reset. */
  lemma {:induction false} StaysDown(s: State, steps: seq<Step>, last: State)
    requires TooFew(s) && IsRun(s, steps, last) && NoReset(steps)
    ensures !last.ready
    decreases |steps|
  {
    if steps != [] {
      StaysTooFew(s, steps[0]);
      var rest := steps[1..];
      assert NoReset(rest) by { assert forall i | 0 <= i < |rest| :: rest[i] == steps[i + 1]; }
      StaysDown(Apply(s, steps[0]), rest, last);
    }
  }

  lemma StaysTooFew(s: State, e: Step)
    requires TooFew(s) && Enabled(s, e) && !e.ResetBarrier?
    ensures TooFew(Apply(s, e))
  {
    var s' := Apply(s, e);
    ReportersOnlyShrink(s, e);
    SubsetSize(Reporters(s'), Reporters(s));
    StaysOpen(s, e);
  }

  lemma StaysOpen(s: State, e: Step)
    requires TooFew(s) && Enabled(s, e) && !e.ResetBarrier?
    ensures Open(Apply(s, e))
  {
    CountedAreReporters(s);
    StepKeepsCountInv(s, e);
  }

  // ---- with enough of them it can ----

  ghost predicate Reaches(s0: State, r: seq<Step>, s: State) {
    && CountInv(s0) && IsRun(s0, r, s) && NoReset(r)
    && s.publishing.None? && s.barrier < |s.jobs| && !s.ready
  }

  lemma ReachedThread(s0: State, r: seq<Step>, s: State, t: nat)
    requires Reaches(s0, r, s) && t in s.threads
    ensures ThreadInv(s, t, s.threads[t])
  {
    RunKeepsCountInv(s0, r, s);
  }

  lemma Go(s0: State, r: seq<Step>, s: State, e: Step) returns (r': seq<Step>, s': State)
    requires Reaches(s0, r, s) && Enabled(s, e) && IsThreadStep(e)
    ensures s' == Apply(s, e) && Reaches(s0, r', s')
  {
    ThreadStepFrame(s, e);
    RunSnoc(s0, r, s, e);
    r', s' := r + [e], Apply(s, e);
  }

  /** Only thread t moved, and perhaps sent and was counted. */
  ghost predicate OnlyThread(s: State, s': State, t: nat) {
    && t in s.threads && t in s'.threads && s'.threads == s.threads[t := s'.threads[t]]
    && s'.jobs == s.jobs && s'.barrier == s.barrier && s'.active == s.active && s'.ready == s.ready
  }

  /** A thread that is behind gets back to the top of its loop. */
  lemma ToTop(s0: State, r: seq<Step>, s: State, t: nat) returns (r': seq<Step>, s': State)
    requires Reaches(s0, r, s) && t in s.threads && s.threads[t].job < s.barrier
    requires s.threads[t].pc != Boot
    ensures Reaches(s0, r', s') && OnlyThread(s, s', t) && s'.counted == s.counted
    ensures s'.threads[t].pc == Top && s'.threads[t].job == s.threads[t].job
  {
    ReachedThread(s0, r, s, t);
    match s.threads[t].pc {
      case Top => r', s' := r, s;
      case SendFull => r', s' := Go(s0, r, s, FullBlast(t));
      case CountEmpty => r', s' := Settle(s0, r, s, t);
      case Dispatch => r', s' := Dispatched(s0, r, s, t);
    }
  }

  lemma Dispatched(s0: State, r: seq<Step>, s: State, t: nat) returns (r': seq<Step>, s': State)
    requires Reaches(s0, r, s) && At(s, t, Dispatch) && s.threads[t].job < s.barrier
    ensures Reaches(s0, r', s') && OnlyThread(s, s', t) && s'.counted == s.counted
    ensures s'.threads[t].pc == Top && s'.threads[t].job == s.threads[t].job
  {
    var th := s.threads[t];
    if OwesEmpty(s, th) {
      r', s' := Go(s0, r, s, EmptyBlast(t));
      r', s' := Settle(s0, r', s', t);
    } else if th.newJob && IsEmptyKind(s.jobs[th.job]) {
      r', s' := Go(s0, r, s, CheckFull(t));
    } else {
      r', s' := Go(s0, r, s, OtherBlast(t));
    }
  }

  lemma Settle(s0: State, r: seq<Step>, s: State, t: nat) returns (r': seq<Step>, s': State)
    requires Reaches(s0, r, s) && At(s, t, CountEmpty) && s.threads[t].job < s.barrier
    ensures Reaches(s0, r', s') && s' == SetThread(s, t, s.threads[t].(pc := Top))
  {
    ReachedThread(s0, r, s, t);
    NotSameSlot(s.threads[t].job, s.barrier);
    r', s' := Go(s0, r, s, Increment(t));
  }

  lemma NotSameSlot(a: nat, b: nat)
    requires a < b && b - a < RING
    ensures !SameSlot(a, b)
  {
  }

  /** A thread that has the barrier's empty work to send sends and reports it. */
  lemma SendAndReport(s0: State, r: seq<Step>, s: State, t: nat) returns (r': seq<Step>, s': State)
    requires Reaches(s0, r, s) && At(s, t, Dispatch) && s.threads[t].job == s.barrier && OwesEmpty(s, s.threads[t])
    requires t !in s.counted
    ensures Reaches(s0, r', s') && OnlyThread(s, s', t) && s'.counted == s.counted + {t}
  {
    r', s' := Go(s0, r, s, EmptyBlast(t));
    assert OnlyThread(s, s', t) && Reporting(s', t) && s'.counted == s.counted;
    r', s' := Report(s0, r', s', t);
  }

  lemma Report(s0: State, r: seq<Step>, s: State, t: nat) returns (r': seq<Step>, s': State)
    requires Reaches(s0, r, s) && Reporting(s, t) && t !in s.counted
    ensures Reaches(s0, r', s') && OnlyThread(s, s', t) && s'.counted == s.counted + {t}
  {
    ReachedThread(s0, r, s, t);
    r', s' := Go(s0, r, s, Increment(t));
  }

  lemma PickUpAndReport(s0: State, r: seq<Step>, s: State, t: nat) returns (r': seq<Step>, s': State)
    requires Reaches(s0, r, s) && At(s, t, Top) && s.threads[t].job < s.barrier == |s.jobs| - 1
    requires IsEmptyKind(s.jobs[s.barrier]) && t !in s.counted
    ensures Reaches(s0, r', s') && OnlyThread(s, s', t) && s'.counted == s.counted + {t}
  {
    ReachedThread(s0, r, s, t);
    NotSameSlot(s.threads[t].job, s.barrier);
    r', s' := Go(s0, r, s, PickUp(t));
    r', s' := SendAndReport(s0, r', s', t);
  }

  /** Any possible reporter can be brought to report. */
  lemma MakeReport(s0: State, r: seq<Step>, s: State, t: nat) returns (r': seq<Step>, s': State)
    requires Reaches(s0, r, s) && t in Reporters(s) && t !in s.counted
    ensures Reaches(s0, r', s') && OnlyThread(s, s', t) && s'.counted == s.counted + {t}
  {
    ReachedThread(s0, r, s, t);
    if Reporting(s, t) {
      r', s' := Report(s0, r, s, t);
    } else if s.threads[t].job == s.barrier {
      r', s' := SendAndReport(s0, r, s, t);
    } else {
      r', s' := ToTop(s0, r, s, t);
      r', s' := PickUpAndReport(s0, r', s', t);
    }
  }

  lemma ReportersStay(s: State, s': State, t: nat)
    requires t in Reporters(s) && OnlyThread(s, s', t) && s'.counted == s.counted + {t}
    ensures Reporters(s') == Reporters(s)
  {
    forall u | u in s.threads && u != t ensures CanReport(s', u) <==> CanReport(s, u) {
      assert s'.threads[u] == s.threads[u];
    }
  }

  lemma {:induction false} GoesUp(s0: State, r: seq<Step>, s: State) returns (r': seq<Step>, s': State)
    requires Reaches(s0, r, s) && |Reporters(s)| >= s.active
    ensures IsRun(s0, r', s') && NoReset(r') && s'.ready
    decreases |Reporters(s) - s.counted|
  {
    if t :| t in Reporters(s) && t !in s.counted {
      r', s' := OneMoreReports(s0, r, s, t);
      r', s' := GoesUp(s0, r', s');
    } else {
      r', s' := AllReported(s0, r, s);
    }
  }

  lemma OneMoreReports(s0: State, r: seq<Step>, s: State, t: nat) returns (r': seq<Step>, s': State)
    requires Reaches(s0, r, s) && t in Reporters(s) && t !in s.counted
    ensures Reaches(s0, r', s') && Reporters(s') == Reporters(s) && s'.active == s.active
    ensures |Reporters(s') - s'.counted| < |Reporters(s) - s.counted|
  {
    r', s' := MakeReport(s0, r, s, t);
    ReportersStay(s, s', t);
    assert Reporters(s') - s'.counted == (Reporters(s) - s.counted) - {t};
  }

  lemma AllReported(s0: State, r: seq<Step>, s: State) returns (r': seq<Step>, s': State)
    requires Reaches(s0, r, s) && |Reporters(s)| >= s.active && Reporters(s) <= s.counted
    ensures IsRun(s0, r', s') && NoReset(r') && s'.ready
  {
    RunKeepsCountInv(s0, r, s);
    SubsetSize(Reporters(s), s.counted);
    RunSnoc(s0, r, s, CheckReady);
    r', s' := r + [CheckReady], Apply(s, CheckReady);
  }

  ghost predicate CanGoUp(s: State) { exists r, s' :: IsRun(s, r, s') && NoReset(r) && s'.ready }

  /** In every reachable state with a published barrier job and the flag down, the flag can still go
      up for that job if and only if at least as many threads can report it as are active. */
  lemma FlagCanGoUpExactly(steps: seq<Step>, s: State)
    requires IsRun(INIT, steps, s) && s.publishing.None? && s.barrier < |s.jobs| && !s.ready
    ensures CanGoUp(s) <==> |Reporters(s)| >= s.active
  {
    RunKeepsCountInv(INIT, steps, s);
    if |Reporters(s)| >= s.active {
      var r, s' := GoesUp(s, [], s);
    } else if CanGoUp(s) {
      var r, s' :| IsRun(s, r, s') && NoReset(r) && s'.ready;
      StaysDown(s, r, s');
    }
  }

  /** A thread that reads its first job after the barrier's job was published is no reporter, before or
      after it reads, whether it was counted as active by then or not. */
  lemma LateStarterNeverReports(s: State, t: nat)
    requires Open(s) && (Enabled(s, Start(t)) || Enabled(s, Init(t)))
    ensures t !in Reporters(s)
    ensures Enabled(s, Start(t)) ==>
      t !in Reporters(Apply(s, Start(t))) && Reporters(Apply(s, Start(t))) <= Reporters(s)
    ensures Enabled(s, Init(t)) ==>
      t !in Reporters(Apply(s, Init(t))) && Reporters(Apply(s, Init(t))) <= Reporters(s)
  {
    if t in s.threads { assert ThreadInv(s, t, s.threads[t]); }
    if Enabled(s, Start(t)) { ReportersOnlyShrink(s, Start(t)); }
    if Enabled(s, Init(t)) { ReportersOnlyShrink(s, Init(t)); }
  }
}
