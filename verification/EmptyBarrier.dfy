/** The "empty work everywhere before full work anywhere" barrier of src/datum_stratum.c as a
    step system: the job publisher (update_stratum_job), the main loop that raises the
    ready-for-full flag, the listener that starts socket threads (assign_to_thread) and any
    number of socket threads (datum_stratum_v1_socket_thread_loop).

    Jobs are numbered in publication order; the program only ever compares numbers modulo the
    job ring.  Each lock region is a step, and a send and the count that follows it are two. */
module EmptyBarrier {
  import opened Wrappers

  /** MAX_STRATUM_JOBS */
  const RING: nat := 256

  const EMPTY_ONLY: nat := 1
  const EMPTY_PLUS: nat := 2
  const FULL_PRIORITY: nat := 3

  /** Boot is a created thread that has not read its first job yet; its job number means nothing. */
  datatype Pc = Boot | Top | Dispatch | CountEmpty | SendFull

  datatype Thread = Thread(job: nat, newJob: bool, lastWasEmpty: bool, pc: Pc)

  datatype State = State(
    jobs: seq<nat>,               // job_state of every published job
    publishing: Option<nat>,      // barrier reset, job not visible yet
    barrier: nat,                 // job number the barrier was last reset for
    count: nat,
    ready: bool,
    counted: set<nat>,            // threads behind `count`
    threads: map<nat, Thread>,
    active: nat,                  // datum_active_threads
    starting: Option<nat>,        // thread running but not in `active` yet
    sent: set<(nat, nat)>,        // (thread, job): empty work sent
    readyFor: map<nat, set<nat>>, // job -> active threads when its flag was raised
    stranger: Option<nat>)        // thread that was being started when the flag was last raised

  const INIT := State([], None, 0, 0, false, {}, map[], 0, None, {}, map[], None)

  datatype Step =
    | ResetBarrier(state: nat)
    | PublishReset
    | PublishPlain(state: nat)
    | Start(t: nat)
    | CountStart
    | Init(t: nat)
    | CheckReady
    | PickUp(t: nat)
    | Skip(t: nat)
    | EmptyBlast(t: nat)
    | Increment(t: nat)
    | CheckFull(t: nat)
    | FullBlast(t: nat)
    | OtherBlast(t: nat)
    | Wait(t: nat)

  /** The program's comparison of job numbers. */
  predicate SameSlot(a: nat, b: nat) { a % RING == b % RING }

  predicate IsEmptyKind(state: nat) { state == EMPTY_ONLY || state == EMPTY_PLUS }

  /** No thread is a whole ring behind; its job's memory would have been reused by then. */
  predicate NoLap(s: State, published: nat) {
    forall t | t in s.threads && s.threads[t].pc != Boot :: published - s.threads[t].job < RING
  }

  predicate At(s: State, t: nat, pc: Pc) {
    t in s.threads && s.threads[t].pc == pc && s.threads[t].job < |s.jobs|
  }

  predicate Enabled(s: State, e: Step) {
    match e
    case ResetBarrier(_) => s.publishing.None?
    case PublishReset => s.publishing.Some? && NoLap(s, |s.jobs| + 1)
    // job states 1 and 2 are only ever published for a new block (datum_blocktemplates.c:965)
    case PublishPlain(state) => s.publishing.None? && !IsEmptyKind(state) && NoLap(s, |s.jobs| + 1)
    case Start(t) => t !in s.threads && s.starting.None? && s.jobs != []
    case CountStart => s.starting.Some?
    case Init(t) => At(s, t, Boot)
    case CheckReady => true
    case PickUp(t) => At(s, t, Top) && !SameSlot(s.threads[t].job, |s.jobs| - 1)
    case Skip(t) =>
      && At(s, t, Top)
      && (SameSlot(s.threads[t].job, |s.jobs| - 1) || (s.threads[t].lastWasEmpty && s.jobs[|s.jobs| - 1] >= 4))
    case EmptyBlast(t) =>
      && At(s, t, Dispatch) && s.threads[t].newJob
      && (s.jobs[s.threads[t].job] == EMPTY_ONLY ||
          (s.jobs[s.threads[t].job] == EMPTY_PLUS && !s.threads[t].lastWasEmpty))
    case Increment(t) => At(s, t, CountEmpty)
    case CheckFull(t) =>
      && At(s, t, Dispatch) && s.threads[t].newJob
      && s.jobs[s.threads[t].job] == EMPTY_PLUS && s.threads[t].lastWasEmpty
    case FullBlast(t) => At(s, t, SendFull)
    case OtherBlast(t) =>
      At(s, t, Dispatch) && (s.threads[t].newJob ==> !IsEmptyKind(s.jobs[s.threads[t].job]))
    case Wait(t) =>
      At(s, t, Dispatch) && s.threads[t].newJob && !IsEmptyKind(s.jobs[s.threads[t].job])
      && s.jobs[s.threads[t].job] != FULL_PRIORITY
  }

  /** The threads that datum_active_threads counts. */
  function Active(s: State): set<nat> {
    if s.starting.Some? then s.threads.Keys - {s.starting.value} else s.threads.Keys
  }

  function SetThread(s: State, t: nat, th: Thread): State { s.(threads := s.threads[t := th]) }

  function Apply(s: State, e: Step): State
    requires Enabled(s, e)
  {
    match e
    case ResetBarrier(state) =>
      s.(publishing := Some(state), barrier := |s.jobs|, count := 0, ready := false, counted := {})
    case PublishReset => s.(jobs := s.jobs + [s.publishing.value], publishing := None)
    case PublishPlain(state) => s.(jobs := s.jobs + [state])
    case Start(t) => SetThread(s, t, Thread(|s.jobs| - 1, false, false, Boot)).(starting := Some(t))
    case CountStart => s.(active := s.active + 1, starting := None)
    case Init(t) => SetThread(s, t, Thread(|s.jobs| - 1, false, false, Top))
    case CheckReady =>
      if !s.ready && s.count >= s.active
      then s.(ready := true, readyFor := s.readyFor[s.barrier := Active(s)], stranger := s.starting)
      else s
    case PickUp(t) =>
      var job := |s.jobs| - 1;
      SetThread(s, t, Thread(job, true, s.threads[t].lastWasEmpty && s.jobs[job] != EMPTY_PLUS, Dispatch))
    case Skip(t) => SetThread(s, t, s.threads[t].(pc := Dispatch))
    case EmptyBlast(t) =>
      var th := s.threads[t];
      SetThread(s, t, Thread(th.job, s.jobs[th.job] == EMPTY_PLUS, true, CountEmpty)).(sent := s.sent + {(t, th.job)})
    case Increment(t) =>
      var s1 := SetThread(s, t, s.threads[t].(pc := Top));
      if SameSlot(s.threads[t].job, s.barrier) && !s.ready
      then s1.(count := s.count + 1, counted := s.counted + {t})
      else s1
    case CheckFull(t) => SetThread(s, t, s.threads[t].(pc := if s.ready then SendFull else Top))
    case FullBlast(t) => SetThread(s, t, Thread(s.threads[t].job, false, false, Top))
    case OtherBlast(t) =>
      // states 3 to 5 go out (4 and 5 once their coinbaser is there); otherwise nothing is new
      var th := s.threads[t];
      SetThread(s, t, if th.newJob then Thread(th.job, false, false, Top) else th.(pc := Top))
    case Wait(t) =>
      // states 4 and 5 without their coinbaser, and unknown states: the job stays new
      SetThread(s, t, s.threads[t].(pc := Top))
  }

  /** A thread still owes the empty blast of its current job. */
  predicate OwesEmpty(s: State, th: Thread)
    requires th.job < |s.jobs|
  {
    th.newJob && (s.jobs[th.job] == EMPTY_ONLY || (s.jobs[th.job] == EMPTY_PLUS && !th.lastWasEmpty))
  }

  ghost predicate ThreadInv(s: State, t: nat, th: Thread) {
    && th.job < |s.jobs| && (th.pc != Boot ==> |s.jobs| - th.job < RING) && (th.pc == Boot ==> t !in s.counted)
    && (IsEmptyKind(s.jobs[th.job]) ==> th.job <= s.barrier)
    && (th.pc == Top ==> !OwesEmpty(s, th))
    && (th.pc == Dispatch && OwesEmpty(s, th) ==> (t, th.job) !in s.sent)
    && (th.pc == CountEmpty ==>
          && IsEmptyKind(s.jobs[th.job]) && (t, th.job) in s.sent
          && !(t in s.counted && th.job == s.barrier)
          && (th.newJob ==> s.jobs[th.job] == EMPTY_PLUS && th.lastWasEmpty))
    && (t in s.counted ==> (t, s.barrier) in s.sent)
    && (!s.ready && (t, s.barrier) in s.sent && t !in s.counted ==> th.pc == CountEmpty && th.job == s.barrier)
  }

  ghost predicate SentUpToJob(s: State) {
    forall x | x in s.sent :: x.0 in s.threads && x.1 <= s.threads[x.0].job
  }

  ghost predicate ThreadsInv(s: State) { forall t | t in s.threads :: ThreadInv(s, t, s.threads[t]) }

  /** `count` is the number of distinct threads that reported the empty send of the barrier's job. */
  ghost predicate TallyInv(s: State) {
    && (forall i | 0 <= i < |s.jobs| && IsEmptyKind(s.jobs[i]) :: i <= s.barrier)
    && (s.publishing.Some? ==> s.barrier == |s.jobs|)
    && (s.publishing.None? ==> s.barrier < |s.jobs| || (s.jobs == [] && s.barrier == 0))
    && SentUpToJob(s)
    && s.counted <= s.threads.Keys && s.count == |s.counted|
    && (s.starting.Some? ==> s.starting.value in s.threads)
    && |s.threads| == s.active + (if s.starting.Some? then 1 else 0)
  }

  /** Holds in every run. */
  ghost predicate CountInv(s: State) { ThreadsInv(s) && TallyInv(s) }

  /** One thread moves on, perhaps sends the empty work of its job, perhaps is counted anew. */
  ghost predicate MovesOn(s: State, s': State, t: nat, th: Thread) {
    && t in s.threads && s'.threads == s.threads[t := th] && s.threads[t].job <= th.job
    && s'.jobs == s.jobs && s'.publishing == s.publishing && s'.barrier == s.barrier && s'.ready == s.ready
    && s'.starting == s.starting && s'.active == s.active
    && s.sent <= s'.sent <= s.sent + {(t, th.job)}
    && s.counted <= s'.counted <= s.counted + {t} && s'.count - s.count == |s'.counted| - |s.counted|
  }

  lemma MoveKeepsTally(s: State, s': State, t: nat, th: Thread)
    requires TallyInv(s) && MovesOn(s, s', t, th)
    ensures TallyInv(s')
  {
    SameKeysSameSize(s.threads, t, th);
  }

  lemma MoveKeepsThreads(s: State, s': State, t: nat, th: Thread)
    requires ThreadsInv(s) && MovesOn(s, s', t, th) && ThreadInv(s', t, th)
    ensures ThreadsInv(s')
  {
    forall u | u in s'.threads ensures ThreadInv(s', u, s'.threads[u]) {
      if u != t { OtherThreadUnaffected(s, s', t, u); }
    }
  }

  lemma MoveKeepsCountInv(s: State, s': State, t: nat, th: Thread)
    requires CountInv(s) && MovesOn(s, s', t, th) && ThreadInv(s', t, th)
    ensures CountInv(s')
  {
    MoveKeepsTally(s, s', t, th);
    MoveKeepsThreads(s, s', t, th);
  }

  /** The part of the invariant a change to one thread has to re-establish. */
  lemma ThreadMoveKeepsCountInv(s: State, t: nat, th: Thread)
    requires CountInv(s) && t in s.threads && ThreadInv(s, t, th) && s.threads[t].job <= th.job
    ensures CountInv(SetThread(s, t, th))
  {
    MoveKeepsCountInv(s, SetThread(s, t, th), t, th);
  }

  /** Another thread's part of the invariant survives a send and a report by thread t. */
  lemma OtherThreadUnaffected(s: State, s': State, t: nat, u: nat)
    requires u in s.threads && u != t && ThreadInv(s, u, s.threads[u])
    requires s'.jobs == s.jobs && s'.barrier == s.barrier && s'.ready == s.ready
    requires u in s'.threads && s'.threads[u] == s.threads[u]
    requires s.counted <= s'.counted <= s.counted + {t}
    requires s.sent <= s'.sent && forall x | x in s'.sent && x !in s.sent :: x.0 == t
    ensures ThreadInv(s', u, s'.threads[u])
  {
    assert (u, s.threads[u].job) in s'.sent ==> (u, s.threads[u].job) in s.sent;
    assert (u, s.barrier) in s'.sent ==> (u, s.barrier) in s.sent;
  }

  /** The sender's own part: it owed the empty work, so it is not counted for this job yet. */
  lemma SenderAfterBlast(s: State, t: nat)
    requires CountInv(s) && Enabled(s, EmptyBlast(t))
    ensures ThreadInv(Apply(s, EmptyBlast(t)), t, Apply(s, EmptyBlast(t)).threads[t])
  {
    assert ThreadInv(s, t, s.threads[t]);
    assert OwesEmpty(s, s.threads[t]);
  }

  lemma EmptyBlastKeepsCountInv(s: State, t: nat)
    requires CountInv(s) && Enabled(s, EmptyBlast(t))
    ensures CountInv(Apply(s, EmptyBlast(t)))
  {
    var s' := Apply(s, EmptyBlast(t));
    SenderAfterBlast(s, t);
    MoveKeepsCountInv(s, s', t, s'.threads[t]);
  }

  lemma SameKeysSameSize(m: map<nat, Thread>, t: nat, th: Thread)
    requires t in m
    ensures |m[t := th]| == |m| && m[t := th].Keys == m.Keys
  {
    assert m[t := th].Keys == m.Keys;
    assert |m[t := th]| == |m[t := th].Keys| && |m| == |m.Keys|;
  }

  lemma SameResidue(a: nat, b: nat)
    requires a <= b && b - a < RING && SameSlot(a, b)
    ensures a == b
  {
  }

  lemma ReportIsForBarrier(s: State, t: nat)
    requires CountInv(s) && At(s, t, CountEmpty) && SameSlot(s.threads[t].job, s.barrier)
    ensures s.threads[t].job == s.barrier && t !in s.counted && (t, s.barrier) in s.sent
  {
    var th := s.threads[t];
    assert ThreadInv(s, t, th);
    SameResidue(th.job, s.barrier);
  }

  /** A report that is not for the barrier's job, or comes after the flag, only settles the thread. */
  lemma LateReportKeepsCountInv(s: State, t: nat)
    requires CountInv(s) && At(s, t, CountEmpty) && !CountsNow(s, t)
    ensures CountInv(SetThread(s, t, s.threads[t].(pc := Top)))
  {
    assert ThreadInv(s, t, s.threads[t]);
    ThreadMoveKeepsCountInv(s, t, s.threads[t].(pc := Top));
  }

  /** A report for the barrier's job counts the thread, for the first time. */
  lemma ReportKeepsCountInv(s: State, t: nat)
    requires CountInv(s) && At(s, t, CountEmpty) && t !in s.counted && (t, s.barrier) in s.sent
    ensures CountInv(SetThread(s, t, s.threads[t].(pc := Top)).(count := s.count + 1, counted := s.counted + {t}))
  {
    var th := s.threads[t].(pc := Top);
    var s' := SetThread(s, t, th).(count := s.count + 1, counted := s.counted + {t});
    ReporterSettles(s, t);
    assert ThreadInv(s', t, th);
    MoveKeepsCountInv(s, s', t, th);
  }

  lemma ReporterSettles(s: State, t: nat)
    requires CountInv(s) && At(s, t, CountEmpty) && (t, s.barrier) in s.sent
    ensures ThreadInv(s.(count := s.count + 1, counted := s.counted + {t}), t, s.threads[t].(pc := Top))
  {
    assert ThreadInv(s, t, s.threads[t]);
  }

  predicate CountsNow(s: State, t: nat)
    requires t in s.threads
  {
    SameSlot(s.threads[t].job, s.barrier) && !s.ready
  }

  lemma IncrementIs(s: State, t: nat)
    requires Enabled(s, Increment(t))
    ensures var s1 := SetThread(s, t, s.threads[t].(pc := Top));
            Apply(s, Increment(t)) == if CountsNow(s, t) then s1.(count := s.count + 1, counted := s.counted + {t})
              else s1
  {
  }

  lemma IncrementKeepsCountInv(s: State, t: nat)
    requires CountInv(s) && Enabled(s, Increment(t))
    ensures CountInv(Apply(s, Increment(t)))
  {
    IncrementIs(s, t);
    if CountsNow(s, t) {
      ReportIsForBarrier(s, t);
      ReportKeepsCountInv(s, t);
    } else {
      LateReportKeepsCountInv(s, t);
    }
  }

  predicate IsPlainMove(e: Step) { e.Skip? || e.CheckFull? || e.FullBlast? || e.OtherBlast? || e.Wait? || e.Init? }

  lemma PlainMoveKeepsCountInv(s: State, e: Step)
    requires CountInv(s) && Enabled(s, e) && IsPlainMove(e)
    ensures CountInv(Apply(s, e))
  {
    PlainMoveKeepsThread(s, e);
    ThreadMoveKeepsCountInv(s, e.t, Apply(s, e).threads[e.t]);
  }

  lemma PlainMoveKeepsThread(s: State, e: Step)
    requires CountInv(s) && Enabled(s, e) && IsPlainMove(e)
    ensures e.t in s.threads && e.t in Apply(s, e).threads
    ensures var th := Apply(s, e).threads[e.t];
            Apply(s, e) == SetThread(s, e.t, th) && ThreadInv(s, e.t, th) && s.threads[e.t].job <= th.job
  {
    assert ThreadInv(s, e.t, s.threads[e.t]);
  }

  lemma PickUpKeepsCountInv(s: State, t: nat)
    requires CountInv(s) && Enabled(s, PickUp(t))
    ensures CountInv(Apply(s, PickUp(t)))
  {
    assert ThreadInv(s, t, s.threads[t]);
    assert s.threads[t].job < |s.jobs| - 1;
    ThreadMoveKeepsCountInv(s, t, Apply(s, PickUp(t)).threads[t]);
  }

  lemma NewKeyAddsOne(m: map<nat, Thread>, t: nat, th: Thread)
    requires t !in m
    ensures |m[t := th]| == |m| + 1
  {
    assert m[t := th].Keys == m.Keys + {t};
    assert |m[t := th]| == |m[t := th].Keys| && |m| == |m.Keys|;
  }

  lemma StartKeepsCountInv(s: State, t: nat)
    requires CountInv(s) && Enabled(s, Start(t))
    ensures CountInv(Apply(s, Start(t)))
  {
    var s' := Apply(s, Start(t));
    NewKeyAddsOne(s.threads, t, s'.threads[t]);
    forall u | u in s'.threads ensures ThreadInv(s', u, s'.threads[u]) {
      if u != t { OtherThreadUnaffected(s, s', t, u); }
    }
    assert forall i | 0 <= i < |s'.jobs| && IsEmptyKind(s'.jobs[i]) :: i <= s'.barrier;
    assert SentUpToJob(s');
  }

  lemma StepKeepsCountInv(s: State, e: Step)
    requires CountInv(s) && Enabled(s, e)
    ensures CountInv(Apply(s, e))
  {
    match e {
      case EmptyBlast(t) => EmptyBlastKeepsCountInv(s, t);
      case Increment(t) => IncrementKeepsCountInv(s, t);
      case PickUp(t) => PickUpKeepsCountInv(s, t);
      case Start(t) => StartKeepsCountInv(s, t);
      case Skip(_) => PlainMoveKeepsCountInv(s, e);
      case CheckFull(_) => PlainMoveKeepsCountInv(s, e);
      case FullBlast(_) => PlainMoveKeepsCountInv(s, e);
      case OtherBlast(_) => PlainMoveKeepsCountInv(s, e);
      case Wait(_) => PlainMoveKeepsCountInv(s, e);
      case Init(_) => PlainMoveKeepsCountInv(s, e);
      case _ => PublisherKeepsCountInv(s, e);
    }
  }

  lemma ResetKeepsCountInv(s: State, state: nat)
    requires CountInv(s) && Enabled(s, ResetBarrier(state))
    ensures CountInv(Apply(s, ResetBarrier(state)))
  {
    var s' := Apply(s, ResetBarrier(state));
    forall u | u in s'.threads ensures ThreadInv(s', u, s'.threads[u]) {
      assert ThreadInv(s, u, s.threads[u]);
    }
  }

  lemma PublishKeepsCountInv(s: State, s': State, state: nat)
    requires CountInv(s) && NoLap(s, |s.jobs| + 1)
    requires s.publishing.Some? || !IsEmptyKind(state)
    requires s' == s.(jobs := s.jobs + [state], publishing := None)
    ensures CountInv(s')
  {
    forall u | u in s'.threads ensures ThreadInv(s', u, s'.threads[u]) {
      assert ThreadInv(s, u, s.threads[u]);
      assert s'.jobs[s.threads[u].job] == s.jobs[s.threads[u].job];
    }
  }

  lemma PublisherKeepsCountInv(s: State, e: Step)
    requires CountInv(s) && Enabled(s, e)
    requires e.ResetBarrier? || e.PublishReset? || e.PublishPlain? || e.CountStart? || e.CheckReady?
    ensures CountInv(Apply(s, e))
  {
    if e.ResetBarrier? {
      ResetKeepsCountInv(s, e.state);
    } else if e.PublishReset? {
      PublishKeepsCountInv(s, Apply(s, e), s.publishing.value);
    } else if e.PublishPlain? {
      PublishKeepsCountInv(s, Apply(s, e), e.state);
    } else {
      var s' := Apply(s, e);
      forall u | u in s'.threads ensures ThreadInv(s', u, s'.threads[u]) {
        assert ThreadInv(s, u, s.threads[u]);
      }
    }
  }

  ghost predicate IsRun(s: State, steps: seq<Step>, last: State)
    decreases |steps|
  {
    if steps == [] then s == last
    else Enabled(s, steps[0]) && IsRun(Apply(s, steps[0]), steps[1..], last)
  }

  lemma {:induction false} RunKeepsCountInv(s: State, steps: seq<Step>, last: State)
    requires CountInv(s) && IsRun(s, steps, last)
    ensures CountInv(last)
    decreases |steps|
  {
    if steps == [] {
    } else {
      StepKeepsCountInv(s, steps[0]);
      RunKeepsCountInv(Apply(s, steps[0]), steps[1..], last);
    }
  }

  lemma RunOne(s: State, e: Step)
    requires Enabled(s, e)
    ensures IsRun(s, [e], Apply(s, e))
  {
    assert [e][1..] == [];
  }

  lemma {:induction false} RunSnoc(s: State, steps: seq<Step>, last: State, e: Step)
    requires IsRun(s, steps, last) && Enabled(last, e)
    ensures IsRun(s, steps + [e], Apply(last, e))
    decreases |steps|
  {
    if steps == [] {
      RunOne(s, e);
    } else {
      RunSnoc(Apply(s, steps[0]), steps[1..], last, e);
      assert (steps + [e])[1..] == steps[1..] + [e];
    }
  }

  // ---- counting threads ----

  lemma AllCounted(s: State)
    requires CountInv(s) && s.starting.None? && s.count >= s.active
    ensures s.counted == s.threads.Keys
    ensures forall t | t in s.threads :: (t, s.barrier) in s.sent && s.threads[t].job >= s.barrier
  {
    assert |s.threads.Keys| == |s.threads|;
    SubsetOfSameSize(s.counted, s.threads.Keys);
    forall t | t in s.threads ensures (t, s.barrier) in s.sent && s.threads[t].job >= s.barrier {
      assert ThreadInv(s, t, s.threads[t]);
    }
  }

  lemma {:induction false} SubsetOfSameSize(a: set<nat>, b: set<nat>)
    requires a <= b && |a| >= |b|
    ensures a == b
  {
    if x :| x in b && x !in a {
      SubsetSize(a, b - {x});
      assert false;
    }
  }

  lemma {:induction false} SubsetSize(a: set<nat>, b: set<nat>)
    requires a <= b
    ensures |a| <= |b|
  {
    if x :| x in a {
      SubsetSize(a - {x}, b - {x});
    }
  }

  /** Raising the flag between thread starts finds that every running thread has sent the barrier
      job's empty work: a thread counts at most once per job. */
  lemma ReadyMeansAllSent(steps: seq<Step>, s: State)
    requires IsRun(INIT, steps, s) && s.starting.None? && !s.ready && Apply(s, CheckReady).ready
    ensures s.counted == s.threads.Keys && s.count == s.active == |s.threads|
    ensures forall t | t in s.threads :: (t, s.barrier) in s.sent
  {
    RunKeepsCountInv(INIT, steps, s);
    AllCounted(s);
  }
}
