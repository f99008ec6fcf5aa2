/** Two runs in which the promise of BarrierPromise is broken, one at each place where it can be, and one in
    which the flag cannot go up. */
module BarrierExamples {
  import opened Wrappers
  import opened EmptyBarrier
  import opened BarrierPromise
  import opened BarrierLiveness

  /** Raised too early: threads 0 and 1 run, thread 2 is started but not counted yet; 0 and 2 report
      the new job, the flag goes up, and thread 0 may send full work although active thread 1 never
      sent the empty one. */
  lemma UncountedStarterOpensBarrierEarly()
    ensures exists steps, s :: IsRun(INIT, steps, s) && Enabled(s, FullBlast(0))
                               && 1 in Active(s) && (1, s.threads[0].job) !in s.sent
  {
    var r, s := TwoReports();
    r, s := OpenAndCheck(r, s);
    assert IsRun(INIT, r, s);
  }

  const ON_ONE := Thread(1, true, true, Top)

  lemma TwoReports() returns (r: seq<Step>, s: State)
    ensures IsRun(INIT, r, s) && s.jobs == [5, EMPTY_PLUS] && s.barrier == 1 && !s.ready
    ensures s.count == s.active == 2 && s.starting == Some(2) && s.sent == {(0, 1), (2, 1)}
    ensures 0 in s.threads && s.threads[0] == ON_ONE && 1 in s.threads
  {
    r, s := ThreeThreads();
    r, s := ReportEmpty(r, s, 0);
    r, s := ReportEmpty(r, s, 2);
  }

  lemma OpenAndCheck(steps: seq<Step>, s: State) returns (r: seq<Step>, s': State)
    requires IsRun(INIT, steps, s) && s.jobs == [5, EMPTY_PLUS] && s.barrier == 1 && !s.ready && s.count == s.active
    requires 0 in s.threads && s.threads[0] == ON_ONE
    ensures IsRun(INIT, r, s') && Enabled(s', FullBlast(0)) && s'.threads[0].job == 1
    ensures s'.threads.Keys == s.threads.Keys && s'.starting == s.starting && s'.sent == s.sent
  {
    r, s' := Extend(steps, s, CheckReady);
    r, s' := Extend(r, s', Skip(0));
    r, s' := Extend(r, s', CheckFull(0));
  }

  const AT_REST := Thread(0, false, false, Top)
  const THREE_AT_REST: map<nat, Thread> := map[0 := AT_REST, 1 := AT_REST, 2 := AT_REST]

  lemma ThreeThreads() returns (r: seq<Step>, s: State)
    ensures IsRun(INIT, r, s)
    ensures s == State([5, EMPTY_PLUS], None, 1, 0, false, {}, THREE_AT_REST, 2, Some(2), {}, map[], None)
  {
    r, s := Extend([], INIT, PublishPlain(5));
    r, s := StartAndCount(r, s, 0);
    r, s := StartAndCount(r, s, 1);
    r, s := NewThread(r, s, 2);
    assert s.threads == THREE_AT_REST;
    r, s := NewBlock(r, s);
  }

  lemma StartAndCount(r: seq<Step>, s: State, t: nat) returns (r': seq<Step>, s': State)
    requires IsRun(INIT, r, s) && s.jobs == [5] && t !in s.threads && s.starting.None?
    ensures s' == s.(threads := s.threads[t := AT_REST], active := s.active + 1)
    ensures IsRun(INIT, r', s')
  {
    r', s' := NewThread(r, s, t);
    r', s' := Extend(r', s', CountStart);
  }

  lemma NewThread(r: seq<Step>, s: State, t: nat) returns (r': seq<Step>, s': State)
    requires IsRun(INIT, r, s) && s.jobs == [5] && t !in s.threads && s.starting.None?
    ensures s' == s.(threads := s.threads[t := AT_REST], starting := Some(t))
    ensures IsRun(INIT, r', s')
  {
    r', s' := Extend(r, s, Start(t));
    r', s' := Extend(r', s', Init(t));
  }

  /** Type-2 job 1 is published. */
  lemma NewBlock(r: seq<Step>, s: State) returns (r': seq<Step>, s': State)
    requires IsRun(INIT, r, s) && s.jobs == [5] && s.publishing.None?
    ensures s' == s.(jobs := [5, EMPTY_PLUS], barrier := 1, count := 0, ready := false, counted := {})
    ensures IsRun(INIT, r', s')
  {
    r', s' := Extend(r, s, ResetBarrier(EMPTY_PLUS));
    r', s' := Extend(r', s', PublishReset);
  }

  lemma Extend(r: seq<Step>, s: State, e: Step) returns (r': seq<Step>, s': State)
    requires IsRun(INIT, r, s) && Enabled(s, e)
    ensures s' == Apply(s, e) && IsRun(INIT, r', s')
  {
    RunSnoc(INIT, r, s, e);
    r', s' := r + [e], Apply(s, e);
  }

  /** Thread t, idle on job 0, picks up type-2 job 1, sends its empty work and reports it. */
  lemma ReportEmpty(steps: seq<Step>, s: State, t: nat) returns (more: seq<Step>, s': State)
    requires IsRun(INIT, steps, s) && s.jobs == [5, EMPTY_PLUS] && s.barrier == 1 && !s.ready
    requires t in s.threads && s.threads[t] == Thread(0, false, false, Top) && t !in s.counted
    ensures IsRun(INIT, more, s')
    ensures s' == s.(threads := s.threads[t := Thread(1, true, true, Top)], sent := s.sent + {(t, 1)},
                     count := s.count + 1, counted := s.counted + {t})
  {
    more, s' := Extend(steps, s, PickUp(t));
    more, s' := Extend(more, s', EmptyBlast(t));
    more, s' := Extend(more, s', Increment(t));
  }

  /** Read for the wrong job: thread 1 is being started and has sent and reported the empty work of
      job 1 when job 2 takes over the barrier; active thread 0 does job 2 alone, the flag goes up for
      job 2 as it should, and thread 1 reads it and may send the full work of job 1, which thread 0
      never sent. */
  lemma StrangerReadsFlagOfLaterJob()
    ensures exists steps, s ::
      && IsRun(INIT, steps, s) && Enabled(s, FullBlast(1)) && s.threads[1].job == 1
      && s.readyFor == map[2 := {0}] && Covered(s, 2)
      && 0 in Active(s) && (0, 1) !in s.sent
  {
    var r, s := StarterAhead();
    r, s := NextBlock(r, s);
    r, s := ReaderLate(r, s);
    assert IsRun(INIT, r, s);
  }

  const TWO_AT_REST: map<nat, Thread> := map[0 := AT_REST, 1 := AT_REST]

  /** Thread 0 counted, thread 1 being started, both on job 0; job 1 is published, and thread 1 does
      its empty work and is back at its dispatch. */
  lemma StarterAhead() returns (r: seq<Step>, s: State)
    ensures IsRun(INIT, r, s)
    ensures s == State([5, EMPTY_PLUS], None, 1, 1, false, {1}, TWO_AT_REST[1 := ON_ONE.(pc := Dispatch)], 1, Some(1),
                       {(1, 1)}, map[], None)
  {
    r, s := OneCounted();
    r, s := ReportEmpty(r, s, 1);
    r, s := Extend(r, s, Skip(1));
  }

  lemma OneCounted() returns (r: seq<Step>, s: State)
    ensures IsRun(INIT, r, s)
    ensures s == State([5, EMPTY_PLUS], None, 1, 0, false, {}, TWO_AT_REST, 1, Some(1), {}, map[], None)
  {
    r, s := Extend([], INIT, PublishPlain(5));
    r, s := StartAndCount(r, s, 0);
    r, s := NewThread(r, s, 1);
    assert s.threads == TWO_AT_REST;
    r, s := NewBlock(r, s);
  }

  /** Job 2 takes over, and thread 0 sends and reports its empty work. */
  lemma NextBlock(steps: seq<Step>, s0: State) returns (r: seq<Step>, s: State)
    requires IsRun(INIT, steps, s0) && s0.jobs == [5, EMPTY_PLUS] && s0.publishing.None? && s0.active == 1
    requires s0.threads == TWO_AT_REST[1 := ON_ONE.(pc := Dispatch)] && s0.sent == {(1, 1)}
    requires s0.starting == Some(1) && s0.readyFor == map[]
    ensures IsRun(INIT, r, s) && s.jobs == [5, EMPTY_PLUS, EMPTY_PLUS] && s.barrier == 2 && !s.ready
    ensures s.count == s.active == 1 && s.starting == Some(1) && s.sent == {(1, 1), (0, 2)} && s.readyFor == map[]
    ensures s.threads.Keys == {0, 1} && s.threads[1] == ON_ONE.(pc := Dispatch)
  {
    r, s := Extend(steps, s0, ResetBarrier(EMPTY_PLUS));
    r, s := Extend(r, s, PublishReset);
    assert s.jobs == [5, EMPTY_PLUS, EMPTY_PLUS];
    r, s := ReportSecond(r, s);
  }

  lemma ReportSecond(steps: seq<Step>, s0: State) returns (r: seq<Step>, s: State)
    requires IsRun(INIT, steps, s0) && s0.jobs == [5, EMPTY_PLUS, EMPTY_PLUS] && s0.barrier == 2 && !s0.ready
    requires 0 in s0.threads && s0.threads[0] == AT_REST && s0.counted == {} && s0.count == 0
    ensures IsRun(INIT, r, s)
    ensures s == s0.(threads := s0.threads[0 := Thread(2, true, true, Top)], sent := s0.sent + {(0, 2)},
                     count := 1, counted := {0})
  {
    r, s := Extend(steps, s0, PickUp(0));
    r, s := Extend(r, s, EmptyBlast(0));
    r, s := Extend(r, s, Increment(0));
  }

  lemma ReaderLate(steps: seq<Step>, s0: State) returns (r: seq<Step>, s: State)
    requires IsRun(INIT, steps, s0) && s0.jobs == [5, EMPTY_PLUS, EMPTY_PLUS] && s0.barrier == 2 && !s0.ready
    requires s0.count == s0.active && s0.starting == Some(1) && s0.sent == {(1, 1), (0, 2)} && s0.readyFor == map[]
    requires s0.threads.Keys == {0, 1} && s0.threads[1] == ON_ONE.(pc := Dispatch)
    ensures IsRun(INIT, r, s) && Enabled(s, FullBlast(1)) && s.threads[1].job == 1
    ensures s.readyFor == map[2 := {0}] && s.sent == s0.sent && Active(s) == {0}
  {
    assert s0.threads.Keys - {1} == {0};
    r, s := Extend(steps, s0, CheckReady);
    r, s := Extend(r, s, CheckFull(1));
  }

  /** Counted before it reads its first job: the only active thread starts on the type-2 job itself,
      has nothing new to send, and the flag cannot go up for that job. */
  lemma LateReaderHoldsFlagDown()
    ensures exists steps, s ::
      && IsRun(INIT, steps, s) && s.jobs == [5, EMPTY_PLUS] && s.barrier == 1 && s.active == 1
      && 0 in s.threads && s.threads[0].job == 1 && !s.ready && !CanGoUp(s)
  {
    var r, s := CountedThenReads();
    FlagCanGoUpExactly(r, s);
    assert Reporters(s) == {};
    assert IsRun(INIT, r, s);
  }

  lemma CountedThenReads() returns (r: seq<Step>, s: State)
    ensures IsRun(INIT, r, s)
    ensures s == State([5, EMPTY_PLUS], None, 1, 0, false, {}, map[0 := Thread(1, false, false, Top)], 1, None, {},
                       map[], None)
  {
    r, s := Extend([], INIT, PublishPlain(5));
    r, s := Extend(r, s, Start(0));
    r, s := Extend(r, s, CountStart);
    r, s := NewBlock(r, s);
    r, s := Extend(r, s, Init(0));
  }
}
