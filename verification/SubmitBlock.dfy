/** The one-slot block hand-off of src/datum_submitblock.c as a step system.

    Any number of callers run datum_submitblock_trigger or datum_submitblock_waitfree and share
    one mutex and one condition variable with the consumer thread.  Waiting releases the mutex;
    a wake-up, spurious ones included, only puts the thread back to wanting the mutex.  A signal
    may wake any non-empty part of the wait set, which is all POSIX promises. */
module SubmitBlock {
  import opened Wrappers

  datatype Block = Block(request: nat, hash: string)

  const HASH_BUFFER: nat := 256

  datatype Call = Trigger(block: Block) | WaitFree

  datatype Caller = Done | Wants(call: Call) | Waiting(call: Call) | Holding(call: Call)

  datatype Consumer = ConsumerWants | ConsumerWaiting | ConsumerHolding | Submitting

  datatype State = State(
    triggered: bool,
    ptr: Option<nat>,
    hash: string,
    consumer: Consumer,
    callers: map<nat, Caller>,
    accepted: seq<Block>,
    consumed: seq<Block>)

  const INIT := State(false, None, "", ConsumerWants, map[], [], [])

  datatype Step =
    | Begin(p: nat, request: Option<nat>, hash: Option<string>)
    | BeginWaitFree(p: nat)
    | Lock(p: nat)
    | Test(p: nat, wakeConsumer: bool, wakeCallers: set<nat>)
    | ConsumerLock
    | ConsumerTest
    | ConsumerFinish
    | Spurious(p: nat)
    | SpuriousConsumer

  predicate MutexFree(s: State) {
    && !s.consumer.ConsumerHolding? && !s.consumer.Submitting?
    && forall p | p in s.callers :: !s.callers[p].Holding?
  }

  predicate Busy(s: State) { s.triggered || s.ptr.Some? }

  predicate IsIdle(s: State, p: nat) { p in s.callers ==> s.callers[p].Done? }

  /** The argument check of datum_submitblock_trigger. */
  predicate Acceptable(request: Option<nat>, hash: Option<string>) {
    request.Some? && hash.Some? && |hash.value| < HASH_BUFFER
  }

  function WaitSet(s: State): set<nat> { set p | p in s.callers && s.callers[p].Waiting? }

  predicate Enabled(s: State, t: Step) {
    match t
    case Begin(p, _, _) => IsIdle(s, p)
    case BeginWaitFree(p) => IsIdle(s, p)
    case Lock(p) => p in s.callers && s.callers[p].Wants? && MutexFree(s)
    case Test(p, wakeConsumer, wakeCallers) =>
      && p in s.callers && s.callers[p].Holding?
      && (wakeConsumer ==> s.consumer.ConsumerWaiting?) && wakeCallers <= WaitSet(s)
      && (s.consumer.ConsumerWaiting? || WaitSet(s) != {} ==> wakeConsumer || wakeCallers != {})
    case ConsumerLock => s.consumer.ConsumerWants? && MutexFree(s)
    case ConsumerTest => s.consumer.ConsumerHolding?
    case ConsumerFinish => s.consumer.Submitting?
    case Spurious(p) => p in s.callers && s.callers[p].Waiting?
    case SpuriousConsumer => s.consumer.ConsumerWaiting?
  }

  /** Threads of `woken` leave the wait set and want the mutex again. */
  function Wake(callers: map<nat, Caller>, woken: set<nat>): map<nat, Caller> {
    map p | p in callers ::
      if p in woken && callers[p].Waiting? then Wants(callers[p].call) else callers[p]
  }

  function Apply(s: State, t: Step): State
    requires Enabled(s, t)
  {
    match t
    case Begin(p, request, hash) =>
      if Acceptable(request, hash)
      then s.(callers := s.callers[p := Wants(Trigger(Block(request.value, hash.value)))])
      else s
    case BeginWaitFree(p) => s.(callers := s.callers[p := Wants(WaitFree)])
    case Lock(p) => s.(callers := s.callers[p := Holding(s.callers[p].call)])
    case Test(p, wakeConsumer, wakeCallers) =>
      var call := s.callers[p].call;
      if Busy(s) then s.(callers := s.callers[p := Waiting(call)])
      else if call.WaitFree? then s.(callers := s.callers[p := Done])
      else s.(ptr := Some(call.block.request), hash := call.block.hash, triggered := true,
              consumer := if wakeConsumer then ConsumerWants else s.consumer,
              callers := Wake(s.callers[p := Done], wakeCallers),
              accepted := s.accepted + [call.block])
    case ConsumerLock => s.(consumer := ConsumerHolding)
    case ConsumerTest => s.(consumer := if s.triggered then Submitting else ConsumerWaiting)
    case ConsumerFinish =>
      s.(consumed := if s.ptr.Some? then s.consumed + [Block(s.ptr.value, s.hash)] else s.consumed,
         ptr := None, triggered := false, consumer := ConsumerWants,
         callers := Wake(s.callers, WaitSet(s)))
    case Spurious(p) => s.(callers := s.callers[p := Wants(s.callers[p].call)])
    case SpuriousConsumer => s.(consumer := ConsumerWants)
  }

  function Pending(s: State): seq<Block> {
    if s.ptr.Some? then [Block(s.ptr.value, s.hash)] else []
  }

  ghost predicate OneHolder(s: State) {
    && (s.consumer.ConsumerHolding? || s.consumer.Submitting? ==>
          forall p | p in s.callers :: !s.callers[p].Holding?)
    && (forall p, q | p in s.callers && q in s.callers && s.callers[p].Holding? && s.callers[q].Holding? :: p == q)
  }

  ghost predicate Inv(s: State) {
    && OneHolder(s)
    && (s.triggered <==> s.ptr.Some?)
    && (s.triggered ==> !s.consumer.ConsumerWaiting?)
    && (s.consumer.Submitting? ==> s.triggered)
    && (forall p | p in s.callers && s.callers[p].Waiting? :: s.triggered)
    && s.accepted == s.consumed + Pending(s)
  }

  /** At a test that finds the slot free no other caller is in the wait set. */
  lemma FreeSlotMeansNoWaiter(s: State)
    requires Inv(s) && !Busy(s)
    ensures WaitSet(s) == {}
  {
  }

  lemma TestKeepsInv(s: State, t: Step)
    requires Inv(s) && Enabled(s, t) && t.Test?
    ensures Inv(Apply(s, t))
  {
    var s' := Apply(s, t);
    if !Busy(s) {
      FreeSlotMeansNoWaiter(s);
      assert forall q | q in s'.callers :: s'.callers[q] == (if q == t.p then Done else s.callers[q]);
    }
  }

  lemma StepKeepsInv(s: State, t: Step)
    requires Inv(s) && Enabled(s, t)
    ensures Inv(Apply(s, t))
  {
    if t.Test? { TestKeepsInv(s, t); }
  }

  ghost predicate IsRun(s: State, steps: seq<Step>, last: State)
    decreases |steps|
  {
    if steps == [] then s == last
    else Enabled(s, steps[0]) && IsRun(Apply(s, steps[0]), steps[1..], last)
  }

  lemma {:induction false} RunKeepsInv(s: State, steps: seq<Step>, last: State)
    requires Inv(s) && IsRun(s, steps, last)
    ensures Inv(last)
    decreases |steps|
  {
    if steps == [] {
    } else {
      StepKeepsInv(s, steps[0]);
      RunKeepsInv(Apply(s, steps[0]), steps[1..], last);
    }
  }

  /** Every accepted block is submitted exactly once, in order, with its own hash: what was
      accepted is what was consumed plus the at most one block in the slot. */
  lemma ConsumedExactlyOnceInOrder(steps: seq<Step>, s: State)
    requires IsRun(INIT, steps, s)
    ensures s.accepted == s.consumed + Pending(s)
    ensures s.triggered <==> s.ptr.Some?
  {
    RunKeepsInv(INIT, steps, s);
  }

  /** A trigger writes only into an empty slot, and its signal cannot be taken by another caller:
      the wait set holds no caller then, so the signal reaches the consumer if that one waits. */
  lemma SignalOnlyReachesConsumer(steps: seq<Step>, s: State, t: Step)
    requires IsRun(INIT, steps, s) && Enabled(s, t) && t.Test? && s.callers[t.p].call.Trigger? && !Busy(s)
    ensures Pending(s) == [] && s.accepted == s.consumed
    ensures WaitSet(s) == {} && t.wakeCallers == {}
    ensures t.wakeConsumer == s.consumer.ConsumerWaiting?
    ensures !Apply(s, t).consumer.ConsumerWaiting? && Pending(Apply(s, t)) == [s.callers[t.p].call.block]
  {
    RunKeepsInv(INIT, steps, s);
    FreeSlotMeansNoWaiter(s);
  }

  /** Steps a thread can count on: no new call, no spurious wake-up. */
  predicate Reliable(t: Step) { t.Lock? || t.Test? || t.ConsumerLock? || t.ConsumerTest? || t.ConsumerFinish? }

  /** No reachable state is stuck: while a caller is inside a call or a block is pending, a step
      that needs neither a new call nor a spurious wake-up is enabled. */
  lemma NeverStuck(steps: seq<Step>, s: State, p: nat)
    requires IsRun(INIT, steps, s)
    requires s.triggered || !IsIdle(s, p)
    ensures exists t :: Enabled(s, t) && Reliable(t)
  {
    RunKeepsInv(INIT, steps, s);
    if q :| q in s.callers && s.callers[q].Holding? {
      var t := Test(q, s.consumer.ConsumerWaiting?, WaitSet(s));
      assert Enabled(s, t) && Reliable(t);
    } else {
      match s.consumer {
        case ConsumerHolding => assert Enabled(s, ConsumerTest) && Reliable(ConsumerTest);
        case Submitting => assert Enabled(s, ConsumerFinish) && Reliable(ConsumerFinish);
        case ConsumerWants => assert Enabled(s, ConsumerLock) && Reliable(ConsumerLock);
        case ConsumerWaiting => assert Enabled(s, Lock(p)) && Reliable(Lock(p));
      }
    }
  }

  /** From every reachable state at most four reliable steps empty the slot: the mutex holder,
      if a caller, finishes its test, and the consumer does the rest. */
  lemma PendingBlockCanBeConsumed(steps: seq<Step>, s: State)
    requires IsRun(INIT, steps, s) && s.triggered
    ensures exists more, s' :: IsRun(s, more, s') && |more| <= 4 && (forall t | t in more :: Reliable(t))
                               && s'.consumed == s.accepted
  {
    RunKeepsInv(INIT, steps, s);
    if q :| q in s.callers && s.callers[q].Holding? {
      var t := Test(q, s.consumer.ConsumerWaiting?, WaitSet(s));
      var s1 := Apply(s, t);
      StepKeepsInv(s, t);
      assert MutexFree(s1);
      var more, s' := ConsumerEmptiesSlot(s1);
      assert IsRun(s, [t] + more, s');
    } else {
      var more, s' := ConsumerEmptiesSlot(s);
    }
  }

  lemma ConsumerEmptiesSlot(s: State) returns (more: seq<Step>, s': State)
    requires Inv(s) && s.triggered && forall p | p in s.callers :: !s.callers[p].Holding?
    ensures IsRun(s, more, s') && |more| <= 3 && (forall t | t in more :: Reliable(t))
    ensures s'.consumed == s.accepted
  {
    more, s' := [], s;
    if s.consumer.Submitting? {
      s' := Apply(s, ConsumerFinish);
      more := [ConsumerFinish];
      assert more[1..] == [];
    } else if s.consumer.ConsumerHolding? {
      var s1 := Apply(s, ConsumerTest);
      StepKeepsInv(s, ConsumerTest);
      var tail;
      tail, s' := ConsumerEmptiesSlotFromSubmitting(s1);
      more := [ConsumerTest] + tail;
      assert more[1..] == tail;
    } else {
      var s1 := Apply(s, ConsumerLock);
      var s2 := Apply(s1, ConsumerTest);
      StepKeepsInv(s, ConsumerLock);
      StepKeepsInv(s1, ConsumerTest);
      var tail;
      tail, s' := ConsumerEmptiesSlotFromSubmitting(s2);
      more := [ConsumerLock, ConsumerTest] + tail;
      assert more[1..] == [ConsumerTest] + tail && more[1..][1..] == tail;
    }
  }

  lemma ConsumerEmptiesSlotFromSubmitting(s: State) returns (more: seq<Step>, s': State)
    requires Inv(s) && s.consumer.Submitting?
    ensures more == [ConsumerFinish] && IsRun(s, more, s') && s'.consumed == s.accepted
  {
    more, s' := [ConsumerFinish], Apply(s, ConsumerFinish);
    assert more[1..] == [];
  }
}
