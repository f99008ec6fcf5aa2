/** The two-buffer versioned queue of src/datum_queue.c as a step system.

    Every lock acquisition is a step of its own, so any number of producers
    (datum_queue_add_item) and the one processor (datum_queue_process) interleave
    at every point where the program can block.  Lock ownership is read off the
    program counters.  Buffers and versions are indexed by the buffer id, 0 or 1;
    queue_next[b] is the length of buf[b]. */
module VersionedQueue {

  /** The retry loop of datum_queue_add_item tries the locks this many times. */
  const MAX_TRIES: nat := 9_999_999

  datatype Producer<T> =
    | Returned(ok: bool)
    | Trying(item: T, tries: nat)
    | Snapped(item: T, tries: nat, id: nat, version: nat)
    | Locked(item: T, tries: nat, id: nat, version: nat)
  {
    predicate HasSnapshot() { Snapped? || Locked? }
  }

  /** Counted: a non-empty active buffer was seen.  HoldsActive: active_buffer_rwlock is
      held.  HoldsOne: the active buffer is locked too and its version is bumped.
      Draining: buffers are swapped and the old one is still locked. */
  datatype Processor = Idle | Counted | HoldsActive | HoldsOne | Draining(done: nat)

  datatype State<T> = State(
    maxEntries: nat,
    active: nat,
    activeVersion: nat,
    version: seq<nat>,
    buf: seq<seq<T>>,
    proc: Processor,
    prod: map<nat, Producer<T>>,
    accepted: seq<T>,
    handled: seq<T>)

  /** datum_queue_prep: version 10 for the buffer that is not active. */
  function Init<T>(maxEntries: nat): State<T> {
    State(maxEntries, 0, 0, [0, 10], [[], []], Idle, map[], [], [])
  }

  datatype Step<T> =
    | Call(p: nat, item: T)
    | Snapshot(p: nat)
    | GiveUp(p: nat)
    | LockBuffer(p: nat)
    | Race(p: nat)
    | Overflow(p: nat)
    | Append(p: nat)
    | Count
    | LockActive
    | LockOld
    | Swap
    | Handle
    | Finish

  predicate WellFormed<T>(s: State<T>) {
    && |s.version| == 2 && |s.buf| == 2 && s.active < 2
    && (forall p | p in s.prod && s.prod[p].HasSnapshot() :: s.prod[p].id < 2)
    && (s.proc.Draining? ==> s.proc.done <= |s.buf[1 - s.active]|)
  }

  predicate ProducerHolds<T>(s: State<T>, b: nat) {
    exists p | p in s.prod :: s.prod[p].Locked? && s.prod[p].id == b
  }

  predicate ProcessorHolds<T>(s: State<T>, b: nat) {
    || (s.proc.HoldsOne? && b == s.active)
    || (s.proc.Draining? && s.active < 2 && b == 1 - s.active)
  }

  predicate Enabled<T>(s: State<T>, t: Step<T>)
    requires WellFormed(s)
  {
    match t
    case Call(p, _) => p in s.prod ==> s.prod[p].Returned?
    case Snapshot(p) =>
      && p in s.prod && s.prod[p].Trying? && s.prod[p].tries < MAX_TRIES
      && !s.proc.HoldsActive? && !s.proc.HoldsOne?
    case GiveUp(p) => p in s.prod && s.prod[p].Trying? && s.prod[p].tries >= MAX_TRIES
    case LockBuffer(p) =>
      && p in s.prod && s.prod[p].Snapped?
      && !ProducerHolds(s, s.prod[p].id) && !ProcessorHolds(s, s.prod[p].id)
    case Race(p) => p in s.prod && s.prod[p].Locked? && s.prod[p].version != s.version[s.prod[p].id]
    case Overflow(p) =>
      && p in s.prod && s.prod[p].Locked? && s.prod[p].version == s.version[s.prod[p].id]
      && |s.buf[s.prod[p].id]| >= s.maxEntries
    case Append(p) =>
      && p in s.prod && s.prod[p].Locked? && s.prod[p].version == s.version[s.prod[p].id]
      && |s.buf[s.prod[p].id]| < s.maxEntries
    case Count => s.proc.Idle? && !ProducerHolds(s, s.active)
    case LockActive => s.proc.Counted?
    case LockOld => s.proc.HoldsActive? && !ProducerHolds(s, s.active)
    case Swap => s.proc.HoldsOne? && !ProducerHolds(s, 1 - s.active)
    case Handle => s.proc.Draining? && s.proc.done < |s.buf[1 - s.active]|
    case Finish => s.proc.Draining? && s.proc.done >= |s.buf[1 - s.active]|
  }

  function Apply<T>(s: State<T>, t: Step<T>): State<T>
    requires WellFormed(s) && Enabled(s, t)
  {
    match t
    case Call(p, item) => s.(prod := s.prod[p := Trying(item, 0)])
    case Snapshot(p) =>
      var q := s.prod[p];
      s.(prod := s.prod[p := Snapped(q.item, q.tries, s.active, s.activeVersion)])
    case GiveUp(p) => s.(prod := s.prod[p := Returned(false)])
    case LockBuffer(p) =>
      var q := s.prod[p];
      s.(prod := s.prod[p := Locked(q.item, q.tries, q.id, q.version)])
    case Race(p) => s.(prod := s.prod[p := Trying(s.prod[p].item, s.prod[p].tries + 1)])
    case Overflow(p) => s.(prod := s.prod[p := Returned(false)])
    case Append(p) =>
      var q := s.prod[p];
      s.(buf := s.buf[q.id := s.buf[q.id] + [q.item]],
         accepted := s.accepted + [q.item],
         prod := s.prod[p := Returned(true)])
    case Count => if s.buf[s.active] == [] then s else s.(proc := Counted)
    case LockActive => s.(proc := HoldsActive)
    case LockOld =>
      s.(proc := HoldsOne, version := s.version[s.active := s.version[s.active] + 1])
    case Swap =>
      var o := 1 - s.active;
      var version := s.version[o := s.version[o] + 1];
      s.(version := version, active := o, activeVersion := version[o],
         buf := s.buf[o := []], proc := Draining(0))
    case Handle =>
      s.(handled := s.handled + [s.buf[1 - s.active][s.proc.done]], proc := Draining(s.proc.done + 1))
    case Finish => s.(buf := s.buf[1 - s.active := []], proc := Idle)
  }

  /** What is locked for draining and not handled yet. */
  function BeingDrained<T>(s: State<T>): seq<T>
    requires WellFormed(s)
  {
    if s.proc.Draining? then s.buf[1 - s.active][s.proc.done..] else []
  }

  ghost predicate SnapshotsHonest<T>(s: State<T>)
    requires WellFormed(s)
  {
    forall p | p in s.prod && s.prod[p].HasSnapshot() ::
      && s.prod[p].version <= s.version[s.prod[p].id]
      && (s.prod[p].version == s.version[s.prod[p].id] ==> s.prod[p].id == s.active && !s.proc.HoldsOne?)
  }

  ghost predicate LocksExclusive<T>(s: State<T>)
    requires WellFormed(s)
  {
    && (forall p | p in s.prod && s.prod[p].Locked? :: !ProcessorHolds(s, s.prod[p].id))
    && (forall p, q | p in s.prod && q in s.prod && s.prod[p].Locked? && s.prod[q].Locked? &&
          s.prod[p].id == s.prod[q].id :: p == q)
  }

  ghost predicate Inv<T>(s: State<T>) {
    && WellFormed(s)
    && s.version[s.active] == s.activeVersion + (if s.proc.HoldsOne? then 1 else 0)
    && SnapshotsHonest(s)
    && LocksExclusive(s)
    && (!s.proc.Draining? ==> s.buf[1 - s.active] == [])
    && |s.buf[0]| <= s.maxEntries && |s.buf[1]| <= s.maxEntries
    && s.accepted == s.handled + BeingDrained(s) + s.buf[s.active]
  }

  predicate IsProcessorStep<T>(t: Step<T>) {
    t.Count? || t.LockActive? || t.LockOld? || t.Swap? || t.Handle? || t.Finish?
  }

  /** A producer may move to a program counter whose snapshot is honest and whose lock is free. */
  lemma ProducerMoveKeepsInv<T>(s: State<T>, p: nat, q: Producer<T>)
    requires Inv(s)
    requires q.HasSnapshot() ==>
               && q.id < 2 && q.version <= s.version[q.id]
               && (q.version == s.version[q.id] ==> q.id == s.active && !s.proc.HoldsOne?)
    requires q.Locked? ==> !ProcessorHolds(s, q.id) && !ProducerHolds(s, q.id)
    ensures Inv(s.(prod := s.prod[p := q]))
  {
    MoveIsWellFormed(s, p, q);
    MoveIsHonest(s, p, q);
    MoveIsExclusive(s, p, q);
    assert BeingDrained(s.(prod := s.prod[p := q])) == BeingDrained(s);
  }

  lemma MoveIsWellFormed<T>(s: State<T>, p: nat, q: Producer<T>)
    requires WellFormed(s) && (q.HasSnapshot() ==> q.id < 2)
    ensures WellFormed(s.(prod := s.prod[p := q]))
  {
  }

  lemma MoveIsHonest<T>(s: State<T>, p: nat, q: Producer<T>)
    requires WellFormed(s) && SnapshotsHonest(s) && WellFormed(s.(prod := s.prod[p := q]))
    requires q.HasSnapshot() ==>
               && q.id < 2 && q.version <= s.version[q.id]
               && (q.version == s.version[q.id] ==> q.id == s.active && !s.proc.HoldsOne?)
    ensures SnapshotsHonest(s.(prod := s.prod[p := q]))
  {
  }

  lemma MoveIsExclusive<T>(s: State<T>, p: nat, q: Producer<T>)
    requires WellFormed(s) && LocksExclusive(s) && WellFormed(s.(prod := s.prod[p := q]))
    requires q.Locked? ==> !ProcessorHolds(s, q.id) && !ProducerHolds(s, q.id)
    ensures LocksExclusive(s.(prod := s.prod[p := q]))
  {
  }

  lemma AppendKeepsInv<T>(s: State<T>, p: nat)
    requires Inv(s) && Enabled(s, Append(p))
    ensures Inv(Apply(s, Append(p)))
  {
    var q := s.prod[p];
    ProducerMoveKeepsInv(s, p, Returned(true));
    var s' := Apply(s, Append(p));
    assert s'.buf[1 - s.active] == s.buf[1 - s.active] && s'.buf[s.active] == s.buf[s.active] + [q.item];
    assert SnapshotsHonest(s') && LocksExclusive(s');
    assert BeingDrained(s') == BeingDrained(s);
    AppendLast(s.handled + BeingDrained(s), s.buf[s.active], q.item);
  }

  lemma AppendLast<T>(a: seq<T>, b: seq<T>, x: T)
    ensures a + b + [x] == a + (b + [x])
  {
  }

  lemma ProducerStepKeepsInv<T>(s: State<T>, t: Step<T>)
    requires Inv(s) && Enabled(s, t) && !IsProcessorStep(t)
    ensures Inv(Apply(s, t))
  {
    if t.Append? {
      AppendKeepsInv(s, t.p);
    } else {
      ProducerMoveKeepsInv(s, t.p, Apply(s, t).prod[t.p]);
    }
  }

  lemma LockOldKeepsInv<T>(s: State<T>)
    requires Inv(s) && Enabled(s, LockOld)
    ensures Inv(Apply(s, LockOld))
  {
    var s' := Apply(s, LockOld);
    assert SnapshotsHonest(s') && LocksExclusive(s');
    assert BeingDrained(s') == BeingDrained(s);
  }

  lemma SwapKeepsInv<T>(s: State<T>)
    requires Inv(s) && Enabled(s, Swap)
    ensures Inv(Apply(s, Swap))
  {
    var s' := Apply(s, Swap);
    assert SnapshotsHonest(s') && LocksExclusive(s');
    assert s'.buf[s'.active] == [] && s'.buf[1 - s'.active] == s.buf[s.active];
    assert BeingDrained(s') == s.buf[s.active];
  }

  lemma DrainKeepsInv<T>(s: State<T>, t: Step<T>)
    requires Inv(s) && Enabled(s, t) && (t.Handle? || t.Finish?)
    ensures Inv(Apply(s, t))
  {
    DrainKeepsProducers(s, t);
    DrainKeepsAccount(s, t);
  }

  lemma DrainKeepsAccount<T>(s: State<T>, t: Step<T>)
    requires WellFormed(s) && Enabled(s, t) && (t.Handle? || t.Finish?)
    requires s.accepted == s.handled + BeingDrained(s) + s.buf[s.active]
    ensures var s' := Apply(s, t);
            && WellFormed(s') && s'.active == s.active && s'.buf[s.active] == s.buf[s.active]
            && s'.accepted == s'.handled + BeingDrained(s') + s'.buf[s'.active]
  {
    var s' := Apply(s, t);
    if t.Handle? {
      HandleTakesNext(s);
      Regroup(s.handled, s.buf[1 - s.active][s.proc.done], BeingDrained(s'), s.buf[s.active]);
    } else {
      assert BeingDrained(s) == [] && BeingDrained(s') == [];
    }
  }

  lemma Regroup<T>(a: seq<T>, x: T, b: seq<T>, c: seq<T>)
    ensures a + ([x] + b) + c == a + [x] + b + c
  {
  }

  /** The drained buffer is nobody else's, and the active one is untouched. */
  lemma DrainKeepsProducers<T>(s: State<T>, t: Step<T>)
    requires Inv(s) && Enabled(s, t) && (t.Handle? || t.Finish?)
    ensures var s' := Apply(s, t);
            && WellFormed(s') && SnapshotsHonest(s') && LocksExclusive(s')
            && s'.active == s.active && s'.buf[s.active] == s.buf[s.active]
  {
  }

  lemma HandleTakesNext<T>(s: State<T>)
    requires WellFormed(s) && Enabled(s, Handle)
    ensures BeingDrained(s) == [s.buf[1 - s.active][s.proc.done]] + BeingDrained(Apply(s, Handle))
  {
  }

  lemma ProcessorStepKeepsInv<T>(s: State<T>, t: Step<T>)
    requires Inv(s) && Enabled(s, t) && IsProcessorStep(t)
    ensures Inv(Apply(s, t))
  {
    if t.LockOld? {
      LockOldKeepsInv(s);
    } else if t.Swap? {
      SwapKeepsInv(s);
    } else if t.Handle? || t.Finish? {
      DrainKeepsInv(s, t);
    } else {
      assert SnapshotsHonest(Apply(s, t)) && LocksExclusive(Apply(s, t));
    }
  }

  /** A run is a sequence of steps, each enabled where it is taken. */
  ghost predicate IsRun<T>(s: State<T>, steps: seq<Step<T>>, last: State<T>)
    decreases |steps|
  {
    if steps == [] then s == last
    else WellFormed(s) && Enabled(s, steps[0]) && IsRun(Apply(s, steps[0]), steps[1..], last)
  }

  lemma {:induction false} RunKeepsInv<T>(s: State<T>, steps: seq<Step<T>>, last: State<T>)
    requires Inv(s) && IsRun(s, steps, last)
    ensures Inv(last)
    decreases |steps|
  {
    if steps == [] {
    } else {
      var t := steps[0];
      if IsProcessorStep(t) {
        ProcessorStepKeepsInv(s, t);
      } else {
        ProducerStepKeepsInv(s, t);
      }
      RunKeepsInv(Apply(s, t), steps[1..], last);
    }
  }

  /** No item is lost, duplicated or reordered: in every reachable state the accepted items,
      in acceptance order, are the handled ones, then those being drained, then the active
      buffer.  In particular an idle queue with an empty active buffer has handled them all. */
  lemma NothingLostOrReordered<T>(maxEntries: nat, steps: seq<Step<T>>, s: State<T>)
    requires IsRun(Init(maxEntries), steps, s)
    ensures WellFormed(s)
    ensures s.accepted == s.handled + BeingDrained(s) + s.buf[s.active]
    ensures s.handled <= s.accepted
    ensures s.proc.Idle? && s.buf[s.active] == [] ==> s.handled == s.accepted
    ensures |s.buf[0]| <= maxEntries && |s.buf[1]| <= maxEntries
  {
    RunKeepsInv(Init(maxEntries), steps, s);
    RunKeepsCapacity(Init(maxEntries), steps, s);
    assert s.accepted == s.handled + (BeingDrained(s) + s.buf[s.active]);
  }

  lemma {:induction false} RunKeepsCapacity<T>(s: State<T>, steps: seq<Step<T>>, last: State<T>)
    requires IsRun(s, steps, last)
    ensures last.maxEntries == s.maxEntries
    decreases |steps|
  {
    if steps != [] {
      RunKeepsCapacity(Apply(s, steps[0]), steps[1..], last);
    }
  }

  /** A producer that writes holds a current snapshot of the active buffer, so it never touches
      the buffer being drained and never writes to one that another thread has locked. */
  lemma StaleSnapshotNeverWrites<T>(maxEntries: nat, steps: seq<Step<T>>, s: State<T>, p: nat)
    requires IsRun(Init(maxEntries), steps, s) && WellFormed(s) && Enabled(s, Append(p))
    ensures s.prod[p].id == s.active && s.prod[p].version == s.activeVersion
    ensures !ProcessorHolds(s, s.prod[p].id)
    ensures forall q | q in s.prod && q != p && s.prod[q].Locked? :: s.prod[q].id != s.prod[p].id
    ensures BeingDrained(Apply(s, Append(p))) == BeingDrained(s)
  {
    RunKeepsInv(Init(maxEntries), steps, s);
  }

  /** The reset of the offline buffer at the swap finds it empty already. */
  lemma SwapResetDropsNothing<T>(maxEntries: nat, steps: seq<Step<T>>, s: State<T>)
    requires IsRun(Init(maxEntries), steps, s) && WellFormed(s) && Enabled(s, Swap)
    ensures s.buf[1 - s.active] == []
    ensures BeingDrained(Apply(s, Swap)) == s.buf[s.active]
  {
    RunKeepsInv(Init(maxEntries), steps, s);
  }

  predicate InCall<T>(s: State<T>, p: nat) { p in s.prod && !s.prod[p].Returned? }

  /** The step is taken by a thread that is already inside a call. */
  predicate Continues<T>(s: State<T>, t: Step<T>) {
    match t
    case Call(_, _) => false
    case Count => false
    case _ => true
  }

  /** The lock order admits no deadlock: while any thread is inside a call, some thread that is
      inside a call can take its next step. */
  lemma NoDeadlock<T>(maxEntries: nat, steps: seq<Step<T>>, s: State<T>, p: nat)
    requires IsRun(Init(maxEntries), steps, s)
    requires InCall(s, p) || !s.proc.Idle?
    ensures WellFormed(s)
    ensures exists t :: Enabled(s, t) && Continues(s, t)
  {
    RunKeepsInv(Init(maxEntries), steps, s);
    if q :| q in s.prod && s.prod[q].Locked? {
      LockHolderCanMove(s, q);
    } else {
      assert !ProducerHolds(s, 0) && !ProducerHolds(s, 1);
      if s.proc.Idle? { UnlockedProducerCanMove(s, p); } else { ProcessorCanMove(s); }
    }
  }

  lemma ProcessorCanMove<T>(s: State<T>)
    requires WellFormed(s) && !s.proc.Idle? && !ProducerHolds(s, 0) && !ProducerHolds(s, 1)
    ensures exists t :: Enabled(s, t) && Continues(s, t)
  {
    match s.proc {
      case Counted => assert Enabled(s, LockActive) && Continues(s, LockActive);
      case HoldsActive => assert Enabled(s, LockOld) && Continues(s, LockOld);
      case HoldsOne => assert Enabled(s, Swap) && Continues(s, Swap);
      case Draining(k) =>
        if k < |s.buf[1 - s.active]| {
          assert Enabled(s, Handle) && Continues(s, Handle);
        } else {
          assert Enabled(s, Finish) && Continues(s, Finish);
        }
    }
  }

  lemma LockHolderCanMove<T>(s: State<T>, q: nat)
    requires WellFormed(s) && q in s.prod && s.prod[q].Locked?
    ensures exists t :: Enabled(s, t) && Continues(s, t)
  {
    assert (Enabled(s, Race(q)) && Continues(s, Race(q)))
        || (Enabled(s, Overflow(q)) && Continues(s, Overflow(q)))
        || (Enabled(s, Append(q)) && Continues(s, Append(q)));
  }

  lemma UnlockedProducerCanMove<T>(s: State<T>, p: nat)
    requires WellFormed(s) && InCall(s, p) && s.proc.Idle? && !ProducerHolds(s, 0) && !ProducerHolds(s, 1)
    ensures exists t :: Enabled(s, t) && Continues(s, t)
  {
    assert (Enabled(s, Snapshot(p)) && Continues(s, Snapshot(p)))
        || (Enabled(s, GiveUp(p)) && Continues(s, GiveUp(p)))
        || (Enabled(s, LockBuffer(p)) && Continues(s, LockBuffer(p)))
        || (s.prod[p].Locked?);
    if s.prod[p].Locked? { LockHolderCanMove(s, p); }
  }
}
