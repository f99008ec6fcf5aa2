/** What becomes of the calls of the hand-off in SubmitBlock: an account of the triggers, kept from the
    outside, and that their blocks are the accepted ones. */
module SubmitCalls {
  import opened Wrappers
  import opened SubmitBlock

  /** A request and a hash that fits the buffer of 256 characters with its end. */
  predicate Usable(request: Option<nat>, hash: Option<string>) {
    request.Some? && hash.Some? && |hash.value| <= 255
  }

  /** Blocks of the triggers that are still inside, and of those that have returned, in that order. */
  datatype Account = Account(open: map<nat, Block>, done: seq<Block>)

  /** A trigger with usable arguments is opened with its block, and closed when its caller is done. */
  function Note(a: Account, s: State, t: Step): Account
    requires Enabled(s, t)
  {
    if t.Begin? && Usable(t.request, t.hash)
    then a.(open := a.open[t.p := Block(t.request.value, t.hash.value)])
    else if t.Test? && t.p in a.open && t.p in Apply(s, t).callers && Apply(s, t).callers[t.p].Done?
    then Account(a.open - {t.p}, a.done + [a.open[t.p]])
    else a
  }

  ghost predicate IsNotedRun(s: State, a: Account, steps: seq<Step>, last: State, a': Account)
    decreases |steps|
  {
    if steps == [] then s == last && a == a'
    else Enabled(s, steps[0]) && IsNotedRun(Apply(s, steps[0]), Note(a, s, steps[0]), steps[1..], last, a')
  }

  predicate Triggering(s: State, p: nat) {
    p in s.callers && !s.callers[p].Done? && s.callers[p].call.Trigger?
  }

  /** Exactly the triggers inside are open, each with its block, and the blocks of the others were accepted. */
  ghost predicate Agrees(s: State, a: Account) {
    && (forall p :: p in a.open <==> Triggering(s, p))
    && (forall p | p in a.open :: Triggering(s, p) && s.callers[p].call.block == a.open[p])
    && a.done == s.accepted
  }

  /** A call with usable arguments enters with its block; any other does nothing. */
  lemma BeginEnters(s: State, p: nat, request: Option<nat>, hash: Option<string>)
    requires IsIdle(s, p)
    ensures var s' := Apply(s, Begin(p, request, hash));
            if Usable(request, hash) then
              && Triggering(s', p) && s'.callers[p].call.block == Block(request.value, hash.value)
              && s'.accepted == s.accepted
            else s' == s
  {
  }

  /** A trigger whose test finds the slot free is done, and its block is accepted and in the slot; one that
      does not waits. */
  lemma TestAccepts(s: State, t: Step)
    requires Inv(s) && Enabled(s, t) && t.Test? && s.callers[t.p].call.Trigger?
    ensures var s', b := Apply(s, t), s.callers[t.p].call.block;
            if Busy(s) then s'.callers[t.p].Waiting? && s'.accepted == s.accepted && Pending(s') == Pending(s)
            else t.p in s'.callers && s'.callers[t.p].Done? && s'.accepted == s.accepted + [b] && Pending(s') == [b]
  {
  }

  lemma StepAgrees(s: State, a: Account, t: Step)
    requires Inv(s) && Agrees(s, a) && Enabled(s, t)
    ensures Agrees(Apply(s, t), Note(a, s, t))
  {
    if t.Test? {
      TestAgrees(s, a, t);
    } else if t.ConsumerFinish? {
      WakingAgrees(s, a, Apply(s, t), WaitSet(s));
    } else {
      OtherAgrees(s, a, t);
    }
  }

  /** Waking changes no call. */
  lemma WakingAgrees(s: State, a: Account, s': State, woken: set<nat>)
    requires Agrees(s, a) && s'.callers == Wake(s.callers, woken) && s'.accepted == s.accepted
    ensures Agrees(s', a)
  {
    forall p ensures Triggering(s', p) <==> Triggering(s, p) {}
  }

  lemma OtherAgrees(s: State, a: Account, t: Step)
    requires Agrees(s, a) && Enabled(s, t) && !t.Test? && !t.ConsumerFinish?
    ensures Agrees(Apply(s, t), Note(a, s, t))
  {
    var s' := Apply(s, t);
    if t.Begin? { BeginEnters(s, t.p, t.request, t.hash); }
    forall p | !(t.Begin? && t.p == p) ensures Triggering(s', p) <==> Triggering(s, p) {}
  }

  lemma TestAgrees(s: State, a: Account, t: Step)
    requires Inv(s) && Agrees(s, a) && Enabled(s, t) && t.Test?
    ensures Agrees(Apply(s, t), Note(a, s, t))
  {
    var s' := Apply(s, t);
    forall p | p != t.p ensures Triggering(s', p) <==> Triggering(s, p) {}
  }

  lemma {:induction false} RunAgrees(s: State, a: Account, steps: seq<Step>, last: State, a': Account)
    requires Inv(s) && Agrees(s, a) && IsNotedRun(s, a, steps, last, a')
    ensures Inv(last) && Agrees(last, a')
    decreases |steps|
  {
    if steps != [] {
      StepKeepsInv(s, steps[0]);
      StepAgrees(s, a, steps[0]);
      RunAgrees(Apply(s, steps[0]), Note(a, s, steps[0]), steps[1..], last, a');
    }
  }

  /** In every run the blocks of the triggers that have returned are the accepted ones, in order: the
      submitted ones and the one in the slot; and every other trigger is still inside with its block. */
  lemma ReturnedExactly(steps: seq<Step>, s: State, a: Account)
    requires IsNotedRun(INIT, Account(map[], []), steps, s, a)
    ensures a.done == s.accepted == s.consumed + Pending(s)
    ensures forall p :: p in a.open <==> Triggering(s, p)
    ensures forall p | p in a.open :: Triggering(s, p) && s.callers[p].call.block == a.open[p]
  {
    RunAgrees(INIT, Account(map[], []), steps, s, a);
  }

  /** And such an account can be kept of every run. */
  lemma {:induction false} EveryRunIsNoted(s: State, a: Account, steps: seq<Step>, last: State) returns (a': Account)
    requires IsRun(s, steps, last)
    ensures IsNotedRun(s, a, steps, last, a')
    decreases |steps|
  {
    if steps == [] {
      a' := a;
    } else {
      a' := EveryRunIsNoted(Apply(s, steps[0]), Note(a, s, steps[0]), steps[1..], last);
    }
  }
}
