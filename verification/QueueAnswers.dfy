/** What the callers of the queue of VersionedQueue are told: an account of all calls, kept from the
    outside, and that it agrees with what the queue accepted. */
module QueueAnswers {
  import opened VersionedQueue

  /** A call that has not returned: its item, and how often it lost the race for its buffer. */
  datatype Open<T> = Open(item: T, races: nat)

  /** A call that has returned: its item, and whether it was told success. */
  datatype Answer<T> = Answer(item: T, ok: bool)

  datatype Account<T> = Account(open: map<nat, Open<T>>, answers: seq<Answer<T>>)

  function Returns<T>(s: State<T>, t: Step<T>): bool
    requires WellFormed(s) && Enabled(s, t)
  {
    !IsProcessorStep(t) && t.p in Apply(s, t).prod && Apply(s, t).prod[t.p].Returned?
  }

  /** The account after a step: a call is opened with its item and closed with what its caller is told. */
  function Note<T>(a: Account<T>, s: State<T>, t: Step<T>): Account<T>
    requires WellFormed(s) && Enabled(s, t)
  {
    if t.Call? then a.(open := a.open[t.p := Open(t.item, 0)])
    else if !IsProcessorStep(t) && t.p in a.open && Returns(s, t)
    then Account(a.open - {t.p}, a.answers + [Answer(a.open[t.p].item, Apply(s, t).prod[t.p].ok)])
    else if t.Race? && t.p in a.open then a.(open := a.open[t.p := Open(a.open[t.p].item, a.open[t.p].races + 1)])
    else a
  }

  ghost predicate IsNotedRun<T>(s: State<T>, a: Account<T>, steps: seq<Step<T>>, last: State<T>, a': Account<T>)
    decreases |steps|
  {
    if steps == [] then s == last && a == a'
    else
      && WellFormed(s) && Enabled(s, steps[0])
      && IsNotedRun(Apply(s, steps[0]), Note(a, s, steps[0]), steps[1..], last, a')
  }

  /** The items of the calls that were told success, in the order in which they were. */
  function Taken<T>(answers: seq<Answer<T>>): seq<T> {
    if answers == [] then []
    else
      var front, last := Taken(answers[..|answers| - 1]), answers[|answers| - 1];
      if last.ok then front + [last.item] else front
  }

  lemma TakenNext<T>(answers: seq<Answer<T>>, x: Answer<T>)
    ensures Taken(answers + [x]) == if x.ok then Taken(answers) + [x.item] else Taken(answers)
  {
    assert (answers + [x])[..|answers|] == answers;
  }

  /** Exactly the calls inside the queue are open, with their items, and what was taken was accepted. */
  ghost predicate Agrees<T>(s: State<T>, a: Account<T>) {
    && (forall p :: p in a.open <==> InCall(s, p))
    && (forall p | p in a.open :: InCall(s, p) && Open(s.prod[p].item, s.prod[p].tries) == a.open[p])
    && Taken(a.answers) == s.accepted
  }

  /** A step that returns success has put the caller's item last into the active buffer; any other step of a
      producer leaves buffers and accepted items alone; and failure is told only with a full active
      buffer, or after every attempt lost the race. */
  lemma AnswerIsHonest<T>(s: State<T>, t: Step<T>)
    requires Inv(s) && Enabled(s, t) && !IsProcessorStep(t) && !t.Call?
    ensures var s', q := Apply(s, t), s.prod[t.p];
            if Returns(s, t) && s'.prod[t.p].ok then
              && s'.accepted == s.accepted + [q.item] && |s.buf[s.active]| < s.maxEntries
              && s'.buf == s.buf[s.active := s.buf[s.active] + [q.item]]
            else
              s'.accepted == s.accepted && s'.buf == s.buf
    ensures Returns(s, t) && !Apply(s, t).prod[t.p].ok ==>
      |s.buf[s.active]| >= s.maxEntries || s.prod[t.p].tries >= MAX_TRIES
  {
  }

  lemma ProducerStepAgrees<T>(s: State<T>, a: Account<T>, t: Step<T>)
    requires Inv(s) && Agrees(s, a) && Enabled(s, t) && !IsProcessorStep(t)
    ensures Agrees(Apply(s, t), Note(a, s, t))
  {
    var s', a' := Apply(s, t), Note(a, s, t);
    forall p | p != t.p ensures InCall(s', p) <==> InCall(s, p) {}
    if !t.Call? {
      AnswerIsHonest(s, t);
      assert InCall(s, t.p);
      if Returns(s, t) { TakenNext(a.answers, Answer(a.open[t.p].item, s'.prod[t.p].ok)); }
    }
  }

  lemma StepAgrees<T>(s: State<T>, a: Account<T>, t: Step<T>)
    requires Inv(s) && Agrees(s, a) && Enabled(s, t)
    ensures Inv(Apply(s, t)) && Agrees(Apply(s, t), Note(a, s, t))
  {
    if IsProcessorStep(t) {
      ProcessorStepKeepsInv(s, t);
      assert Apply(s, t).prod == s.prod && Apply(s, t).accepted == s.accepted;
    } else {
      ProducerStepKeepsInv(s, t);
      ProducerStepAgrees(s, a, t);
    }
  }

  lemma {:induction false} RunAgrees<T>(s: State<T>, a: Account<T>, steps: seq<Step<T>>, last: State<T>, a': Account<T>)
    requires Inv(s) && Agrees(s, a) && IsNotedRun(s, a, steps, last, a')
    ensures Inv(last) && Agrees(last, a')
    decreases |steps|
  {
    if steps != [] {
      StepAgrees(s, a, steps[0]);
      RunAgrees(Apply(s, steps[0]), Note(a, s, steps[0]), steps[1..], last, a');
    }
  }

  /** In every run the calls that were told success are exactly the accepted items, in the order of
      acceptance, and every other call is still inside or was told failure. */
  lemma AnsweredExactly<T>(maxEntries: nat, steps: seq<Step<T>>, s: State<T>, a: Account<T>)
    requires IsNotedRun(Init(maxEntries), Account(map[], []), steps, s, a)
    ensures Taken(a.answers) == s.accepted
    ensures forall p :: p in a.open <==> InCall(s, p)
    ensures WellFormed(s) && Taken(a.answers) == s.handled + BeingDrained(s) + s.buf[s.active]
  {
    RunAgrees(Init(maxEntries), Account(map[], []), steps, s, a);
  }

  /** And such an account can be kept of every run. */
  lemma {:induction false} EveryRunIsNoted<T>(s: State<T>, a: Account<T>, steps: seq<Step<T>>, last: State<T>)
      returns (a': Account<T>)
    requires IsRun(s, steps, last)
    ensures IsNotedRun(s, a, steps, last, a')
    decreases |steps|
  {
    if steps == [] {
      a' := a;
    } else {
      a' := EveryRunIsNoted(Apply(s, steps[0]), Note(a, s, steps[0]), steps[1..], last);
    }
  }

  /** In a reachable state a call is told failure only if the active buffer is full or all its attempts lost
      the race, and then it has written nothing. */
  lemma RefusedOnlyWhenFull<T>(maxEntries: nat, steps: seq<Step<T>>, s: State<T>, a: Account<T>, t: Step<T>)
    requires IsNotedRun(Init(maxEntries), Account(map[], []), steps, s, a)
    requires WellFormed(s) && Enabled(s, t) && !IsProcessorStep(t) && !t.Call?
    requires Returns(s, t) && !Apply(s, t).prod[t.p].ok
    ensures Apply(s, t).buf == s.buf && t.p in a.open
    ensures |s.buf[s.active]| == maxEntries || a.open[t.p].races >= MAX_TRIES
  {
    RunAgrees(Init(maxEntries), Account(map[], []), steps, s, a);
    NotedIsRun(Init(maxEntries), Account(map[], []), steps, s, a);
    RunKeepsCapacity(Init(maxEntries), steps, s);
    RefusedHere(s, a, t);
  }

  lemma RefusedHere<T>(s: State<T>, a: Account<T>, t: Step<T>)
    requires Inv(s) && Agrees(s, a) && Enabled(s, t) && !IsProcessorStep(t) && !t.Call?
    requires Returns(s, t) && !Apply(s, t).prod[t.p].ok
    ensures Apply(s, t).buf == s.buf && t.p in a.open
    ensures |s.buf[s.active]| == s.maxEntries || a.open[t.p].races >= MAX_TRIES
  {
    AnswerIsHonest(s, t);
    assert InCall(s, t.p);
  }

  lemma {:induction false} NotedIsRun<T>(s: State<T>, a: Account<T>, steps: seq<Step<T>>, last: State<T>,
                                         a': Account<T>)
    requires IsNotedRun(s, a, steps, last, a')
    ensures IsRun(s, steps, last)
    decreases |steps|
  {
    if steps != [] { NotedIsRun(Apply(s, steps[0]), Note(a, s, steps[0]), steps[1..], last, a'); }
  }
}
