/** The eight-slot remote job cache of src/datum_protocol.c: what the gateway believes the server
    holds for a slot, what it sends with a BLAKE2b share, and what the server then really holds.
    A stratum job is identified by its pointer, which the share carries itself. */
module JobCache {
  import opened Wrappers

  const SLOTS: nat := 8
  const FLAGS: nat := 8
  const COINBASE_TYPES: nat := 6

  type JobId = nat

  /** T_DATUM_PROTOCOL_JOB, the part a BLAKE2b share uses. */
  datatype Slot = Slot(sjob: Option<JobId>, serverJob: Option<JobId>, hasMerkle: bool, hasCoinbase: seq<bool>)

  /** The optional parts of a message: the merkle context of a job, one of its coinbases. */
  datatype Part = Context(job: JobId) | Coinbase(id: nat, owner: JobId)

  const NO_COINBASES: seq<bool> := [false, false, false, false, false, false, false, false]
  const EMPTY_SLOT: Slot := Slot(None, None, false, NO_COINBASES)

  predicate SlotOk(s: Slot) { |s.hasCoinbase| == FLAGS }

  // ---- what is sent, and what is believed afterwards ----

  function Parts(s: Slot, job: JobId, cid: nat): seq<Part>
    requires SlotOk(s) && cid < COINBASE_TYPES
  {
    (if s.serverJob != Some(job) || !s.hasMerkle then [Context(job)] else [])
      + if s.serverJob != Some(job) || !s.hasCoinbase[cid] then [Coinbase(cid, job)] else []
  }

  function Believed(s: Slot, job: JobId, cid: nat): Slot
    requires SlotOk(s) && cid < COINBASE_TYPES
  {
    s.(serverJob := Some(job), hasMerkle := true,
       hasCoinbase := (if s.serverJob == Some(job) then s.hasCoinbase else NO_COINBASES)[cid := true])
  }

  // ---- the server ----

  /** Per slot: the job whose context is cached, and whose coinbase is cached under each id. */
  datatype Cache = Cache(context: Option<JobId>, coinbases: map<nat, JobId>)

  const EMPTY_CACHE: Cache := Cache(None, map[])

  /** A new context may make the server drop any of the coinbases it held; `keep` says which stay. */
  function Receive(c: Cache, p: Part, keep: set<nat>): Cache {
    match p
    case Context(job) => Cache(Some(job), map id | id in c.coinbases && id in keep :: c.coinbases[id])
    case Coinbase(id, owner) => c.(coinbases := c.coinbases[id := owner])
  }

  function ReceiveAll(c: Cache, ps: seq<Part>, keep: set<nat>): Cache
    decreases |ps|
  {
    if ps == [] then c else ReceiveAll(Receive(c, ps[0], keep), ps[1..], keep)
  }

  lemma ReceiveOne(c: Cache, p: Part, keep: set<nat>)
    ensures ReceiveAll(c, [p], keep) == Receive(c, p, keep)
  {
    assert [p][1..] == [];
  }

  /** The server can check a share of this job and coinbase against that job's own data. */
  predicate Resolves(c: Cache, job: JobId, cid: nat) {
    c.context == Some(job) && cid in c.coinbases && c.coinbases[cid] == job
  }

  /** What the gateway believes is true, and it believes in no coinbase without a context. */
  ghost predicate Knows(s: Slot, c: Cache) {
    && SlotOk(s)
    && (s.hasMerkle ==> s.serverJob.Some? && c.context == s.serverJob)
    && (forall id | 0 <= id < FLAGS && s.hasCoinbase[id] ::
          s.hasMerkle && id in c.coinbases && Some(c.coinbases[id]) == s.serverJob)
  }

  /** After a share's message the server resolves it, whatever the slot was used for before, and
      the belief is true again. */
  lemma ShareResolves(s: Slot, c: Cache, job: JobId, cid: nat, keep: set<nat>)
    requires Knows(s, c) && cid < COINBASE_TYPES
    ensures var c' := ReceiveAll(c, Parts(s, job, cid), keep);
            Resolves(c', job, cid) && Knows(Believed(s, job, cid), c')
  {
    var ps := Parts(s, job, cid);
    if s.serverJob != Some(job) || !s.hasMerkle {
      assert ps == [Context(job), Coinbase(cid, job)] && ps[1..] == [Coinbase(cid, job)];
      ReceiveOne(Receive(c, Context(job), keep), Coinbase(cid, job), keep);
    } else if !s.hasCoinbase[cid] {
      assert ps == [Coinbase(cid, job)];
      ReceiveOne(c, Coinbase(cid, job), keep);
    }
  }

  /** A message carries each thing the share needs, or the server already holds it for this job;
      and it carries nothing twice in a row. */
  lemma CarriesOrCached(s: Slot, c: Cache, job: JobId, cid: nat, keep: set<nat>)
    requires Knows(s, c) && cid < COINBASE_TYPES
    ensures Context(job) in Parts(s, job, cid) || c.context == Some(job)
    ensures Coinbase(cid, job) in Parts(s, job, cid) || (cid in c.coinbases && c.coinbases[cid] == job)
    ensures Parts(Believed(s, job, cid), job, cid) == []
  {
  }

  // ---- whole runs ----

  /** The gateway's slots, the server's caches, and whether a message of this connection was lost: the
      nonce and the header key have then moved on, and the server can read nothing that follows. */
  datatype World = World(slots: seq<Slot>, next: nat, caches: seq<Cache>, broken: bool)

  datatype Event =
    | Setup(job: JobId)                                               // a new stratum job takes the next slot
    // a share of any job that ever had the slot; its message is lost when the send buffer is full
    | Share(slot: nat, sjob: JobId, cid: nat, keep: set<nat>, lost: bool)
    | Reconnect                                                       // the server starts with nothing

  const INIT: World := World(seq(SLOTS, _ => EMPTY_SLOT), 0, seq(SLOTS, _ => EMPTY_CACHE), false)

  /** The server reads the message of this share. */
  predicate Received(w: World, e: Event)
    requires e.Share?
  {
    !w.broken && !e.lost
  }

  predicate WorldOk(w: World) {
    && |w.slots| == SLOTS && |w.caches| == SLOTS && w.next < SLOTS
    && forall a | 0 <= a < SLOTS :: SlotOk(w.slots[a])
  }

  predicate Allowed(e: Event) { e.Share? ==> e.slot < SLOTS && e.cid < COINBASE_TYPES }

  function Forgotten(s: Slot): Slot { s.(hasMerkle := false, hasCoinbase := NO_COINBASES) }

  function Apply(w: World, e: Event): (w': World)
    requires WorldOk(w) && Allowed(e)
    ensures WorldOk(w')
  {
    match e
    case Setup(job) =>
      w.(slots := w.slots[w.next := w.slots[w.next].(sjob := Some(job))], next := (w.next + 1) % SLOTS)
    case Share(slot, job, cid, keep, lost) =>
      var cache := ReceiveAll(w.caches[slot], Parts(w.slots[slot], job, cid), keep);
      World(w.slots[slot := Believed(w.slots[slot], job, cid)], w.next,
            if Received(w, e) then w.caches[slot := cache] else w.caches, w.broken || lost)
    case Reconnect =>
      World(seq(SLOTS, a requires 0 <= a < SLOTS => Forgotten(w.slots[a])), w.next,
            seq(SLOTS, _ => EMPTY_CACHE), false)
  }

  function Run(w: World, es: seq<Event>): (w': World)
    requires WorldOk(w) && forall i | 0 <= i < |es| :: Allowed(es[i])
    ensures WorldOk(w')
  {
    if es == [] then w else Apply(Run(w, es[..|es| - 1]), es[|es| - 1])
  }

  ghost predicate AllKnown(w: World)
    requires WorldOk(w)
  {
    !w.broken ==> forall a | 0 <= a < SLOTS :: Knows(w.slots[a], w.caches[a])
  }

  lemma EventKeepsKnowledge(w: World, e: Event)
    requires WorldOk(w) && Allowed(e) && AllKnown(w)
    ensures AllKnown(Apply(w, e))
  {
    if e.Share? && Received(w, e) { ShareResolves(w.slots[e.slot], w.caches[e.slot], e.sjob, e.cid, e.keep); }
  }

  lemma {:induction false} RunKeepsKnowledge(es: seq<Event>)
    requires forall i | 0 <= i < |es| :: Allowed(es[i])
    ensures AllKnown(Run(INIT, es))
    decreases |es|
  {
    if es != [] {
      RunKeepsKnowledge(es[..|es| - 1]);
      EventKeepsKnowledge(Run(INIT, es[..|es| - 1]), es[|es| - 1]);
    }
  }

  /** In every run over recycled slots, lost messages and reconnects, each share that the server reads
      finds or brings the context and the coinbase of its own job, late shares of an older job in the
      slot included. */
  lemma EveryShareResolves(es: seq<Event>, k: nat)
    requires (forall i | 0 <= i < |es| :: Allowed(es[i])) && k < |es| && es[k].Share?
    requires Received(Run(INIT, es[..k]), es[k])
    ensures Resolves(Run(INIT, es[..k + 1]).caches[es[k].slot], es[k].sjob, es[k].cid)
  {
    var before, e := es[..k], es[k];
    RunKeepsKnowledge(before);
    assert es[..k + 1][..k] == before && es[..k + 1][k] == e;
    var w := Run(INIT, before);
    assert Knows(w.slots[e.slot], w.caches[e.slot]);
    ShareResolves(w.slots[e.slot], w.caches[e.slot], e.sjob, e.cid, e.keep);
  }

  // ---- the program ----

  /** The longest message there is; the buffer of datum_protocol_pow has 32768 bytes. */
  const LONGEST: nat := 18182

  /** Lengths that vary: user name, merkle branches, the two halves of the coinbase. */
  datatype Lengths = Lengths(username: nat, branches: nat, coinb1: nat, coinb2: nat)

  predicate InWidth(n: Lengths) { n.username <= 384 && n.branches <= 24 && n.coinb1 <= 512 && n.coinb2 <= 16384 }

  class Jobs {
    var slots: seq<Slot>
    var next: nat

    ghost predicate Valid()
      reads this
    {
      |slots| == SLOTS && next < SLOTS && forall a | 0 <= a < SLOTS :: SlotOk(slots[a])
    }

    constructor ()
      ensures Valid() && slots == INIT.slots && next == INIT.next
    {
      slots := seq(SLOTS, _ => EMPTY_SLOT);
      next := 0;
    }

    /** datum_protocol_setup_new_job_idx */
    method SetupJob(job: JobId) returns (a: nat)
      requires Valid()
      modifies this
      ensures Valid() && a == old(next)
      ensures slots == old(slots)[a := old(slots)[a].(sjob := Some(job))] && next == (a + 1) % SLOTS
    {
      a := next;
      next := next + 1;
      if next >= SLOTS { next := 0; }
      slots := slots[a := slots[a].(sjob := Some(job))];
    }

    /** The start of datum_protocol_client: the beliefs are dropped, not the job pointers. */
    method ForgetServer()
      requires Valid()
      modifies this
      ensures Valid() && next == old(next)
      ensures forall a | 0 <= a < SLOTS :: slots[a] == Forgotten(old(slots)[a])
    {
      for i := 0 to SLOTS
        invariant |slots| == SLOTS && next == old(next)
        invariant forall a | 0 <= a < SLOTS :: slots[a] == if a < i then Forgotten(old(slots)[a]) else old(slots)[a]
      {
        var flags := slots[i].hasCoinbase;
        for n := 0 to FLAGS
          invariant |flags| == FLAGS && forall m | 0 <= m < n :: !flags[m]
        {
          flags := flags[n := false];
        }
        assert flags == NO_COINBASES;
        slots := slots[i := slots[i].(hasMerkle := false, hasCoinbase := flags)];
      }
    }

    /** datum_protocol_pow_build_message for a BLAKE2b share of a job that has a template, with a
        buffer of `size` bytes.  The check before the context counts 62 bytes where 69 are written,
        but with a buffer for the longest message no check fails and nothing is overrun, so the
        flags never run ahead of what is sent. */
    method BuildMessage(slot: nat, job: JobId, cid: nat, subsidyOnly: bool, n: Lengths, size: nat)
        returns (parts: Option<seq<Part>>, len: nat)
      requires Valid() && slot < SLOTS && InWidth(n)
      modifies this
      ensures Valid() && next == old(next)
      ensures subsidyOnly || cid >= COINBASE_TYPES ==> parts.None?
      ensures parts.None? ==> slots == old(slots) || slots == old(slots)[slot := old(slots)[slot].(hasMerkle := true)]
      ensures parts.None? && size >= LONGEST ==> subsidyOnly || cid >= COINBASE_TYPES
      ensures parts.None? && (subsidyOnly || cid >= COINBASE_TYPES) ==> slots == old(slots)
      ensures parts.Some? ==> parts.value == Parts(old(slots[slot]), job, cid)
                              && slots == old(slots)[slot := Believed(old(slots[slot]), job, cid)]
                              && len <= LONGEST && len <= size
    {
      len := 0;
      if size < 64 || subsidyOnly || cid >= COINBASE_TYPES { return None, 0; }
      var out: seq<Part> := [];
      var i: nat := 30;
      if i + n.username + 1 + 4 >= size { return None, 0; }
      i := i + n.username + 1 + 4;
      if i + 23 >= size { return None, 0; }
      i := i + 23;
      var pj := slots[slot];
      var unknown := pj.serverJob != Some(job);
      var wrote := false;
      if unknown || !pj.hasMerkle {
        if i + 62 + n.branches * 32 >= size { return None, 0; }
        out := out + [Context(job)];
        i := i + 69 + n.branches * 32;
        wrote := true;
        pj := pj.(hasMerkle := true);
        slots := slots[slot := pj];
      }
      if unknown || !pj.hasCoinbase[cid] {
        if i + 6 + n.coinb1 + n.coinb2 >= size { return None, 0; }
        out := out + [Coinbase(cid, job)];
        i := i + 6 + n.coinb1 + n.coinb2;
        wrote := true;
        pj := pj.(hasCoinbase := pj.hasCoinbase[cid := true]);
      }
      if i + 1 > size { return None, 0; }
      i := i + 1;
      if wrote || unknown {
        if pj.serverJob != Some(job) {
          pj := pj.(hasMerkle := true, hasCoinbase := NO_COINBASES[cid := true]);
        }
        pj := pj.(serverJob := Some(job));
      }
      assert pj.hasCoinbase == Believed(old(slots[slot]), job, cid).hasCoinbase;
      slots := slots[slot := pj];
      return Some(out), i;
    }
  }
}
