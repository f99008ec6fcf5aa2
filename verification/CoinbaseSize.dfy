/** How long the coinbase becomes, against the size that the caller of Coinbase.Generate reckons with. */
module CoinbaseSize {
  import opened Wrappers
  import opened Radix
  import opened TxFormat
  import opened Coinbase
  import Payout

  /** Bytes of a variable-length integer for up to 65535. */
  function CountSize(n: nat): nat { if n < 0xFD then 1 else 3 }

  lemma CountIs(n: nat)
    requires n <= 0xFFFF
    ensures |Varint(n)| == CountSize(n)
  {
  }

  lemma {:induction false} SizeConcat(a: seq<Output>, b: seq<Output>)
    ensures TotalSize(a + b) == TotalSize(a) + TotalSize(b)
    decreases |a|
  {
    if a == [] {
      assert a + b == b;
    } else {
      assert (a + b)[1..] == a[1..] + b;
      SizeConcat(a[1..], b);
    }
  }

  lemma LastTwo(o: Output, p: Output)
    ensures TotalSize([o, p]) == Size(o) + Size(p)
  {
    assert [o, p][1..] == [p];
    OneSize(p);
  }

  lemma OneSize(o: Output)
    ensures TotalSize([o]) == Size(o)
  {
    assert [o][1..] == [];
  }

  lemma OutputsSize(job: Job, enInInput: bool, ks: seq<nat>, given: nat, en: Bytes)
    requires Indices(ks, |job.outs|) && |en| == EN_LEN && |job.enprefix| == 2
    ensures TotalSize(Outputs(job, enInInput, [], ks, given, en))
      == (if enInInput then 0 else 25) + TotalSize(Chosen(job.outs, ks))
         + (if given < job.value then 9 + |job.pool| else 12) + 9 + |job.commitment|
  {
    var e, b := if enInInput then [] else [EnOutput(job, en)], Chosen(job.outs, ks);
    var t := [Leftover(job, given), CommitmentOutput(job)];
    assert Chosen(job.outs, []) + e == e;
    SizeConcat(e + b, t);
    SizeConcat(e, b);
    OneSize(EnOutput(job, en));
    LastTwo(Leftover(job, given), CommitmentOutput(job));
  }

  lemma ShortScripts(job: Job, enInInput: bool, ks: seq<nat>, given: nat, en: Bytes)
    requires InWidth(job) && Indices(ks, |job.outs|) && |en| == EN_LEN
    ensures var outs := Outputs(job, enInInput, [], ks, given, en);
            forall i | 0 <= i < |outs| :: |outs[i].script| < 0xFD
  {
    var outs := Outputs(job, enInInput, [], ks, given, en);
    OutputsWritable(job, enInInput, [], ks, given, en);
    forall i | 0 <= i < |outs| ensures |outs[i].script| < 0xFD {
      assert outs[i] in outs;
      assert outs[i] in Chosen(job.outs, ks) || outs[i] == EnOutput(job, en) || outs[i] == Leftover(job, given)
          || outs[i] == CommitmentOutput(job);
    }
  }

  /** The bytes of the whole transaction, with all chosen outputs in coinb2. */
  lemma SizeIs(job: Job, enInInput: bool, ks: seq<nat>, given: nat, en: Bytes)
    requires InWidth(job) && Indices(ks, |job.outs|) && |ks| <= MAX_OUTPUTS && |en| == EN_LEN
    ensures |GenerationBytes(Expected(job, enInInput, [], ks, given, en))|
      == 50 + |job.input| + (if enInInput then 15 else 25) + CountSize(|ks| + if enInInput then 2 else 3)
         + TotalSize(Chosen(job.outs, ks))
         + (if given < job.value then 9 + |job.pool| else 12) + 9 + |job.commitment|
  {
    var t := Expected(job, enInInput, [], ks, given, en);
    OutputsSize(job, enInInput, ks, given, en);
    ShortScripts(job, enInInput, ks, given, en);
    SizeIsLength(t.outputs);
    CountIs(|t.outputs|);
    CountIs(|t.script|);
  }

  /** What is reckoned with is three bytes short, and five from 253 outputs on: with the usual commitment of 38
      bytes and something left for the pool, the coinbase keeps to the maximum of its type exactly when the
      chosen outputs leave that many bytes of the room. */
  lemma WithinMaximum(job: Job, ks: seq<nat>, given: nat, en: Bytes, max: nat)
    requires InWidth(job) && Indices(ks, |job.outs|) && |ks| <= MAX_OUTPUTS && |en| == EN_LEN
    requires |job.commitment| == 38 && given < job.value
    ensures var enInInput := |job.input| <= 85;
            var room := max - Payout.Required(job.pool, job.input);
            var short := 2 + CountSize(|ks| + if enInInput then 2 else 3);
            |GenerationBytes(Expected(job, enInInput, [], ks, given, en))| <= max
            <==> TotalSize(Chosen(job.outs, ks)) + short <= room
  {
    SizeIs(job, |job.input| <= 85, ks, given, en);
  }

  // ---- a coinbase that is too long ----

  /** Five outputs to 34-byte scripts and four to 22-byte scripts fill the room of the type of at most 500 bytes,
      with an input script of 20 bytes and a pool script of 22. */
  const FULL: seq<Output> := [WIDE, WIDE, WIDE, WIDE, WIDE, SLIM, SLIM, SLIM, SLIM]
  const WIDE: Output := Output(1, seq(34, _ => 0))
  const SLIM: Output := Output(1, seq(22, _ => 0))
  const ALL_NINE: seq<nat> := [0, 1, 2, 3, 4, 5, 6, 7, 8]

  function FullJob(enprefix: Bytes, commitment: Bytes): Job {
    Job(FULL, 312500000, enprefix, seq(22, _ => 0), commitment, seq(20, _ => 0))
  }

  lemma {:induction false} FullIsChosen(k: nat, room: int, spent: nat)
    requires k <= 9 && spent == k
    requires room == (if k < 5 then (5 - k) * 43 + 4 * 31 else (9 - k) * 31)
    ensures Select(FULL, k, room, spent, 312500000) == ALL_NINE[k..]
    decreases 9 - k
  {
    if k < 9 {
      FullItem(k);
      FullStep(k, room, spent);
      FullIsChosen(k + 1, room - Size(FULL[k]), spent + 1);
    }
  }

  lemma FullStep(k: nat, room: int, spent: nat)
    requires k < 9 && spent < 9 && FULL[k].value == 1
    requires Size(FULL[k]) <= room && (k == 8 || room - Size(FULL[k]) >= 30)
    ensures Select(FULL, k, room, spent, 312500000)
      == [k] + Select(FULL, k + 1, room - Size(FULL[k]), spent + 1, 312500000)
  {
    SelectStep(FULL, k, room, spent, 312500000);
  }

  lemma FullItem(k: nat)
    requires k < 9
    ensures FULL[k].value == 1 && Size(FULL[k]) == (if k < 5 then 43 else 31)
    ensures ALL_NINE[k..] == [k] + ALL_NINE[k + 1..]
  {
    assert ALL_NINE[k] == k;
  }

  /** All nine are chosen, and the coinbase has 503 bytes. */
  lemma ThreeTooMany(enprefix: Bytes, commitment: Bytes, en: Bytes)
    requires |enprefix| == 2 && |commitment| == 38 && |en| == EN_LEN
    ensures var job := FullJob(enprefix, commitment);
            && Select(job.outs, 0, 500 - Payout.Required(job.pool, job.input), 0, job.value) == ALL_NINE
            && |GenerationBytes(Expected(job, true, [], ALL_NINE, 9, en))| == 503
  {
    var job := FullJob(enprefix, commitment);
    FullIsChosen(0, 339, 0);
    assert ALL_NINE[0..] == ALL_NINE;
    NineChosen();
    SizeIs(job, true, ALL_NINE, 9, en);
  }

  lemma NineChosen()
    ensures TotalSize(Chosen(FULL, ALL_NINE)) == 339
  {
    assert Chosen(FULL, ALL_NINE) == [WIDE, WIDE, WIDE, WIDE, WIDE] + [SLIM, SLIM, SLIM, SLIM];
    SizeConcat([WIDE, WIDE, WIDE, WIDE, WIDE], [SLIM, SLIM, SLIM, SLIM]);
    Alike(WIDE, 5);
    Alike(SLIM, 4);
    assert seq(5, _ => WIDE) == [WIDE, WIDE, WIDE, WIDE, WIDE] && seq(4, _ => SLIM) == [SLIM, SLIM, SLIM, SLIM];
  }

  lemma {:induction false} Alike(o: Output, n: nat)
    ensures TotalSize(seq(n, _ => o)) == n * Size(o)
    decreases n
  {
    if n > 0 {
      assert seq(n, _ => o)[1..] == seq(n - 1, _ => o);
      Alike(o, n - 1);
    }
  }
}
