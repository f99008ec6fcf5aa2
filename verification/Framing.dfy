/** Reassembly of protocol messages in src/datum_protocol.c (the receive state machine of
    datum_protocol_client): headers of four masked bytes, a key that moves on with every header,
    bodies of the announced length, whatever sizes recv returns. */
module Framing {

  const HEADER_LEN: nat := 4
  const LEN_LIMIT: nat := 0x40_0000   // the length field has 22 bits
  const BUFFER_SIZE: nat := 3 * 0x40_0000

  /** An unmasked header: the length of the body and the other fields. */
  datatype Header = Header(len: nat, flags: nat)

  datatype Message = Message(header: Header, body: seq<nat>)

  /** How headers are unmasked and how the key moves on (datum_xor_header_key and
      datum_header_xor_feedback); their arithmetic plays no role here. */
  datatype Masks<!K> = Masks(mask: (Header, K) -> seq<nat>, unmask: (seq<nat>, K) -> Header, feedback: K -> K)

  /** Masking is exclusive or: four bytes, undone with the same key. */
  ghost predicate Unmasks<K(!new)>(m: Masks<K>) {
    forall h: Header, k: K | h.len < LEN_LIMIT :: |m.mask(h, k)| == HEADER_LEN && m.unmask(m.mask(h, k), k) == h
  }

  ghost predicate LengthsFit<K(!new)>(m: Masks<K>) {
    forall b: seq<nat>, k: K :: m.unmask(b, k).len < LEN_LIMIT
  }

  // ---- the reference ----

  /** The messages that start at position i of the whole stream, the first one masked with key k. */
  function Frames<K>(m: Masks<K>, s: seq<nat>, i: nat, k: K): seq<Message>
    decreases |s| - i
  {
    if i + HEADER_LEN > |s| then []
    else
      var h := m.unmask(s[i..i + HEADER_LEN], k);
      var end := i + HEADER_LEN + h.len;
      if end > |s| then [] else [Message(h, s[i + HEADER_LEN..end])] + Frames(m, s, end, m.feedback(k))
  }

  /** The key at position n of the feedback chain. */
  function ChainKey<K>(m: Masks<K>, k: K, n: nat): K {
    if n == 0 then k else m.feedback(ChainKey(m, k, n - 1))
  }

  // ---- the sender ----

  /** What a peer sends for a list of messages (datum_protocol_mining_cmd does the same the other
      way): each header masked with the key at its position, then the body. */
  function Sent<K>(m: Masks<K>, ms: seq<Message>, k: K): seq<nat> {
    if ms == [] then [] else m.mask(ms[0].header, k) + ms[0].body + Sent(m, ms[1..], m.feedback(k))
  }

  predicate Sendable(ms: seq<Message>) {
    forall i | 0 <= i < |ms| :: ms[i].header.len == |ms[i].body| < LEN_LIMIT
  }

  lemma FrameAt<K(!new)>(m: Masks<K>, s: seq<nat>, i: nat, msg: Message, k: K)
    requires Unmasks(m) && msg.header.len == |msg.body| < LEN_LIMIT
    requires i + HEADER_LEN + |msg.body| <= |s| && s[i..i + HEADER_LEN] == m.mask(msg.header, k)
    requires s[i + HEADER_LEN..i + HEADER_LEN + |msg.body|] == msg.body
    ensures Frames(m, s, i, k) == [msg] + Frames(m, s, i + HEADER_LEN + |msg.body|, m.feedback(k))
  {
    assert m.unmask(m.mask(msg.header, k), k) == msg.header;
  }

  lemma Slices(pre: seq<nat>, head: seq<nat>, body: seq<nat>, rest: seq<nat>)
    ensures var s, a, b := (pre + head + body) + rest, |pre| + |head|, |pre| + |head| + |body|;
            b <= |s| && s[|pre|..a] == head && s[a..b] == body
  {
  }

  lemma Regroup(pre: seq<nat>, head: seq<nat>, body: seq<nat>, rest: seq<nat>)
    ensures pre + (head + body + rest) == (pre + head + body) + rest
  {
  }

  /** The reference decoding of what a peer with the same key chain sent is what it sent. */
  lemma {:induction false} SentIsFramed<K(!new)>(m: Masks<K>, pre: seq<nat>, ms: seq<Message>, k: K)
    requires Unmasks(m) && Sendable(ms)
    ensures Frames(m, pre + Sent(m, ms, k), |pre|, k) == ms
    decreases |ms|
  {
    if ms != [] {
      var head, rest := m.mask(ms[0].header, k), Sent(m, ms[1..], m.feedback(k));
      assert |head| == HEADER_LEN;
      Regroup(pre, head, ms[0].body, rest);
      Slices(pre, head, ms[0].body, rest);
      FrameAt(m, pre + Sent(m, ms, k), |pre|, ms[0], k);
      SentIsFramed(m, pre + head + ms[0].body, ms[1..], m.feedback(k));
      assert [ms[0]] + ms[1..] == ms;
    }
  }

  // ---- what the state machine keeps ----

  /** The fields of a connection. */
  datatype State<K> = State(phase: nat, raw: seq<nat>, header: Header, key: K, body: seq<nat>, out: seq<Message>,
                            closed: bool)

  /** Messages delivered so far end at `start`; the bytes from there to pos are in the buffers of
      the current phase, and the key has been moved on once for every header unmasked. */
  ghost predicate Assembling<K(!new)>(m: Masks<K>, s: seq<nat>, key0: K, st: State<K>, start: nat, pos: nat) {
    var k := ChainKey(m, key0, |st.out|);
    && start <= pos <= |s| && st.phase <= 5
    && st.out + Frames(m, s, start, k) == Frames(m, s, 0, key0)
    && (st.phase < 5 ==> st.key == k)
    && (st.phase == 0 ==> pos == start)
    && (1 <= st.phase <= 4 ==> pos == start + HEADER_LEN - st.phase % 4 && st.raw == s[start..pos])
    && (st.phase == 5 ==> InBody(m, s, st, k, start, pos))
  }

  ghost predicate InBody<K(!new)>(m: Masks<K>, s: seq<nat>, st: State<K>, k: K, start: nat, pos: nat) {
    && start + HEADER_LEN <= pos <= |s| && st.key == m.feedback(k)
    && st.header == m.unmask(s[start..start + HEADER_LEN], k)
    && st.body == s[start + HEADER_LEN..pos] && |st.body| <= st.header.len
  }

  /** Whatever was delivered is a prefix of the reference decoding of the whole stream. */
  lemma DeliveredIsPrefix<K(!new)>(m: Masks<K>, s: seq<nat>, key0: K, st: State<K>, start: nat, pos: nat)
    requires Assembling(m, s, key0, st, start, pos)
    ensures |st.out| <= |Frames(m, s, 0, key0)| && st.out == Frames(m, s, 0, key0)[..|st.out|]
  {
  }

  /** Between messages, with the whole stream read, everything was delivered. */
  lemma NothingLost<K(!new)>(m: Masks<K>, s: seq<nat>, key0: K, st: State<K>, start: nat)
    requires Assembling(m, s, key0, st, start, |s|) && st.phase == 0
    ensures st.out == Frames(m, s, 0, key0)
  {
    assert st.out + [] == st.out;
  }

  /** A complete body: the message is the next one of the reference. */
  lemma Complete<K(!new)>(m: Masks<K>, s: seq<nat>, key0: K, st: State<K>, start: nat, pos: nat)
    requires Assembling(m, s, key0, st, start, pos) && st.phase == 5 && |st.body| == st.header.len
    ensures Assembling(m, s, key0, st.(phase := 0, body := [], out := st.out + [Message(st.header, st.body)]), pos, pos)
  {
    var k := ChainKey(m, key0, |st.out|);
    var msg := Message(st.header, st.body);
    assert Frames(m, s, start, k) == [msg] + Frames(m, s, pos, m.feedback(k));
    assert st.out + ([msg] + Frames(m, s, pos, m.feedback(k))) == (st.out + [msg]) + Frames(m, s, pos, m.feedback(k));
  }

  /** A complete header is unmasked with the key of its own position. */
  lemma Unmasked<K(!new)>(m: Masks<K>, s: seq<nat>, key0: K, st: State<K>, start: nat, pos: nat)
    requires Assembling(m, s, key0, st, start, pos) && st.phase == 4
    ensures var header, key := m.unmask(st.raw, st.key), m.feedback(st.key);
            Assembling(m, s, key0, st.(phase := 5, header := header, key := key, body := []), start, pos)
  {
  }

  lemma MoreBody<K(!new)>(m: Masks<K>, s: seq<nat>, key0: K, st: State<K>, start: nat, pos: nat, pos': nat)
    requires Assembling(m, s, key0, st, start, pos) && st.phase == 5
    requires pos <= pos' <= |s| && |st.body| + (pos' - pos) <= st.header.len
    ensures Assembling(m, s, key0, st.(body := st.body + s[pos..pos']), start, pos')
  {
    assert s[start + HEADER_LEN..pos] + s[pos..pos'] == s[start + HEADER_LEN..pos'];
  }

  lemma MoreHeader<K(!new)>(m: Masks<K>, s: seq<nat>, key0: K, st: State<K>, start: nat, pos: nat, pos': nat,
                            phase': nat)
    requires Assembling(m, s, key0, st, start, pos) && st.phase <= 3
    requires pos < pos' <= |s| && pos' <= start + HEADER_LEN && phase' % 4 == start + HEADER_LEN - pos'
      && 1 <= phase' <= 4
    ensures Assembling(m, s, key0, st.(phase := phase', raw := s[start..pos']), start, pos')
  {
  }

  lemma JoinHeader<K(!new)>(m: Masks<K>, s: seq<nat>, key0: K, st: State<K>, start: nat, pos: nat, pos': nat,
                            phase': nat)
    requires Assembling(m, s, key0, st, start, pos) && 1 <= st.phase <= 3
    requires pos < pos' <= |s| && pos' <= start + HEADER_LEN && phase' % 4 == start + HEADER_LEN - pos'
      && 1 <= phase' <= 4
    ensures forall closed ::
      Assembling(m, s, key0, st.(closed := closed, phase := phase', raw := st.raw + s[pos..pos']), start, pos')
  {
    MoreHeader(m, s, key0, st, start, pos, pos', phase');
    assert s[start..pos] + s[pos..pos'] == s[start..pos'];
  }

  class Connection<K(!new)> {
    const m: Masks<K>
    const stream: seq<nat>   // everything the peer ever sends
    ghost const key0: K
    var st: State<K>
    var pos: nat
    ghost var start: nat

    ghost predicate Valid()
      reads this
    {
      LengthsFit(m) && Assembling(m, stream, key0, st, start, pos)
    }

    constructor (masks: Masks<K>, s: seq<nat>, key: K)
      requires LengthsFit(masks)
      ensures Valid() && m == masks && stream == s && key0 == key && st.out == [] && pos == 0 && !st.closed
    {
      m, stream, key0, pos, start := masks, s, key, 0, 0;
      st := State(0, [], Header(0, 0), key, [], [], false);
    }

    /** recv: some of the bytes that follow, at most `want`; none when it would block. */
    method Recv(want: nat, n: nat) returns (got: seq<nat>)
      requires pos <= |stream|
      modifies this`pos
      ensures old(pos) <= pos <= |stream| && got == stream[old(pos)..pos] && |got| <= want && |got| <= n
      ensures n <= want && n <= |stream| - old(pos) ==> |got| == n
    {
      var k := if n < want then n else want;
      if k > |stream| - pos { k := |stream| - pos; }
      got := stream[pos..pos + k];
      pos := pos + k;
    }

    /** States 1, 2 and 3: that many header bytes are missing. */
    method HeaderRest(n: nat)
      requires Valid() && 1 <= st.phase <= 3 && !st.closed
      modifies this
      ensures Valid() && st.out == old(st.out)
      ensures st.closed <==> old(st.phase) == 3 && pos - old(pos) == 2
    {
      var got := Recv(st.phase, n);
      if got == [] { return; }
      var phase := if |got| == st.phase then 4 else st.phase - |got|;
      JoinHeader(m, stream, key0, st, start, old(pos), pos, phase);
      st := st.(closed := |got| != st.phase && |got| + st.phase > 4, phase := phase, raw := st.raw + got);
    }

    /** State 0, falling through to state 4 when the header comes whole. */
    method HeaderStart(n1: nat, n2: nat, n3: nat)
      requires Valid() && st.phase == 0 && !st.closed
      modifies this
      ensures Valid() && !st.closed && old(st.out) <= st.out
    {
      var got := Recv(HEADER_LEN, n1);
      if got == [] { return; }
      MoreHeader(m, stream, key0, st, start, old(pos), pos, if |got| == 4 then 4 else 4 - |got|);
      st := st.(phase := if |got| == 4 then 4 else 4 - |got|, raw := got);
      if st.phase == 4 { BodyStart(n2, n3); }
    }

    /** State 4: the header is unmasked, once; state 5 is entered before anything can block. */
    method BodyStart(n2: nat, n3: nat)
      requires Valid() && st.phase == 4 && !st.closed
      modifies this
      ensures Valid() && !st.closed && old(st.out) <= st.out && st.phase != 4
    {
      Unmasked(m, stream, key0, st, start, pos);
      st := st.(phase := 5, header := m.unmask(st.raw, st.key), key := m.feedback(st.key), body := []);
      if st.header.len != 0 {
        var got := Recv(st.header.len, n2);
        if got == [] { return; }
        MoreBody(m, stream, key0, st, start, old(pos), pos);
        st := st.(body := st.body + got);
        if |st.body| < st.header.len { return; }
      }
      BodyRest(n3);
    }

    /** State 5: read on, and deliver when the body is complete. */
    method BodyRest(n3: nat)
      requires Valid() && st.phase == 5 && !st.closed
      modifies this
      ensures Valid() && !st.closed && old(st.out) <= st.out && st.phase != 4
      ensures |st.body| < BUFFER_SIZE
    {
      if |st.body| < st.header.len {
        var got := Recv(st.header.len - |st.body|, n3);
        if got == [] { return; }
        MoreBody(m, stream, key0, st, start, old(pos), pos);
        st := st.(body := st.body + got);
        if |st.body| < st.header.len { return; }
      }
      Complete(m, stream, key0, st, start, pos);
      st := st.(phase := 0, body := [], out := st.out + [Message(st.header, st.body)]);
      start := pos;
    }

    /** One readable event, with the sizes of the recv calls it may make.  The connection is given
        up only when a header that came as one byte continues with exactly two. */
    method Turn(n1: nat, n2: nat, n3: nat)
      requires Valid() && !st.closed
      modifies this
      ensures Valid() && old(st.out) <= st.out
      ensures st.closed <==> old(st.phase) == 3 && pos - old(pos) == 2
    {
      if st.phase == 0 {
        HeaderStart(n1, n2, n3);
      } else if st.phase <= 3 {
        HeaderRest(n1);
      } else if st.phase == 4 {
        BodyStart(n2, n3);
      } else {
        BodyRest(n3);
      }
    }

    /** Any number of events with any sizes: the messages delivered are a prefix of the reference
        decoding of the whole stream, and all of it if it was read up to a message's end. */
    method Serve(sizes: seq<(nat, nat, nat)>)
      requires Valid() && !st.closed
      modifies this
      ensures Valid() && st.out <= Frames(m, stream, 0, key0)
      ensures pos == |stream| && st.phase == 0 ==> st.out == Frames(m, stream, 0, key0)
    {
      var i := 0;
      while i < |sizes| && !st.closed
        invariant Valid()
        decreases |sizes| - i
      {
        Turn(sizes[i].0, sizes[i].1, sizes[i].2);
        i := i + 1;
      }
      DeliveredIsPrefix(m, stream, key0, st, start, pos);
      if pos == |stream| && st.phase == 0 { NothingLost(m, stream, key0, st, start); }
    }
  }
}
