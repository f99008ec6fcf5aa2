/** The byte format of a Bitcoin generation transaction, as the coinbaser writes it and as any
    node reads it: little-endian numbers, variable-length integers, outputs, one input. */
module TxFormat {
  import opened Wrappers
  import opened Radix

  type Bytes = seq<nat>

  /** Something read from the front, and what is left. */
  datatype Parsed<+T> = Parsed(value: T, rest: Bytes)

  const U64: nat := 0x1_0000_0000_0000_0000

  // ---- numbers ----

  /** append_bitcoin_varint_hex */
  function Varint(n: nat): Bytes {
    if n < 0xFD then [n]
    else if n <= 0xFFFF then [0xFD] + LE(n, 2)
    else if n <= 0xFFFF_FFFF then [0xFE] + LE(n, 4)
    else [0xFF] + LE(n, 8)
  }

  function TakeNumber(b: Bytes, n: nat, least: nat): Option<Parsed<nat>> {
    if |b| < n + 1 || FromLE(b[1..n + 1]) < least then None else Some(Parsed(FromLE(b[1..n + 1]), b[n + 1..]))
  }

  /** Reads a variable-length integer; one that is longer than needed is refused. */
  function ParseVarint(b: Bytes): Option<Parsed<nat>> {
    if b == [] then None
    else if b[0] < 0xFD then Some(Parsed(b[0], b[1..]))
    else if b[0] == 0xFD then TakeNumber(b, 2, 0xFD)
    else if b[0] == 0xFE then TakeNumber(b, 4, 0x1_0000)
    else TakeNumber(b, 8, 0x1_0000_0000)
  }

  lemma TakeWritten(lead: nat, v: nat, n: nat, least: nat, rest: Bytes)
    requires least <= v < Pow(256, n)
    ensures TakeNumber([lead] + LE(v, n) + rest, n, least) == Some(Parsed(v, rest))
  {
    var b := [lead] + LE(v, n) + rest;
    assert b[1..n + 1] == LE(v, n) && b[n + 1..] == rest;
    LittleEndian(v, n);
  }

  lemma BytePowers()
    ensures Pow(256, 2) == 0x1_0000 && Pow(256, 4) == 0x1_0000_0000 && Pow(256, 8) == U64
  {
  }

  lemma VarintRead(n: nat, rest: Bytes)
    requires n < U64
    ensures ParseVarint(Varint(n) + rest) == Some(Parsed(n, rest))
  {
    BytePowers();
    if n < 0xFD {
      assert ([n] + rest)[1..] == rest;
    } else if n <= 0xFFFF {
      TakeWritten(0xFD, n, 2, 0xFD, rest);
    } else if n <= 0xFFFF_FFFF {
      TakeWritten(0xFE, n, 4, 0x1_0000, rest);
    } else {
      TakeWritten(0xFF, n, 8, 0x1_0000_0000, rest);
    }
  }

  /** A byte string of n bytes. */
  function Take(b: Bytes, n: nat): Option<Parsed<Bytes>> {
    if |b| < n then None else Some(Parsed(b[..n], b[n..]))
  }

  lemma TakeAll(x: Bytes, rest: Bytes)
    ensures Take(x + rest, |x|) == Some(Parsed(x, rest))
  {
  }

  /** A length and that many bytes. */
  function ParseScript(b: Bytes): Option<Parsed<Bytes>> {
    var n := ParseVarint(b);
    if n.None? then None else Take(n.value.rest, n.value.value)
  }

  function ScriptBytes(s: Bytes): Bytes { Varint(|s|) + s }

  lemma ScriptRead(s: Bytes, rest: Bytes)
    requires |s| < U64
    ensures ParseScript(ScriptBytes(s) + rest) == Some(Parsed(s, rest))
  {
    assert ScriptBytes(s) + rest == Varint(|s|) + (s + rest);
    VarintRead(|s|, s + rest);
    TakeAll(s, rest);
  }

  lemma Assoc(a: Bytes, b: Bytes, c: Bytes)
    ensures (a + b) + c == a + (b + c)
  {
  }

  // ---- outputs ----

  datatype Output = Output(value: nat, script: Bytes)

  predicate Writable(o: Output) { o.value < U64 && |o.script| < U64 }

  function OutputBytes(o: Output): Bytes { LE(o.value, 8) + ScriptBytes(o.script) }

  function ParseOutput(b: Bytes): Option<Parsed<Output>> {
    var v := Take(b, 8);
    if v.None? then None
    else
      var s := ParseScript(v.value.rest);
      if s.None? then None else Some(Parsed(Output(FromLE(v.value.value), s.value.value), s.value.rest))
  }

  lemma OutputRead(o: Output, rest: Bytes)
    requires Writable(o)
    ensures ParseOutput(OutputBytes(o) + rest) == Some(Parsed(o, rest))
  {
    assert OutputBytes(o) + rest == LE(o.value, 8) + (ScriptBytes(o.script) + rest);
    TakeAll(LE(o.value, 8), ScriptBytes(o.script) + rest);
    BytePowers();
    LittleEndian(o.value, 8);
    ScriptRead(o.script, rest);
  }

  function OutputsBytes(os: seq<Output>): Bytes {
    if os == [] then [] else OutputBytes(os[0]) + OutputsBytes(os[1..])
  }

  lemma {:induction false} OutputsConcat(a: seq<Output>, b: seq<Output>)
    ensures OutputsBytes(a + b) == OutputsBytes(a) + OutputsBytes(b)
    decreases |a|
  {
    if a == [] {
      assert a + b == b;
    } else {
      OutputsConcat(a[1..], b);
      assert (a + b)[1..] == a[1..] + b && (a + b)[0] == a[0];
      Assoc(OutputBytes(a[0]), OutputsBytes(a[1..]), OutputsBytes(b));
    }
  }

  lemma OneOutput(o: Output)
    ensures OutputsBytes([o]) == OutputBytes(o)
  {
    assert [o][1..] == [];
  }

  function ParseOutputs(b: Bytes, n: nat): Option<Parsed<seq<Output>>> {
    if n == 0 then Some(Parsed([], b))
    else
      var o := ParseOutput(b);
      if o.None? then None
      else
        var os := ParseOutputs(o.value.rest, n - 1);
        if os.None? then None else Some(Parsed([o.value.value] + os.value.value, os.value.rest))
  }

  lemma {:induction false} OutputsRead(os: seq<Output>, rest: Bytes)
    requires forall i | 0 <= i < |os| :: Writable(os[i])
    ensures ParseOutputs(OutputsBytes(os) + rest, |os|) == Some(Parsed(os, rest))
    decreases |os|
  {
    if os == [] {
      assert OutputsBytes(os) + rest == rest;
    } else {
      var o, more := os[0], os[1..];
      assert [o] + more == os;
      OutputsRead(more, rest);
      OutputRead(o, OutputsBytes(more) + rest);
      OneMoreRead(o, OutputsBytes(more) + rest, more, rest);
      Assoc(OutputBytes(o), OutputsBytes(more), rest);
    }
  }

  lemma OneMoreRead(o: Output, b: Bytes, more: seq<Output>, rest: Bytes)
    requires ParseOutput(OutputBytes(o) + b) == Some(Parsed(o, b))
    requires ParseOutputs(b, |more|) == Some(Parsed(more, rest))
    ensures ParseOutputs(OutputBytes(o) + b, |more| + 1) == Some(Parsed([o] + more, rest))
  {
  }

  // ---- the generation transaction ----

  datatype Generation = Generation(version: Bytes, prevout: Bytes, script: Bytes, sequence: Bytes,
                                   outputs: seq<Output>, lockTime: Bytes)

  predicate WellFormed(t: Generation) {
    && |t.version| == 4 && |t.prevout| == 36 && |t.script| < U64 && |t.sequence| == 4 && |t.lockTime| == 4
    && |t.outputs| < U64 && forall i | 0 <= i < |t.outputs| :: Writable(t.outputs[i])
  }

  function TailBytes(t: Generation): Bytes { Varint(|t.outputs|) + OutputsBytes(t.outputs) + t.lockTime }

  function GenerationBytes(t: Generation): Bytes {
    t.version + [1] + t.prevout + ScriptBytes(t.script) + t.sequence + TailBytes(t)
  }

  /** The outputs and the lock time, with nothing after them. */
  function ParseTail(b: Bytes, version: Bytes, prevout: Bytes, script: Bytes, sequence: Bytes): Option<Generation> {
    var n := ParseVarint(b);
    if n.None? then None
    else
      var os := ParseOutputs(n.value.rest, n.value.value);
      if os.None? || |os.value.rest| != 4 then None
      else Some(Generation(version, prevout, script, sequence, os.value.value, os.value.rest))
  }

  /** A transaction with exactly one input and no trailing bytes. */
  function ParseGeneration(b: Bytes): Option<Generation> {
    if |b| < 41 || b[4] != 1 then None
    else
      var script := ParseScript(b[41..]);
      if script.None? || |script.value.rest| < 4 then None
      else
        var rest := script.value.rest;
        ParseTail(rest[4..], b[..4], b[5..41], script.value.value, rest[..4])
  }

  lemma TailRead(t: Generation)
    requires WellFormed(t)
    ensures ParseTail(TailBytes(t), t.version, t.prevout, t.script, t.sequence) == Some(t)
  {
    assert TailBytes(t) == Varint(|t.outputs|) + (OutputsBytes(t.outputs) + t.lockTime);
    VarintRead(|t.outputs|, OutputsBytes(t.outputs) + t.lockTime);
    OutputsRead(t.outputs, t.lockTime);
  }

  /** Any reader gets back what was written. */
  lemma GenerationRead(t: Generation)
    requires WellFormed(t)
    ensures ParseGeneration(GenerationBytes(t)) == Some(t)
  {
    var b, tail := GenerationBytes(t), t.sequence + TailBytes(t);
    assert b[..4] == t.version && b[4] == 1 && b[5..41] == t.prevout;
    assert b[41..] == ScriptBytes(t.script) + tail;
    ScriptRead(t.script, tail);
    assert tail[4..] == TailBytes(t) && tail[..4] == t.sequence;
    TailRead(t);
  }

  // ---- bytes as they are ----

  /** Fifty bitcoins to a script of one byte; and integers at the ends of the short forms. */
  lemma Spelled()
    ensures OutputBytes(Output(5_000_000_000, [0x51])) == [0x00, 0xf2, 0x05, 0x2a, 0x01, 0x00, 0x00, 0x00, 0x01, 0x51]
    ensures Varint(0xFC) == [0xFC] && Varint(0xFD) == [0xFD, 0xFD, 0x00] && Varint(0x1234) == [0xFD, 0x34, 0x12]
  {
    EightBytes(5_000_000_000, 19531250, 76293, 298, 1);
    TwoBytes(0xFD, 0);
    TwoBytes(0x34, 0x12);
  }

  lemma TwoBytes(low: nat, high: nat)
    requires low < 256 && high < 256
    ensures LE(low + 256 * high, 2) == [low, high]
  {
    assert LE(high, 1) == [high] + LE(0, 0);
  }

  lemma EightBytes(a: nat, b: nat, c: nat, d: nat, e: nat)
    requires a / 256 == b && b / 256 == c && c / 256 == d && d / 256 == e && e < 256
    ensures LE(a, 8) == [a % 256, b % 256, c % 256, d % 256, e, 0, 0, 0]
  {
    assert LE(0, 3) == [0, 0, 0];
    assert LE(e, 4) == [e] + LE(0, 3);
    assert LE(d, 5) == [d % 256] + LE(e, 4);
    assert LE(c, 6) == [c % 256] + LE(d, 5);
    assert LE(b, 7) == [b % 256] + LE(c, 6);
  }
}
