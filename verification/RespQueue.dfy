/** The incremental decoder: bytes go in by chunks, values come out one at a time.

    `Greedy` reads a whole byte string at once; the decoder is proved to give what
    `Greedy` gives however the stream is chopped. */
module RespQueue {
  import opened Text
  import opened Resp
  import RespMethods

  /** Every value at the front of a byte string, the bytes left over, and whether
      those start a malformed value. */
  datatype Drained = Drained(values: seq<RespValue>, rest: string, malformed: bool)

  function Greedy(s: string): (d: Drained)
    ensures |d.rest| <= |s|
    decreases |s|
  {
    match Parse(s)
    case Invalid => Drained([], s, true)
    case Incomplete => Drained([], s, false)
    case Ok(v, n) =>
      var d := Greedy(s[n..]);
      Drained([v] + d.values, d.rest, d.malformed)
  }

  function Consumed(s: string): string {
    s[..|s| - |Greedy(s).rest|]
  }

  lemma {:induction false} GreedyStops(s: string)
    ensures var d := Greedy(s);
      d.rest == s[|s| - |d.rest|..] && Parse(d.rest) == if d.malformed then Invalid else Incomplete
    decreases |s|
  {
    hide Parse;
    if Parse(s).Ok? {
      GreedyStops(s[Parse(s).used..]);
    }
  }

  lemma GreedyAtStop(s: string)
    requires !Parse(s).Ok?
    ensures Greedy(s) == Drained([], s, Parse(s).Invalid?)
  {
  }

  lemma GreedyUnfold(s: string)
    ensures !Parse(s).Ok? ==> Greedy(s) == Drained([], s, Parse(s).Invalid?)
    ensures Parse(s).Ok? ==>
      var d := Greedy(s[Parse(s).used..]);
      Greedy(s) == Drained([Parse(s).value] + d.values, d.rest, d.malformed)
  {
  }

  lemma NothingParses()
    ensures Parse("") == Incomplete
  {
  }

  lemma {:induction false} GreedyIsWellFormed(s: string)
    ensures AllWellFormed(Greedy(s).values)
    decreases |s|
  {
    hide Parse, WellFormed;
    if Parse(s).Ok? {
      ParsedIsWellFormed(s);
      GreedyIsWellFormed(s[Parse(s).used..]);
    }
  }

  /** Reading `a` and then carrying its left-over bytes into `b` is reading
      `a + b`; once `a` is malformed, nothing after it is read. */
  lemma {:induction false} GreedyResumes(a: string, b: string)
    ensures Greedy(a + b) == Resume(Greedy(a), b)
    decreases |a|
  {
    hide Parse;
    var d := Greedy(a);
    if Parse(a).Ok? {
      var v, n := Parse(a).value, Parse(a).used;
      ParseExtends(a, b);
      assert (a + b)[n..] == a[n..] + b;
      GreedyResumes(a[n..], b);
      var later, e := Greedy(a[n..]), Greedy(d.rest + b);
      assert ([v] + later.values) + e.values == [v] + (later.values + e.values);
    } else if d.malformed {
      ParseExtends(a, b);
    } else {
      assert d.values == [];
    }
  }

  function Resume(d: Drained, b: string): Drained {
    if d.malformed then Drained(d.values, d.rest + b, true)
    else var e := Greedy(d.rest + b); Drained(d.values + e.values, e.rest, e.malformed)
  }

  /** The consumed bytes alone parse to the same values, with nothing left. */
  lemma {:induction false} GreedyOfConsumed(s: string)
    ensures Greedy(Consumed(s)) == Drained(Greedy(s).values, "", false)
    decreases |s|
  {
    if Parse(s).Ok? {
      hide Parse;
      var v, n := Parse(s).value, Parse(s).used;
      var c, later := Consumed(s), Consumed(s[n..]);
      GreedyOfConsumed(s[n..]);
      ParseTruncates(s);
      ParseExtends(s[..n], later);
      assert c == s[..n] + later;
      assert c[n..] == later;
    }
  }

  /** The wire form of well-formed values reads back as those values. */
  lemma {:induction false} GreedyOfSerialized(vs: seq<RespValue>)
    requires AllWellFormed(vs)
    ensures Greedy(SerializeAll(vs)) == Drained(vs, "", false)
    decreases |vs|
  {
    hide Serialize, SerializeAll, WellFormed, Parse, Greedy;
    SerializeAllUnfold(vs);
    NothingParses();
    GreedyUnfold(SerializeAll(vs));
    if vs != [] {
      var head, tail := Serialize(vs[0]), SerializeAll(vs[1..]);
      RoundTrip(vs[0], tail);
      GreedyOfSerialized(vs[1..]);
      assert (head + tail)[|head|..] == tail;
      assert vs == [vs[0]] + vs[1..];
    }
  }

  // ---- One decoder, as a state machine ----

  datatype Decoder = Decoder(buffer: string, values: seq<RespValue>)

  datatype Popped = Value(value: RespValue) | Nothing | Malformed

  function PushString(q: Decoder, chunk: string): Decoder {
    q.(buffer := q.buffer + chunk)
  }

  /** `PopValue` first parses all it can; then it throws if it met a malformed
      value, and otherwise hands out the oldest parsed value. */
  function PopValue(q: Decoder): (Decoder, Popped) {
    var d := Greedy(q.buffer);
    var values := q.values + d.values;
    if d.malformed then (Decoder(d.rest, values), Malformed)
    else if values == [] then (Decoder(d.rest, []), Nothing)
    else (Decoder(d.rest, values[1..]), Value(values[0]))
  }

  /** `RespValueQueue`, with its buffer and its queue updated in place. */
  class RespValueQueue {
    var buffer: string
    var values: seq<RespValue>
    ghost const owner: int   // the descriptor it serves

    function State(): Decoder
      reads this
    {
      Decoder(buffer, values)
    }

    constructor (ghost owner: int)
      ensures State() == Decoder("", []) && this.owner == owner
    {
      this.owner := owner;
      buffer, values := "", [];
    }

    method Push(chunk: string)
      modifies this
      ensures State() == PushString(old(State()), chunk)
    {
      buffer := buffer + chunk;
    }

    method Pop() returns (r: Popped)
      modifies this
      ensures (State(), r) == PopValue(old(State()))
    {
      hide Parse, Greedy;
      var parsed := RespMethods.FromString(buffer);
      ghost var all := old(values) + Greedy(buffer).values;
      while parsed.Ok?
        invariant parsed == Parse(buffer)
        invariant values + Greedy(buffer).values == all
        invariant Greedy(buffer).rest == Greedy(old(buffer)).rest
        invariant Greedy(buffer).malformed == Greedy(old(buffer)).malformed
        decreases |buffer|
      {
        GreedyUnfold(buffer);
        ghost var d := Greedy(buffer[parsed.used..]);
        assert values + ([parsed.value] + d.values) == (values + [parsed.value]) + d.values;
        values := values + [parsed.value];
        if parsed.used < |buffer| {
          buffer := buffer[parsed.used..];
        } else {
          assert buffer[parsed.used..] == "";
          buffer := "";
        }
        parsed := RespMethods.FromString(buffer);
      }
      GreedyUnfold(buffer);
      assert values + [] == values;
      if parsed.Invalid? {
        return Malformed;
      }
      if values == [] {
        return Nothing;
      }
      r := Value(values[0]);
      values := values[1..];
    }
  }

  // ---- Every run of one decoder ----

  datatype Op = Push(chunk: string) | Pop

  /** A run so far: the decoder, the bytes it was given, those it has consumed, and
      what it returned. */
  datatype Run = Run(q: Decoder, pushed: string, consumed: string,
                     returned: seq<RespValue>, failed: bool)

  const START: Run := Run(Decoder("", []), "", "", [], false)

  function Step(r: Run, op: Op): Run {
    match op
    case Push(chunk) => r.(q := PushString(r.q, chunk), pushed := r.pushed + chunk)
    case Pop =>
      var (q, out) := PopValue(r.q);
      var consumed := r.consumed + Consumed(r.q.buffer);
      match out
      case Value(v) => r.(q := q, consumed := consumed, returned := r.returned + [v])
      case Nothing => r.(q := q, consumed := consumed)
      case Malformed => r.(q := q, consumed := consumed, failed := true)
  }

  function RunAll(ops: seq<Op>): Run {
    if ops == [] then START else Step(RunAll(ops[..|ops| - 1]), ops[|ops| - 1])
  }

  /** What every run keeps: the bytes consumed and the buffer are the bytes pushed,
      and the bytes consumed are exactly the values returned and queued. */
  ghost predicate Faithful(r: Run) {
    && r.pushed == r.consumed + r.q.buffer
    && Greedy(r.consumed) == Drained(r.returned + r.q.values, "", false)
    && (r.failed ==> Parse(r.q.buffer).Invalid?)
  }

  lemma StepFaithful(r: Run, op: Op)
    requires Faithful(r)
    ensures Faithful(Step(r, op))
  {
    hide Parse, Greedy;
    var buffer := r.q.buffer;
    if op.Push? {
      assert r.pushed + op.chunk == r.consumed + (buffer + op.chunk);
      if r.failed {
        ParseExtends(buffer, op.chunk);
      }
    } else {
      var d, more := Greedy(buffer), Consumed(buffer);
      GreedyStops(buffer);
      if r.failed {
        GreedyAtStop(buffer);
      }
      GreedyOfConsumed(buffer);
      GreedyResumes(r.consumed, more);
      assert "" + more == more;
      assert r.pushed == (r.consumed + more) + d.rest;
      PoppedInOrder(r.returned, r.q.values, d.values);
    }
  }

  lemma PoppedInOrder(returned: seq<RespValue>, queued: seq<RespValue>, parsed: seq<RespValue>)
    ensures var all := queued + parsed;
      && (returned + queued) + parsed == returned + all
      && (all != [] ==> returned + all == (returned + [all[0]]) + all[1..])
  {
  }

  lemma {:induction false} RunFaithful(ops: seq<Op>)
    ensures Faithful(RunAll(ops))
  {
    if ops != [] {
      RunFaithful(ops[..|ops| - 1]);
      StepFaithful(RunAll(ops[..|ops| - 1]), ops[|ops| - 1]);
    }
  }

  /** Chunking independence. Whatever the chunks and wherever the pops fall, what
      has been returned is a prefix of the one reading of all the bytes pushed. */
  lemma ChunkingIndependence(ops: seq<Op>)
    ensures var r := RunAll(ops);
      && r.returned + r.q.values <= Greedy(r.pushed).values
      && (Parse(r.q.buffer).Incomplete? ==> r.returned + r.q.values == Greedy(r.pushed).values)
      && (r.failed ==> Greedy(r.pushed).malformed && r.returned + r.q.values == Greedy(r.pushed).values)
  {
    hide Parse;
    var r := RunAll(ops);
    RunFaithful(ops);
    GreedyStops(r.q.buffer);
    GreedyResumes(r.consumed, r.q.buffer);
    assert "" + r.q.buffer == r.q.buffer;
  }

  /** Pop until told there is nothing: exactly the values of the bytes pushed. */
  lemma NothingMeansAll(ops: seq<Op>)
    requires PopValue(RunAll(ops).q).1.Nothing?
    ensures RunAll(ops).returned == Greedy(RunAll(ops).pushed).values
    ensures !Greedy(RunAll(ops).pushed).malformed
  {
    hide Parse;
    var r := RunAll(ops);
    RunFaithful(ops);
    GreedyStops(r.q.buffer);
    GreedyResumes(r.consumed, r.q.buffer);
    assert "" + r.q.buffer == r.q.buffer;
    assert r.returned + [] == r.returned;
  }
}
