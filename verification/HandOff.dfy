/** The first server's hand-off: any number of workers call `HandleConnection` for one
    connection. Each call pushes its chunk under the lock and leaves if another worker
    is at it; the one that is not turned away pops and dispatches until nothing is left.

    Every section under the lock is one step; a dispatch is a step outside it. Nothing
    catches the exception of a malformed value, so the process ends there. */
module HandOff {
  import opened Text
  import opened Resp
  import opened RespQueue

  datatype Worker =
    | Entering(chunk: string)        // before the first locked section
    | Looping                        // holds being_processed, about to pop
    | Dispatching(request: RespValue)  // popped, lock released, in DispatchRequest
    | Gone                           // returned
    | Dead                           // an exception left HandleConnection

  /** Workers stand in the order their chunks left the job queue; `submitted` is those
      chunks in that order, `run` the decoder with all it was given and returned, and
      `dispatched` the requests handled, in order. */
  datatype Connection = Connection(workers: seq<Worker>, beingProcessed: bool, run: Run,
                                   dispatched: seq<RespValue>, submitted: string)

  const FRESH: Connection := Connection([], false, START, [], "")

  datatype Action = Call(chunk: string) | Enter(i: nat) | PopNext(i: nat) | Dispatched(i: nat)

  predicate Can(c: Connection, a: Action) {
    !c.run.failed &&
    match a
    case Call(_) => true
    case Enter(i) => i < |c.workers| && c.workers[i].Entering?
    case PopNext(i) => i < |c.workers| && c.workers[i].Looping?
    case Dispatched(i) => i < |c.workers| && c.workers[i].Dispatching?
  }

  function Do(c: Connection, a: Action): Connection
    requires Can(c, a)
  {
    match a
    case Call(chunk) => c.(workers := c.workers + [Entering(chunk)], submitted := c.submitted + chunk)
    case Enter(i) =>
      var pushed := c.(run := Step(c.run, Push(c.workers[i].chunk)));
      if c.beingProcessed then pushed.(workers := c.workers[i := Gone])
      else pushed.(workers := c.workers[i := Looping], beingProcessed := true)
    case PopNext(i) =>
      var popped := c.(run := Step(c.run, Pop));
      (match PopValue(c.run.q).1
       case Value(v) => popped.(workers := c.workers[i := Dispatching(v)])
       case Nothing => popped.(workers := c.workers[i := Gone], beingProcessed := false)
       case Malformed => popped.(workers := c.workers[i := Dead]))
    case Dispatched(i) =>
      c.(workers := c.workers[i := Looping], dispatched := c.dispatched + [c.workers[i].request])
  }

  predicate AtWork(w: Worker) {
    w.Looping? || w.Dispatching?
  }

  ghost predicate Inv(c: Connection) {
    && Faithful(c.run)
    // at most one worker is at work, and then the flag is set
    && (forall i, j | 0 <= i < j < |c.workers| :: !(AtWork(c.workers[i]) && AtWork(c.workers[j])))
    && (forall i | 0 <= i < |c.workers| && AtWork(c.workers[i]) :: c.beingProcessed && !c.run.failed)
    // the flag is set only by a worker at work or one that died on malformed input
    && (c.beingProcessed && !c.run.failed ==> exists i :: 0 <= i < |c.workers| && AtWork(c.workers[i]))
    && (c.run.failed ==> c.beingProcessed)
    // what was popped is what was dispatched and what is in hand
    && (forall i | 0 <= i < |c.workers| && c.workers[i].Dispatching? ::
          c.run.returned == c.dispatched + [c.workers[i].request])
    && ((forall i | 0 <= i < |c.workers| :: !c.workers[i].Dispatching?) ==> c.run.returned == c.dispatched)
    // with nobody at work, nothing is left to pop
    && (!c.beingProcessed ==> PopValue(c.run.q).1.Nothing?)
  }

  lemma FreshInv()
    ensures Inv(FRESH)
  {
    assert Parse("") == Incomplete;
  }

  lemma CallKeeps(c: Connection, chunk: string)
    requires Inv(c) && Can(c, Call(chunk))
    ensures Inv(Do(c, Call(chunk)))
  {
    hide Faithful, Greedy, PopValue;
    var c' := Do(c, Call(chunk));
    forall i | 0 <= i < |c'.workers| ensures i < |c.workers| ==> c'.workers[i] == c.workers[i] {
    }
    if c.beingProcessed && !c.run.failed {
      var i :| 0 <= i < |c.workers| && AtWork(c.workers[i]);
      assert AtWork(c'.workers[i]);
    }
    if forall i | 0 <= i < |c'.workers| :: !c'.workers[i].Dispatching? {
      assert forall i | 0 <= i < |c.workers| :: c.workers[i] == c'.workers[i];
    }
  }

  lemma EnterKeeps(c: Connection, i: nat)
    requires Inv(c) && Can(c, Enter(i))
    ensures Inv(Do(c, Enter(i)))
  {
    StepFaithful(c.run, Push(c.workers[i].chunk));
    hide Faithful, Greedy, PopValue;
    var c' := Do(c, Enter(i));
    if c.beingProcessed && !c.run.failed {
      var j :| 0 <= j < |c.workers| && AtWork(c.workers[j]);
      assert AtWork(c'.workers[j]);
    } else if !c.beingProcessed {
      assert AtWork(c'.workers[i]);
    }
    if forall j | 0 <= j < |c'.workers| :: !c'.workers[j].Dispatching? {
      assert forall j | 0 <= j < |c.workers| && j != i :: c.workers[j] == c'.workers[j];
    }
  }

  lemma PopKeeps(c: Connection, i: nat)
    requires Inv(c) && Can(c, PopNext(i))
    ensures Inv(Do(c, PopNext(i)))
  {
    StepFaithful(c.run, Pop);
    var c' := Do(c, PopNext(i));
    assert AtWork(c.workers[i]);
    assert forall j | 0 <= j < |c.workers| && j != i :: !AtWork(c.workers[j]);
    assert c.run.returned == c.dispatched;
    if PopValue(c.run.q).1.Nothing? {
      PopTwice(c.run.q);
    }
    hide Faithful, Greedy, PopValue;
    assert PopValue(c.run.q).1.Value? ==> AtWork(c'.workers[i]);
  }

  lemma PopTwice(q: Decoder)
    requires PopValue(q).1.Nothing?
    ensures PopValue(PopValue(q).0).1.Nothing?
  {
    hide Greedy;
    GreedyStops(q.buffer);
    GreedyAtStop(Greedy(q.buffer).rest);
  }

  lemma DispatchedKeeps(c: Connection, i: nat)
    requires Inv(c) && Can(c, Dispatched(i))
    ensures Inv(Do(c, Dispatched(i)))
  {
    hide Faithful, Greedy, PopValue;
    var c' := Do(c, Dispatched(i));
    assert AtWork(c.workers[i]) && AtWork(c'.workers[i]);
    assert forall j | 0 <= j < |c.workers| && j != i :: !AtWork(c.workers[j]);
  }

  ghost predicate Next(c: Connection, c': Connection) {
    exists a :: Can(c, a) && c' == Do(c, a)
  }

  ghost predicate IsRun(run: seq<Connection>) {
    run != [] && run[0] == FRESH && forall j | 0 <= j < |run| - 1 :: Next(run[j], run[j + 1])
  }

  lemma {:induction false} RunInv(run: seq<Connection>, k: nat)
    requires IsRun(run) && k < |run|
    ensures Inv(run[k])
  {
    hide Inv;
    if k == 0 {
      FreshInv();
    } else {
      RunInv(run, k - 1);
      assert Next(run[k - 1], run[k - 1 + 1]);
      var a :| Can(run[k - 1], a) && run[k] == Do(run[k - 1], a);
      match a
      case Call(chunk) => CallKeeps(run[k - 1], chunk);
      case Enter(i) => EnterKeeps(run[k - 1], i);
      case PopNext(i) => PopKeeps(run[k - 1], i);
      case Dispatched(i) => DispatchedKeeps(run[k - 1], i);
    }
  }

  /** In every interleaving of any number of workers: at most one of them dispatches at a
      time; the requests dispatched are, in order, the first values of the chunks in the
      order they were pushed; and whenever the flag is clear they are all of them, with
      no complete request left behind. On well-formed input the flag is set exactly while
      some worker is at work. */
  lemma HandOffIsSerial(run: seq<Connection>, k: nat)
    requires IsRun(run) && k < |run|
    ensures var c := run[k];
      && (forall i, j | 0 <= i < j < |c.workers| :: !(AtWork(c.workers[i]) && AtWork(c.workers[j])))
      && c.dispatched <= Greedy(c.run.pushed).values
      && (!c.beingProcessed ==> c.dispatched == Greedy(c.run.pushed).values && !Greedy(c.run.pushed).malformed)
      && (!Greedy(c.run.pushed).malformed ==>
            (c.beingProcessed <==> exists i :: 0 <= i < |c.workers| && AtWork(c.workers[i])))
  {
    var c := run[k];
    RunInv(run, k);
    hide Greedy, Parse;
    GreedyResumes(c.run.consumed, c.run.q.buffer);
    assert "" + c.run.q.buffer == c.run.q.buffer;
    var all := c.run.returned + c.run.q.values;
    assert c.dispatched <= c.run.returned by {
      if i :| 0 <= i < |c.workers| && c.workers[i].Dispatching? {
      }
    }
    assert c.run.returned <= all && all <= Greedy(c.run.pushed).values;
    if c.run.failed {
      GreedyAtStop(c.run.q.buffer);
    }
    if !c.beingProcessed {
      NobodyAtWork(c);
    }
  }

  lemma NobodyAtWork(c: Connection)
    requires Inv(c) && !c.beingProcessed
    ensures c.run.returned == c.dispatched && c.run.q.values == [] && Greedy(c.run.q.buffer).values == []
    ensures !Greedy(c.run.q.buffer).malformed
  {
    hide Greedy, Faithful;
    forall i | 0 <= i < |c.workers| ensures !c.workers[i].Dispatching? {
      assert !AtWork(c.workers[i]);
    }
  }

  // ---- Submission order ----

  /** The job queue is first in, first out, but the lock is not: two workers can take it
      in the other order, and then the later request is dispatched first. */
  lemma ChunksMayOvertake(v: RespValue, w: RespValue)
    requires WellFormed(v) && WellFormed(w)
    ensures exists run: seq<Connection> ::
      && IsRun(run)
      && var c := run[|run| - 1];
      && c.submitted == Serialize(v) + Serialize(w)
      && c.dispatched == [w, v] && !c.beingProcessed
  {
    hide *;
    var run := Overtaken(Serialize(v), Serialize(w));
    TwoRequests(w, v);
    run := HandleNext(run, 1);
    run := HandleNext(run, 1);
    run := Finish(run, 1);
  }

  /** The second chunk reaches the lock first. */
  lemma Overtaken(x: string, y: string) returns (run: seq<Connection>)
    ensures IsRun(run)
    ensures var c := run[|run| - 1];
      && c.workers == [Gone, Looping] && c.beingProcessed && c.dispatched == []
      && c.submitted == x + y && c.run.q == Decoder(y + x, []) && !c.run.failed
  {
    hide PopValue, Greedy, Consumed;
    run := Extend([FRESH], Call(x));
    run := Extend(run, Call(y));
    run := Extend(run, Enter(1));
    run := Extend(run, Enter(0));
  }

  lemma Extend(run: seq<Connection>, a: Action) returns (longer: seq<Connection>)
    requires IsRun(run) && Can(run[|run| - 1], a)
    ensures IsRun(longer) && longer[|longer| - 1] == Do(run[|run| - 1], a)
  {
    longer := run + [Do(run[|run| - 1], a)];
    forall j | 0 <= j < |longer| - 1 ensures Next(longer[j], longer[j + 1]) {
      if j < |run| - 1 {
        assert Next(run[j], run[j + 1]);
      }
    }
  }

  /** A looping worker pops a request and dispatches it. */
  lemma HandleNext(run: seq<Connection>, i: nat) returns (longer: seq<Connection>)
    requires IsRun(run)
    requires var c := run[|run| - 1];
      i < |c.workers| && c.workers[i].Looping? && !c.run.failed && PopValue(c.run.q).1.Value?
    ensures IsRun(longer)
    ensures var c, c' := run[|run| - 1], longer[|longer| - 1];
      && c'.workers == c.workers && c'.beingProcessed == c.beingProcessed
      && c'.submitted == c.submitted && !c'.run.failed && c'.run.q == PopValue(c.run.q).0
      && c'.dispatched == c.dispatched + [PopValue(c.run.q).1.value]
  {
    hide PopValue, Consumed, IsRun;
    longer := Extend(run, PopNext(i));
    longer := Extend(longer, Dispatched(i));
  }

  /** A looping worker finds nothing and leaves. */
  lemma Finish(run: seq<Connection>, i: nat) returns (longer: seq<Connection>)
    requires IsRun(run)
    requires var c := run[|run| - 1];
      i < |c.workers| && c.workers[i].Looping? && !c.run.failed && PopValue(c.run.q).1.Nothing?
    ensures IsRun(longer)
    ensures var c, c' := run[|run| - 1], longer[|longer| - 1];
      !c'.beingProcessed && c'.submitted == c.submitted && c'.dispatched == c.dispatched
  {
    hide PopValue, Consumed, IsRun;
    longer := Extend(run, PopNext(i));
  }

  lemma TwoRequests(v: RespValue, w: RespValue)
    requires WellFormed(v) && WellFormed(w)
    ensures PopValue(Decoder(Serialize(v) + Serialize(w), [])) == (Decoder("", [w]), Value(v))
    ensures PopValue(Decoder("", [w])) == (Decoder("", []), Value(w))
    ensures PopValue(Decoder("", [])) == (Decoder("", []), Nothing)
  {
    hide Parse, Greedy, Serialize, WellFormed;
    assert [v, w][1..] == [w] && [w][1..] == [];
    assert SerializeAll([w]) == Serialize(w);
    assert SerializeAll([v, w]) == Serialize(v) + Serialize(w);
    assert [] + [v, w] == [v, w] && [] + [w] == [w] && [w] + [] == [w];
    GreedyOfSerialized([v, w]);
    GreedyOfSerialized([]);
  }

  /** The chunks on their way to the lock, in the order they left the job queue. */
  function Pending(workers: seq<Worker>): string {
    if workers == [] then ""
    else Pending(workers[..|workers| - 1]) + PendingOf(workers[|workers| - 1])
  }

  function PendingOf(w: Worker): string {
    if w.Entering? then w.chunk else ""
  }

  /** What has been pushed is what was submitted, up to the chunks still on their way. */
  predicate InOrder(c: Connection) {
    c.submitted == c.run.pushed + Pending(c.workers)
  }

  /** Worker `i` does not overtake, or those it overtakes would have spelt the same. */
  predicate InTurn(c: Connection, i: nat)
    requires i < |c.workers| && c.workers[i].Entering?
  {
    var ahead, chunk := Pending(c.workers[..i]), c.workers[i].chunk;
    chunk + ahead == ahead + chunk
  }

  lemma {:induction false} PendingSplits(workers: seq<Worker>, i: nat)
    requires i < |workers|
    ensures Pending(workers) == Pending(workers[..i]) + (PendingOf(workers[i]) + Pending(workers[i + 1..]))
    decreases |workers|
  {
    hide Pending, PendingOf;
    var n := |workers| - 1;
    PendingLast(workers);
    if i == n {
      assert workers[i + 1..] == [];
      PendingNone();
      assert PendingOf(workers[i]) + "" == PendingOf(workers[i]);
    } else {
      PendingSplits(workers[..n], i);
      PendingLast(workers[i + 1..]);
      assert workers[..n][..i] == workers[..i] && workers[..n][i + 1..] == workers[i + 1..n];
      assert workers[i + 1..][..n - i - 1] == workers[i + 1..n];
      Regroup(Pending(workers[..i]), PendingOf(workers[i]), Pending(workers[i + 1..n]), PendingOf(workers[n]));
    }
  }

  lemma PendingLast(workers: seq<Worker>)
    requires workers != []
    ensures Pending(workers) == Pending(workers[..|workers| - 1]) + PendingOf(workers[|workers| - 1])
  {
  }

  lemma Regroup(a: string, b: string, c: string, d: string)
    ensures (a + (b + c)) + d == a + (b + (c + d))
  {
  }

  /** The waiting chunks once worker `i` has become `w`. */
  lemma PendingUpdate(workers: seq<Worker>, i: nat, w: Worker)
    requires i < |workers|
    ensures Pending(workers[i := w])
         == Pending(workers[..i]) + (PendingOf(w) + Pending(workers[i + 1..]))
  {
    PendingSplits(workers[i := w], i);
    assert workers[i := w][..i] == workers[..i] && workers[i := w][i + 1..] == workers[i + 1..];
  }

  lemma Cancel(pre: string, x: string, p: string, rest: string)
    ensures pre + (p + (x + rest)) == (pre + x) + (p + rest) <==> x + p == p + x
  {
    assert pre + (p + (x + rest)) == pre + (p + x) + rest;
    assert (pre + x) + (p + rest) == pre + (x + p) + rest;
    var a, b := pre + (p + x) + rest, pre + (x + p) + rest;
    var n := |pre|;
    assert a[n..n + |p + x|] == p + x && b[n..n + |x + p|] == x + p;
  }

  /** Taking the lock keeps submission order if and only if the worker is in turn. */
  lemma EnterKeepsOrderExactly(c: Connection, i: nat)
    requires Can(c, Enter(i)) && InOrder(c)
    ensures InOrder(Do(c, Enter(i))) <==> InTurn(c, i)
  {
    hide Pending;
    var c', x := Do(c, Enter(i)), c.workers[i].chunk;
    var ahead, behind := Pending(c.workers[..i]), Pending(c.workers[i + 1..]);
    PendingSplits(c.workers, i);
    PendingUpdate(c.workers, i, c'.workers[i]);
    assert c'.workers == c.workers[i := c'.workers[i]];
    assert "" + behind == behind;
    Cancel(c.run.pushed, x, ahead, behind);
  }

  /** No other step touches it. */
  lemma OthersKeepOrder(c: Connection, a: Action)
    requires Can(c, a) && !a.Enter? && InOrder(c)
    ensures InOrder(Do(c, a))
  {
    hide Pending, Greedy, Parse;
    var c' := Do(c, a);
    if a.Call? {
      PendingSplits(c'.workers, |c.workers|);
      assert c'.workers[..|c.workers|] == c.workers && c'.workers[|c.workers| + 1..] == [];
      PendingNone();
      assert a.chunk + "" == a.chunk;
      assert (c.run.pushed + Pending(c.workers)) + a.chunk == c.run.pushed + (Pending(c.workers) + a.chunk);
    } else {
      PendingSplits(c.workers, a.i);
      PendingUpdate(c.workers, a.i, c'.workers[a.i]);
      assert c'.workers == c.workers[a.i := c'.workers[a.i]];
    }
  }

  lemma PendingNone()
    ensures Pending([]) == ""
  {
  }

  /** A step in which nobody takes the lock out of turn. */
  ghost predicate OrderlyNext(c: Connection, c': Connection) {
    exists a :: Can(c, a) && c' == Do(c, a) && (a.Enter? ==> InTurn(c, a.i))
  }

  /** A run keeps submission order throughout if and only if every worker takes the lock
      in turn. */
  lemma SubmissionOrderExactly(run: seq<Connection>)
    requires IsRun(run)
    ensures (forall k | 0 <= k < |run| :: InOrder(run[k])) <==>
            (forall j | 0 <= j < |run| - 1 :: OrderlyNext(run[j], run[j + 1]))
  {
    hide InOrder, InTurn, Do, Can;
    if forall j | 0 <= j < |run| - 1 :: OrderlyNext(run[j], run[j + 1]) {
      forall k: nat | k < |run| ensures InOrder(run[k]) {
        OrderlyRun(run, k);
      }
    }
    if forall k | 0 <= k < |run| :: InOrder(run[k]) {
      forall j | 0 <= j < |run| - 1 ensures OrderlyNext(run[j], run[j + 1]) {
        assert Next(run[j], run[j + 1]);
        var a :| Can(run[j], a) && run[j + 1] == Do(run[j], a);
        if a.Enter? {
          EnterKeepsOrderExactly(run[j], a.i);
        }
      }
    }
  }

  lemma {:induction false} OrderlyRun(run: seq<Connection>, k: nat)
    requires IsRun(run) && k < |run| && forall j | 0 <= j < |run| - 1 :: OrderlyNext(run[j], run[j + 1])
    ensures InOrder(run[k])
  {
    if k == 0 {
      assert "" + "" == "";
    } else {
      OrderlyRun(run, k - 1);
      hide InOrder, InTurn, Do, Can;
      assert OrderlyNext(run[k - 1], run[k - 1 + 1]);
      var a :| Can(run[k - 1], a) && run[k] == Do(run[k - 1], a) && (a.Enter? ==> InTurn(run[k - 1], a.i));
      if a.Enter? {
        EnterKeepsOrderExactly(run[k - 1], a.i);
      } else {
        OthersKeepOrder(run[k - 1], a);
      }
    }
  }

  /** In such a run requests are dispatched in the order in which they were submitted, and
      all of them once the connection is idle and no chunk is on its way. */
  lemma OrderlyRunsDispatchInOrder(run: seq<Connection>, k: nat)
    requires IsRun(run) && k < |run| && forall j | 0 <= j < |run| - 1 :: OrderlyNext(run[j], run[j + 1])
    ensures var c := run[k];
      && c.dispatched <= Greedy(c.submitted).values
      && (Pending(c.workers) == "" && !c.beingProcessed ==> c.dispatched == Greedy(c.submitted).values)
  {
    var c := run[k];
    OrderlyRun(run, k);
    HandOffIsSerial(run, k);
    hide Greedy, Parse, IsRun, Pending, OrderlyNext;
    GreedyResumes(c.run.pushed, Pending(c.workers));
    assert c.run.pushed + "" == c.run.pushed;
  }
}
