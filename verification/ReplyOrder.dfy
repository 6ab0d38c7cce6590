/** Every step of the pipeline keeps `Channels.Inv`: each client gets the replies
    to its own commands, in order, and nothing else. */
module ReplyOrder {
  import opened Text
  import opened Resp
  import opened RespQueue
  import opened Channels

  // ---- Filters and sums over a longer sequence ----

  lemma {:induction false} OutOfAppend(ms: seq<OutMsg>, m: OutMsg, fd: int)
    ensures OutOf(ms + [m], fd) == if m.fd == fd then OutOf(ms, fd) + [m] else OutOf(ms, fd)
  {
    hide OutOf;
    OutOfFirst(ms + [m], fd);
    OutOfNone(fd);
    if ms == [] {
      assert (ms + [m])[1..] == [];
    } else {
      OutOfFirst(ms, fd);
      assert (ms + [m])[0] == ms[0] && (ms + [m])[1..] == ms[1..] + [m];
      OutOfAppend(ms[1..], m, fd);
      var rest := OutOf(ms[1..], fd);
      assert [ms[0]] + (rest + [m]) == ([ms[0]] + rest) + [m];
    }
  }

  lemma {:induction false} InOfAppend(ms: seq<InMsg>, m: InMsg, fd: int)
    ensures InOf(ms + [m], fd) == if m.fd == fd then InOf(ms, fd) + [m] else InOf(ms, fd)
  {
    hide InOf;
    InOfFirst(ms + [m], fd);
    InOfNone(fd);
    if ms == [] {
      assert (ms + [m])[1..] == [];
    } else {
      InOfFirst(ms, fd);
      assert (ms + [m])[0] == ms[0] && (ms + [m])[1..] == ms[1..] + [m];
      InOfAppend(ms[1..], m, fd);
      var rest := InOf(ms[1..], fd);
      assert [ms[0]] + (rest + [m]) == ([ms[0]] + rest) + [m];
    }
  }

  lemma OutOfNone(fd: int)
    ensures OutOf([], fd) == []
  {
  }

  lemma InOfNone(fd: int)
    ensures InOf([], fd) == []
  {
  }

  /** The requests of one message, and the bytes of one. */
  function Asked(m: OutMsg): seq<RespValue> {
    if m.Batch? then m.requests else []
  }

  function BytesOf(m: InMsg): string {
    if m.Write? then m.bytes else ""
  }

  lemma QueuedUnfold(ms: seq<OutMsg>)
    ensures Queued(ms) == if ms == [] then [] else Asked(ms[0]) + Queued(ms[1..])
  {
  }

  lemma BytesUnfold(ms: seq<InMsg>)
    ensures Bytes(ms) == if ms == [] then "" else BytesOf(ms[0]) + Bytes(ms[1..])
  {
  }

  lemma RepliesUnfold(log: seq<Executed>)
    ensures Replies(log) == if log == [] then "" else log[0].reply + Replies(log[1..])
  {
  }

  lemma {:induction false} QueuedJoin(a: seq<OutMsg>, b: seq<OutMsg>)
    ensures Queued(a + b) == Queued(a) + Queued(b)
  {
    hide Queued, Asked;
    QueuedUnfold(a);
    if a == [] {
      assert a + b == b;
    } else {
      QueuedUnfold(a + b);
      assert (a + b)[0] == a[0] && (a + b)[1..] == a[1..] + b;
      QueuedJoin(a[1..], b);
      Associative(Asked(a[0]), Queued(a[1..]), Queued(b));
    }
  }

  lemma {:induction false} BytesJoin(a: seq<InMsg>, b: seq<InMsg>)
    ensures Bytes(a + b) == Bytes(a) + Bytes(b)
  {
    hide Bytes, BytesOf;
    BytesUnfold(a);
    if a == [] {
      assert a + b == b;
    } else {
      BytesUnfold(a + b);
      assert (a + b)[0] == a[0] && (a + b)[1..] == a[1..] + b;
      BytesJoin(a[1..], b);
      Associative(BytesOf(a[0]), Bytes(a[1..]), Bytes(b));
    }
  }

  lemma {:induction false} RepliesAppend(a: seq<Executed>, b: seq<Executed>)
    ensures Replies(a + b) == Replies(a) + Replies(b)
  {
    hide Replies;
    RepliesUnfold(a);
    if a == [] {
      assert a + b == b;
    } else {
      RepliesUnfold(a + b);
      assert (a + b)[0] == a[0] && (a + b)[1..] == a[1..] + b;
      RepliesAppend(a[1..], b);
      Associative(a[0].reply, Replies(a[1..]), Replies(b));
    }
  }

  lemma Associative<T>(x: seq<T>, y: seq<T>, z: seq<T>)
    ensures (x + y) + z == x + (y + z)
  {
  }

  lemma QueuedAppend(ms: seq<OutMsg>, m: OutMsg)
    ensures Queued(ms + [m]) == Queued(ms) + Asked(m)
  {
    QueuedJoin(ms, [m]);
    assert Queued([m]) == Asked(m) + Queued([m][1..]);
    assert [m][1..] == [] && Asked(m) + [] == Asked(m);
  }

  lemma BytesAppend(ms: seq<InMsg>, m: InMsg)
    ensures Bytes(ms + [m]) == Bytes(ms) + BytesOf(m)
  {
    BytesJoin(ms, [m]);
    assert Bytes([m]) == BytesOf(m) + Bytes([m][1..]);
    assert [m][1..] == [] && BytesOf(m) + "" == BytesOf(m);
  }

  /** Entries of one connection pass that connection's filter whole, and no other's. */
  lemma {:induction false} OfFdOwn(entries: seq<Executed>, owner: int, fd: int)
    requires forall k | 0 <= k < |entries| :: entries[k].fd == owner
    ensures OfFd(entries, fd) == if fd == owner then entries else []
  {
    if entries != [] {
      OfFdOwn(entries[1..], owner, fd);
      assert entries == [entries[0]] + entries[1..];
    }
  }

  lemma {:induction false} OfFdAppend(a: seq<Executed>, b: seq<Executed>, fd: int)
    ensures OfFd(a + b, fd) == OfFd(a, fd) + OfFd(b, fd)
  {
    hide OfFd, Mine;
    OfFdUnfold(a, fd);
    if a == [] {
      assert a + b == b;
    } else {
      OfFdUnfold(a + b, fd);
      assert (a + b)[0] == a[0] && (a + b)[1..] == a[1..] + b;
      OfFdAppend(a[1..], b, fd);
      Associative(Mine(a[0], fd), OfFd(a[1..], fd), OfFd(b, fd));
    }
  }

  /** The entry, if it is of that connection. */
  function Mine(e: Executed, fd: int): seq<Executed> {
    if e.fd == fd then [e] else []
  }

  lemma OfFdUnfold(log: seq<Executed>, fd: int)
    ensures OfFd(log, fd) == if log == [] then [] else Mine(log[0], fd) + OfFd(log[1..], fd)
  {
  }


  // ---- Executing a batch ----

  lemma {:induction false} RunBatchFacts<S(!new)>(exec: Executor<S>, store: S, fd: int,
                                                  nows: seq<int>, requests: seq<RespValue>)
    requires |nows| == |requests|
    ensures var (store', entries) := RunBatch(exec, store, fd, nows, requests);
      && Requests(entries) == requests
      && (forall k | 0 <= k < |entries| :: entries[k].fd == fd)
      && |entries| == |nows| && (forall k | 0 <= k < |entries| :: entries[k].now == nows[k])
      && Serial(exec, store, entries, store')
    decreases |requests|
  {
    if requests != [] {
      var (mid, reply) := exec(store, nows[0], requests[0]);
      RunBatchFacts(exec, mid, fd, nows[1..], requests[1..]);
      var (last, rest) := RunBatch(exec, mid, fd, nows[1..], requests[1..]);
      var entries := [Executed(fd, nows[0], requests[0], reply)] + rest;
      assert entries[1..] == rest;
      assert Requests(entries) == [requests[0]] + Requests(rest);
      assert requests == [requests[0]] + requests[1..];
    }
  }

  lemma {:induction false} SerialAppend<S(!new)>(exec: Executor<S>, first: S, a: seq<Executed>, mid: S,
                                                 b: seq<Executed>, last: S)
    requires Serial(exec, first, a, mid) && Serial(exec, mid, b, last)
    ensures Serial(exec, first, a + b, last)
    decreases |a|
  {
    if a == [] {
      assert a + b == b;
    } else {
      var (next, reply) := exec(first, a[0].now, a[0].request);
      SerialAppend(exec, next, a[1..], mid, b, last);
      assert (a + b)[1..] == a[1..] + b;
    }
  }

  // ---- Steps of an IO thread ----

  /** `t'` differs from `t` for no connection but `fd`. */
  ghost predicate Untouched(t: Thread, t': Thread, fd: int) {
    forall f: int | f != fd ::
      && OutOf(t'.outbox, f) == OutOf(t.outbox, f)
      && InOf(t'.inbox, f) == InOf(t.inbox, f)
      && (f in t'.conns <==> f in t.conns)
      && (f in t.conns ==> t'.conns[f] == t.conns[f])
  }

  lemma OneThread<S(!new)>(exec: Executor<S>, first: S, s: State<S>, i: nat, t': Thread, fd: int)
    requires Inv(exec, first, s) && i < |s.threads|
    requires Untouched(s.threads[i], t', fd)
    requires Consistent(t', fd, Here(s, i, fd), Served(s, fd)) && Readable(t'.outbox)
    ensures Inv(exec, first, s.(threads := s.threads[i := t']))
  {
    hide Greedy, OutOf, InOf, OfFd, Readable, AllWellFormed, Requests;
    var s' := s.(threads := s.threads[i := t']);
    forall j: nat, f: int | j < |s'.threads| ensures Good(s', j, f) {
      assert Good(s, j, f);
      assert Served(s', f) == Served(s, f) && Here(s', j, f) == Here(s, j, f);
      if j == i && f != fd {
        assert OutOf(t'.outbox, f) == OutOf(s.threads[i].outbox, f);
      }
    }
  }

  lemma ReadableMore(ms: seq<OutMsg>, m: OutMsg)
    requires Readable(ms) && (m.Batch? ==> AllWellFormed(m.requests))
    ensures Readable(ms + [m])
  {
    hide AllWellFormed;
  }

  lemma CloseReadable(t: Thread, fd: int)
    requires Readable(t.outbox)
    ensures Readable(CloseConn(t, fd).outbox)
  {
    ReadableMore(t.outbox, Disconnect(fd));
  }

  lemma ReadReadable(t: Thread, fd: int, chunk: string)
    requires Readable(t.outbox)
    ensures Readable(Read(t, fd, chunk).outbox)
  {
    hide Greedy, Readable, AllWellFormed;
    CloseReadable(t, fd);
    if fd in t.conns {
      var bytes := t.conns[fd].buffer + chunk;
      GreedyIsWellFormed(bytes);
      ReadableMore(t.outbox, Batch(fd, Greedy(bytes).values));
    }
  }

  lemma CloseUntouched(t: Thread, fd: int)
    ensures Untouched(t, CloseConn(t, fd), fd)
    ensures OutOf(CloseConn(t, fd).outbox, fd)
         == if fd in t.conns then OutOf(t.outbox, fd) + [Disconnect(fd)] else OutOf(t.outbox, fd)
  {
    forall f: int ensures fd in t.conns ==>
      OutOf(t.outbox + [Disconnect(fd)], f)
      == if f == fd then OutOf(t.outbox, f) + [Disconnect(fd)] else OutOf(t.outbox, f)
    {
      OutOfAppend(t.outbox, Disconnect(fd), f);
    }
  }

  lemma CloseConsistent(t: Thread, fd: int, here: bool, served: seq<Executed>)
    requires Consistent(t, fd, here, served)
    ensures Untouched(t, CloseConn(t, fd), fd) && Consistent(CloseConn(t, fd), fd, here, served)
  {
    hide Greedy, OutOf, InOf;
    CloseUntouched(t, fd);
  }

  lemma CloseKeeps<S(!new)>(exec: Executor<S>, first: S, s: State<S>, i: nat, fd: int)
    requires Inv(exec, first, s) && i < |s.threads|
    ensures Inv(exec, first, s.(threads := s.threads[i := CloseConn(s.threads[i], fd)]))
  {
    hide Greedy, OutOf, InOf, OfFd;
    var t := s.threads[i];
    assert Good(s, i, fd);
    CloseConsistent(t, fd, Here(s, i, fd), Served(s, fd));
    CloseReadable(t, fd);
    OneThread(exec, first, s, i, CloseConn(t, fd), fd);
  }

  lemma FlushConsistent(t: Thread, fd: int, flush: Flush, here: bool, served: seq<Executed>)
    requires fd in t.conns && CanFlush(t.conns[fd], flush)
    requires Consistent(t, fd, here, served)
    ensures Untouched(t, FlushConn(t, fd, flush), fd)
    ensures Consistent(FlushConn(t, fd, flush), fd, here, served)
  {
    hide Greedy, OutOf, InOf;
    CloseConsistent(t, fd, here, served);
    if flush.Sent? {
      var c := t.conns[fd];
      assert (c.sent + c.out[..flush.n]) + c.out[flush.n..] == c.sent + c.out;
    }
  }

  lemma FlushKeeps<S(!new)>(exec: Executor<S>, first: S, s: State<S>, i: nat, fd: int, flush: Flush)
    requires Inv(exec, first, s) && i < |s.threads|
    requires fd in s.threads[i].conns && CanFlush(s.threads[i].conns[fd], flush)
    ensures Inv(exec, first, s.(threads := s.threads[i := FlushConn(s.threads[i], fd, flush)]))
  {
    hide Greedy, OutOf, InOf, OfFd;
    assert Good(s, i, fd);
    FlushConsistent(s.threads[i], fd, flush, Here(s, i, fd), Served(s, fd));
    CloseReadable(s.threads[i], fd);
    OneThread(exec, first, s, i, FlushConn(s.threads[i], fd, flush), fd);
  }

  lemma ReadKeeps<S(!new)>(exec: Executor<S>, first: S, s: State<S>, i: nat, fd: int, chunk: string)
    requires Inv(exec, first, s) && i < |s.threads|
    ensures Inv(exec, first, s.(threads := s.threads[i := Read(s.threads[i], fd, chunk)]))
  {
    hide Greedy, OutOf, InOf, OfFd;
    assert Good(s, i, fd);
    ReadConsistent(s.threads[i], fd, chunk, Here(s, i, fd), Served(s, fd));
    ReadReadable(s.threads[i], fd, chunk);
    OneThread(exec, first, s, i, Read(s.threads[i], fd, chunk), fd);
  }

  lemma ReadConsistent(t: Thread, fd: int, chunk: string, here: bool, served: seq<Executed>)
    requires Consistent(t, fd, here, served)
    ensures Untouched(t, Read(t, fd, chunk), fd) && Consistent(Read(t, fd, chunk), fd, here, served)
  {
    hide Greedy, OutOf, InOf, Live;
    if fd in t.conns {
      var c := t.conns[fd];
      var d := Greedy(c.buffer + chunk);
      if d.malformed {
        CloseConsistent(t, fd, here, served);
      } else {
        var m := Batch(fd, d.values);
        forall f: int ensures OutOf(t.outbox + [m], f) ==
          if f == fd then OutOf(t.outbox, f) + [m] else OutOf(t.outbox, f)
        {
          OutOfAppend(t.outbox, m, f);
        }
        LiveReads(c, OutOf(t.outbox, fd), InOf(t.inbox, fd), served, fd, chunk);
      }
    }
  }

  lemma LiveReads(c: Conn, outs: seq<OutMsg>, ins: seq<InMsg>, served: seq<Executed>, fd: int, chunk: string)
    requires Live(c, outs, ins, served) && !Greedy(c.buffer + chunk).malformed
    ensures var d := Greedy(c.buffer + chunk);
      Live(c.(buffer := d.rest, received := c.received + chunk),
           if d.values == [] then outs else outs + [Batch(fd, d.values)], ins, served)
  {
    hide Greedy;
    var d := Greedy(c.buffer + chunk);
    GreedyResumes(c.received, chunk);
    QueuedAppend(outs, Batch(fd, d.values));
    assert (Requests(served) + Queued(outs)) + d.values == Requests(served) + (Queued(outs) + d.values);
    if d.values == [] {
      assert Queued(outs) + d.values == Queued(outs);
    }
  }

  /** Taking the oldest message of its inbox and handling it. */
  lemma DeliverKeeps<S(!new)>(exec: Executor<S>, first: S, s: State<S>, i: nat, flush: Flush)
    requires Inv(exec, first, s) && i < |s.threads| && s.threads[i].inbox != []
    requires CanHandle(s.threads[i], s.threads[i].inbox[0], flush)
    ensures var t := s.threads[i];
      Inv(exec, first, s.(threads :=
        s.threads[i := Handle(t.(inbox := t.inbox[1..]), t.inbox[0], flush)]))
  {
    hide Greedy, OutOf, InOf, OfFd;
    var t := s.threads[i];
    assert Good(s, i, t.inbox[0].fd);
    HandleReadable(t.(inbox := t.inbox[1..]), t.inbox[0], flush);
    DeliverConsistent(t, flush, Here(s, i, t.inbox[0].fd), Served(s, t.inbox[0].fd));
    OneThread(exec, first, s, i, Handle(t.(inbox := t.inbox[1..]), t.inbox[0], flush), t.inbox[0].fd);
  }

  lemma HandleReadable(t: Thread, m: InMsg, flush: Flush)
    requires Readable(t.outbox) && CanHandle(t, m, flush)
    ensures Readable(Handle(t, m, flush).outbox)
  {
    ReadableMore(t.outbox, Disconnect(m.fd));
  }

  lemma DeliverConsistent(t: Thread, flush: Flush, here: bool, served: seq<Executed>)
    requires t.inbox != [] && CanHandle(t, t.inbox[0], flush)
    requires Consistent(t, t.inbox[0].fd, here, served)
    ensures var t' := Handle(t.(inbox := t.inbox[1..]), t.inbox[0], flush);
      Untouched(t, t', t.inbox[0].fd) && Consistent(t', t.inbox[0].fd, here, served)
  {
    hide Greedy, OutOf, InOf, Live, Bytes;
    var m := t.inbox[0];
    var rest := t.(inbox := t.inbox[1..]);
    var ins, outs := InOf(t.inbox, m.fd), OutOf(t.outbox, m.fd);
    InOfFirst(t.inbox, m.fd);
    forall f: int ensures f != m.fd ==> InOf(rest.inbox, f) == InOf(t.inbox, f) {
      InOfFirst(t.inbox, f);
    }
    assert ins[0] == m && ins[1..] == InOf(rest.inbox, m.fd);
    if m.Assign? {
      AssignConsistent(t, ins, outs, here, served);
    } else if m.fd in t.conns {
      WriteConsistent(rest, m, flush, here, served, ins);
    } else if here && Arriving(outs, ins, served) {
      StillArriving(outs, ins, served);
    }
  }

  /** The assignment of a connection is the last thing waiting for it. */
  lemma AssignConsistent(t: Thread, ins: seq<InMsg>, outs: seq<OutMsg>, here: bool, served: seq<Executed>)
    requires t.inbox != [] && t.inbox[0].Assign?
    requires ins == InOf(t.inbox, t.inbox[0].fd) && outs == OutOf(t.outbox, t.inbox[0].fd)
    requires ins != [] && ins[0] == t.inbox[0] && Consistent(t, t.inbox[0].fd, here, served)
    ensures here && t.inbox[0].fd !in t.conns && ins[1..] == [] && Live(FRESH, outs, [], served)
  {
    hide Greedy, OutOf, InOf, Queued, Bytes, Replies, Requests;
    assert Arriving(outs, ins, served);
    if |ins| > 1 {
      FirstIsWrite(ins);
    }
    ArrivalIsLive(outs, ins, served);
  }

  lemma WriteConsistent(rest: Thread, m: InMsg, flush: Flush, here: bool, served: seq<Executed>, ins: seq<InMsg>)
    requires m.Write? && m.fd in rest.conns && CanHandle(rest, m, flush)
    requires ins == [m] + InOf(rest.inbox, m.fd)
    requires here && Live(rest.conns[m.fd], OutOf(rest.outbox, m.fd), ins, served)
    ensures var t' := Handle(rest, m, flush);
      Untouched(rest, t', m.fd) && Consistent(t', m.fd, here, served)
  {
    hide Greedy, OutOf, InOf, Queued, Bytes, Replies, Requests;
    var c := rest.conns[m.fd];
    var grown := rest.(conns := rest.conns[m.fd := c.(out := c.out + m.bytes)]);
    var later := InOf(rest.inbox, m.fd);
    BytesUnfold(ins);
    assert ins[1..] == later;
    assert c.sent + c.out + (m.bytes + Bytes(later)) == c.sent + (c.out + m.bytes) + Bytes(later);
    assert OnlyWrites(later) by {
      assert forall i | 0 <= i < |later| :: later[i] == ins[i + 1];
    }
    assert Consistent(grown, m.fd, here, served);
    FlushConsistent(grown, m.fd, flush, here, served);
  }

  lemma StillArriving(outs: seq<OutMsg>, ins: seq<InMsg>, served: seq<Executed>)
    requires Arriving(outs, ins, served) && ins[0].Write?
    ensures Arriving(outs, ins[1..], served)
  {
    var ins' := ins[1..];
    assert |ins| > 1;
    assert ins'[|ins'| - 1] == ins[|ins| - 1];
    assert ins'[..|ins'| - 1] == ins[..|ins| - 1][1..];
  }

  lemma InOfFirst(ms: seq<InMsg>, fd: int)
    requires ms != []
    ensures InOf(ms, fd) == if ms[0].fd == fd then [ms[0]] + InOf(ms[1..], fd) else InOf(ms[1..], fd)
  {
  }

  lemma OutOfFirst(ms: seq<OutMsg>, fd: int)
    requires ms != []
    ensures OutOf(ms, fd) == if ms[0].fd == fd then [ms[0]] + OutOf(ms[1..], fd) else OutOf(ms[1..], fd)
  {
  }

  lemma FirstIsWrite(ins: seq<InMsg>)
    requires |ins| > 1 && OnlyWrites(ins[..|ins| - 1])
    ensures ins[0].Write?
  {
    assert ins[..|ins| - 1][0] == ins[0];
  }

  lemma FirstIsBatch(outs: seq<OutMsg>)
    requires |outs| > 1 && OnlyBatches(outs[..|outs| - 1])
    ensures outs[0].Batch?
  {
    assert outs[..|outs| - 1][0] == outs[0];
  }

  lemma ArrivalIsLive(outs: seq<OutMsg>, ins: seq<InMsg>, served: seq<Executed>)
    requires Arriving(outs, ins, served)
    ensures Live(FRESH, outs, [], served)
  {
    assert Parse("") == Incomplete;
  }

  // ---- Steps of the main thread ----

  /** With `fd` not routed anywhere, a new connection under that number starts clean. */
  lemma AcceptKeeps<S(!new)>(exec: Executor<S>, first: S, s: State<S>, fd: int)
    requires Inv(exec, first, s) && fd !in s.main.route
    ensures Inv(exec, first, Accept(s, fd))
  {
    hide Greedy, OutOf, InOf;
    var s' := Accept(s, fd);
    forall j: nat, f: int | j < |s'.threads| ensures Good(s', j, f) {
      assert Good(s, j, f);
      if f != fd {
        assert Served(s', f) == Served(s, f) && Here(s', j, f) == Here(s, j, f);
        InOfAppend(s.threads[s.main.next].inbox, Assign(fd), f);
      } else if j == s.main.next {
        assert !Here(s, j, fd) && Here(s', j, fd);
        var ins := InOf(s.threads[j].inbox, fd);
        InOfAppend(s.threads[j].inbox, Assign(fd), fd);
        assert (ins + [Assign(fd)])[..|ins|] == ins;
        assert s'.main.log[|s.main.log|..] == [];
      } else {
        assert !Here(s, j, fd) && !Here(s', j, fd);
      }
    }
  }

  /** A routed connection's own thread is the only one that talks about it. */
  lemma OutboxOwner<S(!new)>(exec: Executor<S>, first: S, s: State<S>, i: nat)
    requires Inv(exec, first, s) && i < |s.threads| && s.threads[i].outbox != []
    ensures Here(s, i, s.threads[i].outbox[0].fd)
  {
    hide Greedy, InOf, OfFd;
    var m := s.threads[i].outbox[0];
    OutOfFirst(s.threads[i].outbox, m.fd);
    assert Good(s, i, m.fd);
  }

  lemma TakeDecoded<S(!new)>(exec: Executor<S>, s: State<S>, i: nat, nows: seq<int>)
    requires Decoded(s) && i < |s.threads| && CanTake(exec, s, i, nows)
    ensures Decoded(Take(exec, s, i, nows))
  {
    hide RunBatch, Replies;
    var m, s' := s.threads[i].outbox[0], Take(exec, s, i, nows);
    assert Readable(s.threads[i].outbox) && Readable(s.threads[i].outbox[1..]);
    if m.Batch? {
      RunBatchFacts(exec, s.main.store, m.fd, nows, m.requests);
      var entries := RunBatch(exec, s.main.store, m.fd, nows, m.requests).1;
      assert Requests(s'.main.log) == Requests(s.main.log) + Requests(entries);
    }
  }

  lemma TakeDisconnectKeeps<S(!new)>(exec: Executor<S>, first: S, s: State<S>, i: nat, nows: seq<int>)
    requires Inv(exec, first, s) && i < |s.threads| && CanTake(exec, s, i, nows)
    requires s.threads[i].outbox[0].Disconnect?
    ensures Inv(exec, first, Take(exec, s, i, nows))
  {
    hide Greedy, InOf, OutOf, OfFd;
    var s' := Take(exec, s, i, nows);
    var t, m := s.threads[i], s.threads[i].outbox[0];
    var outs := OutOf(t.outbox, m.fd);
    OutOfFirst(t.outbox, m.fd);
    OutboxOwner(exec, first, s, i);
    assert Good(s, i, m.fd);
    assert outs[0] == m;
    TakeDecoded(exec, s, i, nows);
    if |outs| > 1 && Leaving(outs, InOf(t.inbox, m.fd)) {
      FirstIsBatch(outs);
    }
    forall j: nat, f: int | j < |s'.threads| ensures Good(s', j, f) {
      assert Good(s, j, f);
      OutOfFirst(t.outbox, f);
      assert Served(s', f) == Served(s, f);
    }
  }

  lemma TakeBatchKeeps<S(!new)>(exec: Executor<S>, first: S, s: State<S>, i: nat, nows: seq<int>)
    requires Inv(exec, first, s) && i < |s.threads| && CanTake(exec, s, i, nows)
    requires s.threads[i].outbox[0].Batch?
    ensures Inv(exec, first, Take(exec, s, i, nows))
  {
    hide Greedy, InOf, OutOf, OfFd, Serial, RunBatch;
    var t, m := s.threads[i], s.threads[i].outbox[0];
    var fd := m.fd;
    var (store, entries) := RunBatch(exec, s.main.store, fd, nows, m.requests);
    var w := Write(fd, Replies(entries));
    var s' := Take(exec, s, i, nows);
    RunBatchFacts(exec, s.main.store, fd, nows, m.requests);
    SerialAppend(exec, first, s.main.log, s.main.store, entries, store);
    OutboxOwner(exec, first, s, i);
    TakeDecoded(exec, s, i, nows);
    var t' := t.(outbox := t.outbox[1..], inbox := t.inbox + [w]);
    assert s'.threads == s.threads[i := t'];
    forall j: nat, f: int | j < |s'.threads| ensures Good(s', j, f) {
      assert Good(s, j, f);
      ServedGrows(s, s', entries, fd, f);
      InOfAppend(t.inbox, w, f);
      OutOfFirst(t.outbox, f);
      assert Here(s', j, f) == Here(s, j, f);
      if f == fd && j == i {
        BatchMoves(t, t', fd, m, Served(s, fd), entries);
      } else if f == fd {
        assert !Here(s, j, f);
      }
    }
  }

  lemma ServedGrows<S>(s: State<S>, s': State<S>, entries: seq<Executed>, fd: int, f: int)
    requires Shape(s) && s'.main.log == s.main.log + entries && s'.main.since == s.main.since
    requires forall k | 0 <= k < |entries| :: entries[k].fd == fd
    requires fd in s.main.route
    ensures Served(s', f) == if f == fd then Served(s, f) + entries else Served(s, f)
  {
    if f in s.main.since {
      var n := s.main.since[f];
      assert s'.main.log[n..] == s.main.log[n..] + entries;
      OfFdAppend(s.main.log[n..], entries, f);
      OfFdOwn(entries, fd, f);
    }
  }

  /** A batch leaves the queue, its commands join the executed ones, and their
      replies set out for the thread. */
  lemma BatchMoves(t: Thread, t': Thread, fd: int, m: OutMsg, served: seq<Executed>, entries: seq<Executed>)
    requires Consistent(t, fd, true, served)
    requires m.Batch? && Requests(entries) == m.requests
    requires OutOf(t.outbox, fd) == [m] + OutOf(t'.outbox, fd)
    requires InOf(t'.inbox, fd) == InOf(t.inbox, fd) + [Write(fd, Replies(entries))]
    requires t'.conns == t.conns
    ensures Consistent(t', fd, true, served + entries)
  {
    hide Greedy, InOf, OutOf;
    var outs, outs' := OutOf(t.outbox, fd), OutOf(t'.outbox, fd);
    var ins := InOf(t.inbox, fd);
    if fd in t.conns {
      LiveBatchMoves(t.conns[fd], outs', ins, m, fd, served, entries);
    } else {
      assert Leaving(outs, ins);
      assert outs'[|outs'| - 1] == outs[|outs| - 1];
      assert outs'[..|outs'| - 1] == outs[..|outs| - 1][1..];
    }
  }

  lemma LiveBatchMoves(c: Conn, outs: seq<OutMsg>, ins: seq<InMsg>, m: OutMsg, fd: int,
                       served: seq<Executed>, entries: seq<Executed>)
    requires m.Batch? && Requests(entries) == m.requests
    requires Live(c, [m] + outs, ins, served)
    ensures Live(c, outs, ins + [Write(fd, Replies(entries))], served + entries)
  {
    hide Greedy, Replies, Bytes;
    var w := Write(fd, Replies(entries));
    BytesAppend(ins, w);
    RepliesAppend(served, entries);
    assert ([m] + outs)[1..] == outs;
    assert forall k | 0 <= k < |outs| :: outs[k] == ([m] + outs)[k + 1];
    assert Requests(served + entries) == Requests(served) + m.requests;
    assert Requests(served) + (m.requests + Queued(outs)) == Requests(served + entries) + Queued(outs);
    assert c.sent + c.out + (Bytes(ins) + w.bytes) == (c.sent + c.out + Bytes(ins)) + w.bytes;
  }
}
