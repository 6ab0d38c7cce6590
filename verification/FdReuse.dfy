/** Descriptor reuse. An IO thread closes a descriptor before the main thread has seen
    its `Disconnect`, so the kernel may hand the same number to the next client while the
    old route stands. That is exactly when accepting breaks the pipeline's invariant. */
module FdReuse {
  import opened Text
  import opened Resp
  import opened Channels
  import ReplyOrder
  import RespQueue
  import Spsc
  import Pipeline
  import Refinement
  import DeadlockRun

  /** Accepting a descriptor keeps the invariant if and only if it is not routed. */
  lemma AcceptKeepsExactly<S(!new)>(exec: Executor<S>, first: S, s: State<S>, fd: int)
    requires Inv(exec, first, s)
    ensures Inv(exec, first, Accept(s, fd)) <==> fd !in s.main.route
  {
    if fd !in s.main.route {
      ReplyOrder.AcceptKeeps(exec, first, s, fd);
    } else {
      StillRouted(exec, first, s, fd);
      hide Good, Serial;
    }
  }

  /** With the route still there, the thread that held the descriptor is no longer
      consistent with it. */
  lemma StillRouted<S(!new)>(exec: Executor<S>, first: S, s: State<S>, fd: int)
    requires Inv(exec, first, s) && fd in s.main.route
    ensures !Good(Accept(s, fd), s.main.route[fd], fd)
  {
    hide Serial, Consistent, OfFd;
    var i, j := s.main.route[fd], s.main.next;
    var t, s' := s.threads[i], Accept(s, fd);
    assert Good(s, i, fd);
    if i == j {
      AssignedTwice(t, fd, Served(s, fd), Served(s', fd));
    } else {
      HeldElsewhere(t, fd, Served(s, fd), Served(s', fd));
    }
  }

  lemma AssignedTwice(t: Thread, fd: int, served: seq<Executed>, served': seq<Executed>)
    requires Consistent(t, fd, true, served)
    ensures !Consistent(t.(inbox := t.inbox + [Assign(fd)]), fd, true, served')
  {
    hide RespQueue.Greedy, OutOf, InOf, Queued, Bytes, Replies, Requests, OnlyWrites, OnlyBatches;
    ReplyOrder.InOfAppend(t.inbox, Assign(fd), fd);
    var ins := InOf(t.inbox, fd);
    var ins' := ins + [Assign(fd)];
    assert ins'[..|ins'| - 1] == ins;
    HoldsAssign(ins', |ins|);
    if ins != [] && ins[|ins| - 1].Assign? {
      HoldsAssign(ins, |ins| - 1);
    }
  }

  lemma HoldsAssign(ms: seq<InMsg>, k: nat)
    requires k < |ms| && ms[k].Assign?
    ensures !OnlyWrites(ms)
  {
  }

  lemma HeldElsewhere(t: Thread, fd: int, served: seq<Executed>, served': seq<Executed>)
    requires Consistent(t, fd, true, served)
    ensures !Consistent(t, fd, false, served')
  {
    hide RespQueue.Greedy, OutOf, InOf, Queued, Bytes, Replies, Requests, OnlyWrites, OnlyBatches;
    var ins := InOf(t.inbox, fd);
    if ins != [] && ins[|ins| - 1].Assign? {
      HoldsAssign(ins, |ins| - 1);
    }
  }

  // ---- What becomes of the new client ----

  /** Successive turns of `ProcessCommands` on thread `i`. */
  ghost predicate CanTakeAll<S(!new)>(exec: Executor<S>, s: State<S>, i: nat, nows: seq<seq<int>>)
    decreases |nows|
  {
    nows == [] ||
    (i < |s.threads| && CanTake(exec, s, i, nows[0]) && CanTakeAll(exec, Take(exec, s, i, nows[0]), i, nows[1..]))
  }

  ghost function TakeAll<S(!new)>(exec: Executor<S>, s: State<S>, i: nat, nows: seq<seq<int>>): State<S>
    requires CanTakeAll(exec, s, i, nows)
    decreases |nows|
  {
    if nows == [] then s else TakeAll(exec, Take(exec, s, i, nows[0]), i, nows[1..])
  }

  /** Routes lead to threads that exist, and the one of `fd` to thread `j`. */
  ghost predicate RoutedTo<S>(s: State<S>, fd: int, j: nat) {
    && j < |s.threads| && fd in s.main.route && s.main.route[fd] == j
    && forall f | f in s.main.route :: s.main.route[f] < |s.threads|
  }

  /** What lies between two states, as far as `fd` is concerned: the log has grown by
      `entries`, and thread `j` has been sent `writes`, whose bytes are the replies to
      those of `entries` that are under `fd`. */
  ghost predicate Handed<S>(s: State<S>, s': State<S>, fd: int, j: nat, asked: seq<RespValue>,
                            entries: seq<Executed>, writes: seq<InMsg>)
    requires j < |s.threads| && j < |s'.threads|
  {
    && s'.main.log == s.main.log + entries
    && InOf(s'.threads[j].inbox, fd) == InOf(s.threads[j].inbox, fd) + writes
    && OnlyWrites(writes)
    && Requests(OfFd(entries, fd)) == asked
    && Bytes(writes) == Replies(OfFd(entries, fd))
  }

  function AskedUnder(m: OutMsg, fd: int): seq<RespValue> {
    if m.Batch? && m.fd == fd then m.requests else []
  }

  /** One message that is not the disconnect of `fd`: a batch under `fd` is answered to
      whoever `fd` is routed to. */
  lemma TakeHands<S(!new)>(exec: Executor<S>, s: State<S>, i: nat, fd: int, j: nat, nows: seq<int>)
    returns (entries: seq<Executed>, writes: seq<InMsg>)
    requires i < |s.threads| && RoutedTo(s, fd, j)
    requires s.threads[i].outbox != [] && s.threads[i].outbox[0] != Disconnect(fd)
    requires CanExecute(s.threads[i].outbox[0], nows)
    ensures CanTake(exec, s, i, nows)
    ensures var m, s' := s.threads[i].outbox[0], Take(exec, s, i, nows);
      && RoutedTo(s', fd, j) && |s'.threads| == |s.threads|
      && s'.threads[i].outbox == s.threads[i].outbox[1..]
      && Handed(s, s', fd, j, AskedUnder(m, fd), entries, writes)
  {
    hide RunBatch, OfFd, InOf, Replies, Bytes;
    var m := s.threads[i].outbox[0];
    NoneForFd(fd);
    if m.Disconnect? {
      entries, writes := [], [];
      assert s.main.log + [] == s.main.log;
      assert InOf(s.threads[j].inbox, fd) + [] == InOf(s.threads[j].inbox, fd);
    } else {
      entries := RunBatch(exec, s.main.store, m.fd, nows, m.requests).1;
      ReplyOrder.RunBatchFacts(exec, s.main.store, m.fd, nows, m.requests);
      ReplyOrder.OfFdOwn(entries, m.fd, fd);
      var w := Write(m.fd, Replies(entries));
      ReplyOrder.InOfAppend(s.threads[j].inbox, w, fd);
      writes := if m.fd == fd then [w] else [];
      OneWrite(w);
      assert InOf(s.threads[j].inbox, fd) + [] == InOf(s.threads[j].inbox, fd);
    }
  }

  lemma NoneForFd(fd: int)
    ensures OfFd([], fd) == [] && Replies([]) == "" && Bytes([]) == "" && Requests([]) == []
  {
  }

  lemma OneWrite(w: InMsg)
    requires w.Write?
    ensures Bytes([w]) == w.bytes
  {
    assert [w][1..] == [] && w.bytes + "" == w.bytes;
  }

  lemma HandedOn<S>(a: State<S>, b: State<S>, c: State<S>, fd: int, j: nat,
                    asked1: seq<RespValue>, entries1: seq<Executed>, writes1: seq<InMsg>,
                    asked2: seq<RespValue>, entries2: seq<Executed>, writes2: seq<InMsg>)
    requires j < |a.threads| && j < |b.threads| && j < |c.threads|
    requires Handed(a, b, fd, j, asked1, entries1, writes1) && Handed(b, c, fd, j, asked2, entries2, writes2)
    ensures Handed(a, c, fd, j, asked1 + asked2, entries1 + entries2, writes1 + writes2)
  {
    hide OfFd, InOf, Replies, Bytes;
    ReplyOrder.OfFdAppend(entries1, entries2, fd);
    ReplyOrder.RepliesAppend(OfFd(entries1, fd), OfFd(entries2, fd));
    ReplyOrder.BytesJoin(writes1, writes2);
    var x, y := OfFd(entries1, fd), OfFd(entries2, fd);
    assert Requests(x + y) == Requests(x) + Requests(y);
    assert (InOf(a.threads[j].inbox, fd) + writes1) + writes2 == InOf(a.threads[j].inbox, fd) + (writes1 + writes2);
    assert (a.main.log + entries1) + entries2 == a.main.log + (entries1 + entries2);
  }

  /** All the messages before the disconnect. */
  lemma {:induction false} TakeAllHands<S(!new)>(exec: Executor<S>, s: State<S>, i: nat, fd: int, j: nat,
                                                 nows: seq<seq<int>>)
    returns (entries: seq<Executed>, writes: seq<InMsg>)
    requires i < |s.threads| && RoutedTo(s, fd, j) && |nows| <= |s.threads[i].outbox|
    requires forall k | 0 <= k < |nows| ::
      s.threads[i].outbox[k] != Disconnect(fd) && CanExecute(s.threads[i].outbox[k], nows[k])
    ensures CanTakeAll(exec, s, i, nows)
    ensures var s' := TakeAll(exec, s, i, nows);
      && RoutedTo(s', fd, j) && |s'.threads| == |s.threads|
      && s'.threads[i].outbox == s.threads[i].outbox[|nows|..]
      && Handed(s, s', fd, j, Queued(OutOf(s.threads[i].outbox[..|nows|], fd)), entries, writes)
    decreases |nows|
  {
    hide Take, CanTake, Handed, RoutedTo, OutOf, Queued;
    var outbox := s.threads[i].outbox;
    if nows == [] {
      entries, writes := [], [];
      NothingHanded(s, fd, j);
      assert outbox[..0] == [] && outbox[0..] == outbox;
    } else {
      var es, ws := TakeHands(exec, s, i, fd, j, nows[0]);
      var s' := Take(exec, s, i, nows[0]);
      assert forall k | 0 <= k < |nows[1..]| :: s'.threads[i].outbox[k] == outbox[k + 1];
      var es', ws' := TakeAllHands(exec, s', i, fd, j, nows[1..]);
      entries, writes := es + es', ws + ws';
      assert outbox[1..][|nows| - 1..] == outbox[|nows|..] && outbox[1..][..|nows| - 1] == outbox[1..|nows|];
      QueuedUnder(outbox[..|nows|], fd);
      assert outbox[..|nows|][1..] == outbox[1..|nows|];
      ThreadStays(s, fd, j, s', TakeAll(exec, s', i, nows[1..]));
      HandedOn(s, s', TakeAll(exec, s', i, nows[1..]), fd, j, AskedUnder(outbox[0], fd), es, ws,
               Queued(OutOf(outbox[1..|nows|], fd)), es', ws');
    }
  }

  lemma ThreadStays<S>(s: State<S>, fd: int, j: nat, s': State<S>, s'': State<S>)
    requires RoutedTo(s, fd, j) && RoutedTo(s', fd, j) && RoutedTo(s'', fd, j)
    ensures j < |s.threads| && j < |s'.threads| && j < |s''.threads|
  {
  }

  lemma NothingHanded<S>(s: State<S>, fd: int, j: nat)
    requires RoutedTo(s, fd, j)
    ensures j < |s.threads| && Handed(s, s, fd, j, Queued(OutOf([], fd)), [], [])
  {
    assert s.main.log + [] == s.main.log;
    assert InOf(s.threads[j].inbox, fd) + [] == InOf(s.threads[j].inbox, fd);
  }

  lemma QueuedUnder(ms: seq<OutMsg>, fd: int)
    requires ms != []
    ensures Queued(OutOf(ms, fd)) == AskedUnder(ms[0], fd) + Queued(OutOf(ms[1..], fd))
  {
    var rest := OutOf(ms[1..], fd);
    if ms[0].fd == fd {
      assert ([ms[0]] + rest)[1..] == rest;
    } else {
      assert [] + rest == rest;
    }
  }

  /** A client leaves with batches still queued, and its descriptor is accepted again
      before the main thread gets to them. Whatever else is in the outbox, the new client
      is sent, right behind its assignment, the replies to the old client's requests; then
      the old disconnect removes its route, and what it asks itself is executed and never
      answered. */
  lemma NewClientIsCutOff<S(!new)>(exec: Executor<S>, s: State<S>, i: nat, fd: int, m: nat, nows: seq<seq<int>>,
                                   requests: seq<RespValue>, times: seq<int>)
    returns (entries: seq<Executed>, writes: seq<InMsg>)
    requires Shape(s) && i < |s.threads| && m < |s.threads[i].outbox| && |nows| == m + 1 && |times| == |requests|
    requires s.threads[i].outbox[m] == Disconnect(fd)
    requires forall k | 0 <= k < m ::
      s.threads[i].outbox[k] != Disconnect(fd) && CanExecute(s.threads[i].outbox[k], nows[k])
    ensures var s1, j := Accept(s, fd), s.main.next;
      && CanTakeAll(exec, s1, i, nows)
      && var s2 := TakeAll(exec, s1, i, nows);
      && |s2.threads| == |s.threads|
      && s2.main.log == s.main.log + entries
      && Requests(OfFd(entries, fd)) == Queued(OutOf(s.threads[i].outbox[..m], fd))
      && InOf(s2.threads[j].inbox, fd) == InOf(s.threads[j].inbox, fd) + [Assign(fd)] + writes
      && OnlyWrites(writes) && Bytes(writes) == Replies(OfFd(entries, fd))
      && fd !in s2.main.route
      && Answer(exec, s2.main, Batch(fd, requests), times) == None
      && Requests(Execute(exec, s2.main, Batch(fd, requests), times).log) == Requests(s2.main.log) + requests
  {
    hide OutOf, Queued, InOf, RunBatch, OfFd, Accept, CanTakeAll, TakeAll, Answer, Execute, Requests, Take, CanTake;
    entries, writes := OldBusinessFirst(exec, s, i, fd, m, nows);
    Unanswered(exec, TakeAll(exec, Accept(s, fd), i, nows), fd, requests, times);
  }

  lemma OldBusinessFirst<S(!new)>(exec: Executor<S>, s: State<S>, i: nat, fd: int, m: nat, nows: seq<seq<int>>)
    returns (entries: seq<Executed>, writes: seq<InMsg>)
    requires Shape(s) && i < |s.threads| && m < |s.threads[i].outbox| && |nows| == m + 1
    requires s.threads[i].outbox[m] == Disconnect(fd)
    requires forall k | 0 <= k < m ::
      s.threads[i].outbox[k] != Disconnect(fd) && CanExecute(s.threads[i].outbox[k], nows[k])
    ensures var s1, j := Accept(s, fd), s.main.next;
      && CanTakeAll(exec, s1, i, nows)
      && var s2 := TakeAll(exec, s1, i, nows);
      && |s2.threads| == |s.threads| && fd !in s2.main.route
      && s2.main.log == s.main.log + entries
      && Requests(OfFd(entries, fd)) == Queued(OutOf(s.threads[i].outbox[..m], fd))
      && InOf(s2.threads[j].inbox, fd) == InOf(s.threads[j].inbox, fd) + [Assign(fd)] + writes
      && OnlyWrites(writes) && Bytes(writes) == Replies(OfFd(entries, fd))
  {
    hide OutOf, Queued, InOf, OfFd, Take, CanTake, CanTakeAll, TakeAll, Bytes, Replies, Requests, OnlyWrites;
    var s1, j := Accept(s, fd), s.main.next;
    ReplyOrder.InOfAppend(s.threads[j].inbox, Assign(fd), fd);
    assert s1.threads[i].outbox == s.threads[i].outbox && RoutedTo(s1, fd, j);
    entries, writes := TakeAllHands(exec, s1, i, fd, j, nows[..m]);
    var mid := TakeAll(exec, s1, i, nows[..m]);
    DisconnectUnroutes(exec, mid, i, fd, nows[m]);
    TakeAllSplits(exec, s1, i, nows[..m], nows[m]);
    assert nows[..m] + [nows[m]] == nows;
  }

  /** Without a route a batch is executed and not answered. */
  lemma Unanswered<S(!new)>(exec: Executor<S>, s: State<S>, fd: int, requests: seq<RespValue>, times: seq<int>)
    requires fd !in s.main.route && |times| == |requests|
    ensures Answer(exec, s.main, Batch(fd, requests), times) == None
    ensures Requests(Execute(exec, s.main, Batch(fd, requests), times).log) == Requests(s.main.log) + requests
  {
    hide RunBatch;
    ReplyOrder.RunBatchFacts(exec, s.main.store, fd, times, requests);
    var es := RunBatch(exec, s.main.store, fd, times, requests).1;
    assert Requests(s.main.log + es) == Requests(s.main.log) + Requests(es);
  }

  lemma DisconnectUnroutes<S(!new)>(exec: Executor<S>, s: State<S>, i: nat, fd: int, nows: seq<int>)
    requires i < |s.threads| && s.threads[i].outbox != [] && s.threads[i].outbox[0] == Disconnect(fd)
    ensures CanTake(exec, s, i, nows)
    ensures var s' := Take(exec, s, i, nows);
      && |s'.threads| == |s.threads| && s'.main.log == s.main.log && fd !in s'.main.route
      && forall j | 0 <= j < |s.threads| :: s'.threads[j].inbox == s.threads[j].inbox
  {
  }

  lemma {:induction false} TakeAllSplits<S(!new)>(exec: Executor<S>, s: State<S>, i: nat, nows: seq<seq<int>>,
                                                  last: seq<int>)
    requires i < |s.threads| && CanTakeAll(exec, s, i, nows)
    requires i < |TakeAll(exec, s, i, nows).threads| && CanTake(exec, TakeAll(exec, s, i, nows), i, last)
    ensures CanTakeAll(exec, s, i, nows + [last])
    ensures TakeAll(exec, s, i, nows + [last]) == Take(exec, TakeAll(exec, s, i, nows), i, last)
    decreases |nows|
  {
    hide Take, CanTake;
    var all := nows + [last];
    if nows == [] {
      assert all[0] == last && all[1..] == [];
    } else {
      var s' := Take(exec, s, i, nows[0]);
      TakeKeepsThreads(exec, s, i, nows[0]);
      TakeAllSplits(exec, s', i, nows[1..], last);
      assert all[0] == nows[0] && all[1..] == nows[1..] + [last];
    }
  }

  lemma TakeKeepsThreads<S(!new)>(exec: Executor<S>, s: State<S>, i: nat, nows: seq<int>)
    requires i < |s.threads| && CanTake(exec, s, i, nows)
    ensures |Take(exec, s, i, nows).threads| == |s.threads|
  {
  }

  // ---- Such states are reached ----

  /** For every capacity a run of the threads: a client connects and hangs up, its
      descriptor is closed and still routed, and its disconnect waits in the outbox. */
  lemma HangUpIsReachable<S(!new)>(exec: Executor<S>, cap: nat, first: S, fd: int)
    requires cap > 0
    ensures exists run ::
      && Refinement.IsRun(exec, 1, cap, first, run)
      && Closed(DeadlockRun.Last(run), cap, fd, [Disconnect(fd)])
  {
    hide Spsc.Contents, Spsc.Inv;
    var run := DeadlockRun.Connect(exec, cap, first, fd);
    run := HangUp(exec, cap, first, run, fd, 0);
    assert [] + [Disconnect(fd)] == [Disconnect(fd)];
  }

  /** With room for two messages, also one in which it asks something first, so that the
      next client to get the descriptor is sent the answer. */
  lemma AskAndHangUpIsReachable<S(!new)>(exec: Executor<S>, cap: nat, first: S, fd: int)
    requires cap > 1
    ensures exists run ::
      && Refinement.IsRun(exec, 1, cap, first, run)
      && Closed(DeadlockRun.Last(run), cap, fd, [Batch(fd, [SimpleString("")]), Disconnect(fd)])
  {
    hide Spsc.Contents, Spsc.Inv;
    var run := DeadlockRun.Connect(exec, cap, first, fd);
    run := DeadlockRun.Receive(exec, cap, first, run, fd, 0);
    run := DeadlockRun.Emit(exec, cap, first, run);
    run := HangUp(exec, cap, first, run, fd, 1);
    var b := Batch(fd, [SimpleString("")]);
    assert ([] + [b]) + [Disconnect(fd)] == [b, Disconnect(fd)];
  }

  /** The main thread is polling and routes `fd`; its thread has closed it and `ms` waits
      in its outbox. */
  ghost predicate Closed<S>(s: Pipeline.Server<S>, cap: nat, fd: int, ms: seq<OutMsg>) {
    && Refinement.Coupled(s, cap) && |s.io| == 1 && s.pc.Polling?
    && fd in s.main.route && fd !in s.io[0].conns
    && Refinement.Abs(s, cap).threads[0].outbox == ms
  }

  lemma HangUp<S(!new)>(exec: Executor<S>, cap: nat, first: S, run: seq<Pipeline.Server<S>>, fd: int, k: nat)
    returns (run': seq<Pipeline.Server<S>>)
    requires DeadlockRun.Run(exec, cap, first, run)
    requires DeadlockRun.Loaded(DeadlockRun.Last(run), fd, k, cap) && k < cap
    ensures Refinement.IsRun(exec, 1, cap, first, run')
    ensures Closed(DeadlockRun.Last(run'), cap, fd,
                   Spsc.Contents(DeadlockRun.Last(run).io[0].outbox) + [Disconnect(fd)])
  {
    hide Spsc.Contents, Spsc.Inv;
    var waiting := Spsc.Contents(DeadlockRun.Last(run).io[0].outbox);
    run' := DeadlockRun.Extend(exec, cap, first, run, Pipeline.OfIo(0, Pipeline.Hup(fd)));
    run' := DeadlockRun.Emit(exec, cap, first, run');
    assert (waiting + [Disconnect(fd)]) + [] == waiting + [Disconnect(fd)];
  }
}
