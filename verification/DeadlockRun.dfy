/** The deadlock of `Progress` does happen: for every ring capacity, a server with
    one IO thread reaches it. One client sends `cap + 1` requests while the main
    thread stays in its accept loop, and then `cap + 1` further clients connect. */
module DeadlockRun {
  import opened Text
  import opened Resp
  import opened Channels
  import opened Spsc
  import opened Pipeline
  import opened Refinement
  import opened Progress
  import RespQueue

  ghost predicate Run<S(!new)>(exec: Executor<S>, cap: nat, first: S, run: seq<Server<S>>) {
    IsRun(exec, 1, cap, first, run) && |Last(run).io| == 1
  }

  function Last<S>(run: seq<Server<S>>): Server<S>
    requires run != []
  {
    run[|run| - 1]
  }

  lemma Extend<S(!new)>(exec: Executor<S>, cap: nat, first: S, run: seq<Server<S>>, step: Step)
    returns (run': seq<Server<S>>)
    requires Run(exec, cap, first, run) && Can(exec, Last(run), step)
    ensures Run(exec, cap, first, run') && Last(run') == Do(exec, Last(run), step)
    ensures Coupled(Last(run'), cap)
  {
    run' := run + [Do(exec, Last(run), step)];
    forall j | 0 <= j < |run'| - 1 ensures Next(exec, run'[j], run'[j + 1]) {
      if j == |run| - 1 {
        assert Next(exec, run'[j], run'[j + 1]);
      } else {
        assert Next(exec, run[j], run[j + 1]);
      }
    }
    RunInv(exec, 1, cap, first, run', |run'| - 1);
  }

  const REQUEST: string := "+\r\n"

  lemma RequestParses()
    ensures RespQueue.Greedy(REQUEST) == RespQueue.Drained([SimpleString("")], "", false)
  {
    var v := SimpleString("");
    RespQueue.GreedyOfSerialized([v]);
    assert SerializeAll([v]) == Serialize(v) + SerializeAll([]);
    assert SerializeAll([v]) == REQUEST;
  }

  // ---- An undisturbed Push by either side ----

  lemma Post<S(!new)>(exec: Executor<S>, cap: nat, first: S, run: seq<Server<S>>) returns (run': seq<Server<S>>)
    requires Run(exec, cap, first, run) && Coupled(Last(run), cap)
    requires var s := Last(run);
      s.pc.Posting? && s.pc.back.ToPoll? && s.io[0].inbox.producer.Resting? && !InboxFull(s, 0, cap)
    ensures Run(exec, cap, first, run') && Coupled(Last(run'), cap)
    ensures var s, s' := Last(run), Last(run');
      && s'.pc == Polling && s'.main == s.main
      && s'.io[0].inbox.producer.Resting?
      && Contents(s'.io[0].inbox) == Contents(s.io[0].inbox) + [s.pc.msg]
      && s'.io[0] == s.io[0].(inbox := s'.io[0].inbox, event := s.io[0].event + 1)
      && s'.io[0].inbox.consumer == s.io[0].inbox.consumer
  {
    hide Contents, Spsc.Inv;
    run' := PostFill(exec, cap, first, run);
    var q := Last(run').io[0].inbox;
    PushStoreTailAppends(q);
    run' := Extend(exec, cap, first, run', OfMain(PostPublish));
    run' := Extend(exec, cap, first, run', OfMain(Notify));
  }

  /** Up to the tail store. */
  lemma PostFill<S(!new)>(exec: Executor<S>, cap: nat, first: S, run: seq<Server<S>>) returns (run': seq<Server<S>>)
    requires Run(exec, cap, first, run) && Coupled(Last(run), cap)
    requires var s := Last(run);
      s.pc.Posting? && s.io[0].inbox.producer.Resting? && !InboxFull(s, 0, cap)
    ensures Run(exec, cap, first, run') && Coupled(Last(run'), cap)
    ensures var s, s' := Last(run), Last(run');
      && s' == s.(io := s'.io) && s'.io[0] == s.io[0].(inbox := s'.io[0].inbox)
      && s'.io[0].inbox.producer.Filled? && s'.io[0].inbox.producer.element == s.pc.msg
      && Contents(s'.io[0].inbox) == Contents(s.io[0].inbox)
      && s'.io[0].inbox.consumer == s.io[0].inbox.consumer
  {
    hide Contents, Spsc.Inv;
    var q := Last(run).io[0].inbox;
    PushLoadTailKeeps(q, Last(run).pc.msg);
    run' := Extend(exec, cap, first, run, OfMain(PostTail));
    q := Last(run').io[0].inbox;
    PushLoadHeadKeeps(q);
    run' := Extend(exec, cap, first, run', OfMain(PostHead));
    q := Last(run').io[0].inbox;
    PushFillKeeps(q);
    InTheRing(q);
    run' := Extend(exec, cap, first, run', OfMain(PostPut));
  }

  lemma Emit<S(!new)>(exec: Executor<S>, cap: nat, first: S, run: seq<Server<S>>) returns (run': seq<Server<S>>)
    requires Run(exec, cap, first, run) && Coupled(Last(run), cap)
    requires var s := Last(run);
      s.io[0].pc.Emitting? && s.io[0].outbox.producer.Resting? && !OutboxFull(s, 0, cap)
    ensures Run(exec, cap, first, run') && Coupled(Last(run'), cap)
    ensures var s, s' := Last(run), Last(run');
      && s'.pc == s.pc && s'.main == s.main
      && s'.io[0].outbox.producer.Resting?
      && Contents(s'.io[0].outbox) == Contents(s.io[0].outbox) + [s.io[0].pc.msg]
      && s'.io[0] == s.io[0].(outbox := s'.io[0].outbox, pc := Pipeline.After(s.io[0].pc.back))
  {
    hide Contents, Spsc.Inv;
    run' := EmitFill(exec, cap, first, run);
    var q := Last(run').io[0].outbox;
    PushStoreTailAppends(q);
    run' := Extend(exec, cap, first, run', OfIo(0, PushPublish));
    run' := Extend(exec, cap, first, run', OfIo(0, Signal));
  }

  lemma EmitFill<S(!new)>(exec: Executor<S>, cap: nat, first: S, run: seq<Server<S>>) returns (run': seq<Server<S>>)
    requires Run(exec, cap, first, run) && Coupled(Last(run), cap)
    requires var s := Last(run);
      s.io[0].pc.Emitting? && s.io[0].outbox.producer.Resting? && !OutboxFull(s, 0, cap)
    ensures Run(exec, cap, first, run') && Coupled(Last(run'), cap)
    ensures var s, s' := Last(run), Last(run');
      && s' == s.(io := s'.io) && s'.io[0] == s.io[0].(outbox := s'.io[0].outbox)
      && s'.io[0].outbox.producer.Filled? && s'.io[0].outbox.producer.element == s.io[0].pc.msg
      && Contents(s'.io[0].outbox) == Contents(s.io[0].outbox)
  {
    hide Contents, Spsc.Inv;
    var q := Last(run).io[0].outbox;
    PushLoadTailKeeps(q, Last(run).io[0].pc.msg);
    run' := Extend(exec, cap, first, run, OfIo(0, PushTail));
    q := Last(run').io[0].outbox;
    PushLoadHeadKeeps(q);
    run' := Extend(exec, cap, first, run', OfIo(0, PushHead));
    q := Last(run').io[0].outbox;
    PushFillKeeps(q);
    InTheRing(q);
    run' := Extend(exec, cap, first, run', OfIo(0, PushPut));
  }

  // ---- One client connects ----

  /** The main thread has posted the connection and is polling again. */
  ghost predicate Posted<S>(s: Server<S>, fd: int, cap: nat) {
    && Coupled(s, cap) && |s.io| == 1 && s.pc == Polling && s.main.next < 1
    && var io := s.io[0];
    && io.pc.Idle? && io.event == 1 && io.conns == map[]
    && io.inbox.producer.Resting? && io.inbox.consumer.Waiting? && Contents(io.inbox) == [Assign(fd)]
    && io.outbox.producer.Resting? && Contents(io.outbox) == []
    && s.main.route.Keys == {fd}
  }

  lemma Arrive<S(!new)>(exec: Executor<S>, cap: nat, first: S, fd: int) returns (run: seq<Server<S>>)
    requires cap > 0
    ensures Run(exec, cap, first, run) && Posted(Last(run), fd, cap)
  {
    EmptyInv<InMsg>(cap);
    EmptyInv<OutMsg>(cap);
    run := [Start(1, cap, first)];
    RunInv(exec, 1, cap, first, run, 0);
    hide Contents, Spsc.Inv;
    run := Extend(exec, cap, first, run, OfMain(Incoming(fd)));
    run := Post(exec, cap, first, run);
  }

  lemma Connect<S(!new)>(exec: Executor<S>, cap: nat, first: S, fd: int) returns (run: seq<Server<S>>)
    requires cap > 0
    ensures Run(exec, cap, first, run) && Loaded(Last(run), fd, 0, cap)
  {
    hide Contents, Spsc.Inv;
    run := Arrive(exec, cap, first, fd);
    run := Extend(exec, cap, first, run, OfIo(0, Wake));
    run := PopOne(exec, cap, first, run);
    run := Extend(exec, cap, first, run, OfIo(0, PopReturn(Sent(0))));
    var q := Last(run).io[0].inbox;
    PopLoadHeadKeeps(q);
    run := Extend(exec, cap, first, run, OfIo(0, PopHead));
    PopLoadTailKeeps(Last(run).io[0].inbox);
    run := Extend(exec, cap, first, run, OfIo(0, PopTail));
  }

  /** Pop up to its head store. */
  lemma PopOne<S(!new)>(exec: Executor<S>, cap: nat, first: S, run: seq<Server<S>>) returns (run': seq<Server<S>>)
    requires Run(exec, cap, first, run) && Coupled(Last(run), cap)
    requires var io := Last(run).io[0];
      io.pc.Draining? && io.inbox.consumer.Waiting? && |Contents(io.inbox)| == 1
    ensures Run(exec, cap, first, run') && Coupled(Last(run'), cap)
    ensures var s, s' := Last(run), Last(run');
      && s'.pc == s.pc && s'.main == s.main
      && s'.io[0] == s.io[0].(inbox := s'.io[0].inbox)
      && s'.io[0].inbox.consumer.Cleared? && s'.io[0].inbox.consumer.element == Contents(s.io[0].inbox)[0]
      && s'.io[0].inbox.producer == s.io[0].inbox.producer
      && Spsc.Inv(PopStoreHead(s'.io[0].inbox)) && Contents(PopStoreHead(s'.io[0].inbox)) == []
  {
    hide Contents, Spsc.Inv;
    PopLoadHeadKeeps(Last(run).io[0].inbox);
    run' := Extend(exec, cap, first, run, OfIo(0, PopHead));
    PopLoadTailKeeps(Last(run').io[0].inbox);
    run' := Extend(exec, cap, first, run', OfIo(0, PopTail));
    InTheRing(Last(run').io[0].inbox);
    PopMoveKeeps(Last(run').io[0].inbox, None);
    run' := Extend(exec, cap, first, run', OfIo(0, PopMoveOut(None)));
    InTheRing(Last(run').io[0].inbox);
    PopClearKeeps(Last(run').io[0].inbox);
    run' := Extend(exec, cap, first, run', OfIo(0, PopReset));
    PopStoreHeadRemoves(Last(run').io[0].inbox);
  }

  // ---- It fills the outbox ----

  /** The client is connected, `k` batches wait in the outbox, nobody is busy. */
  ghost predicate Loaded<S>(s: Server<S>, fd: int, k: nat, cap: nat) {
    && Coupled(s, cap) && |s.io| == 1
    && s.pc == Polling
    && s.io[0].pc == Idle
    && fd in s.io[0].conns && s.io[0].conns[fd].buffer == ""
    && |Contents(s.io[0].outbox)| == k
    && |Contents(s.io[0].inbox)| == 0
    && s.main.route.Keys == {fd} && s.main.next == 0
  }

  /** One more request read: the thread is about to emit its batch. */
  lemma Receive<S(!new)>(exec: Executor<S>, cap: nat, first: S, run: seq<Server<S>>, fd: int, k: nat)
    returns (run': seq<Server<S>>)
    requires Run(exec, cap, first, run) && Loaded(Last(run), fd, k, cap)
    ensures Run(exec, cap, first, run')
    ensures var s, s' := Last(run), Last(run');
      && Coupled(s', cap)
      && s'.pc == s.pc && s'.main == s.main
      && s'.io[0].pc == Emitting(Batch(fd, [SimpleString("")]), ToIdle)
      && s'.io[0] == s.io[0].(pc := s'.io[0].pc, conns := s'.io[0].conns)
      && fd in s'.io[0].conns && s'.io[0].conns[fd].buffer == ""
  {
    hide RespQueue.Greedy, Contents, Spsc.Inv;
    RequestParses();
    assert "" + REQUEST == REQUEST;
    run' := Extend(exec, cap, first, run, OfIo(0, Recv(fd, REQUEST, true)));
  }

  lemma {:induction false} FillOutbox<S(!new)>(exec: Executor<S>, cap: nat, first: S, k: nat)
    returns (run: seq<Server<S>>)
    requires 0 < cap && k <= cap
    ensures Run(exec, cap, first, run) && Loaded(Last(run), 0, k, cap)
  {
    hide Contents, Spsc.Inv;
    if k == 0 {
      run := Connect(exec, cap, first, 0);
    } else {
      run := FillOutbox(exec, cap, first, k - 1);
      run := Receive(exec, cap, first, run, 0, k - 1);
      run := Emit(exec, cap, first, run);
    }
  }

  // ---- More clients fill the inbox ----

  /** The thread is stuck emitting, and `k` new clients wait in its inbox. */
  ghost predicate Stuck<S>(s: Server<S>, k: nat, cap: nat) {
    && Coupled(s, cap) && |s.io| == 1
    && s.pc == Polling
    && s.io[0].pc.Emitting? && OutboxFull(s, 0, cap)
    && |Contents(s.io[0].inbox)| == k
    && s.main.next == 0
    && forall fd | fd in s.main.route :: fd <= k
  }

  lemma {:induction false} FillInbox<S(!new)>(exec: Executor<S>, cap: nat, first: S, k: nat)
    returns (run: seq<Server<S>>)
    requires 0 < cap && k <= cap
    ensures Run(exec, cap, first, run) && Stuck(Last(run), k, cap)
  {
    hide Contents, Spsc.Inv;
    if k == 0 {
      run := FillOutbox(exec, cap, first, cap);
      run := Receive(exec, cap, first, run, 0, cap);
    } else {
      run := FillInbox(exec, cap, first, k - 1);
      run := Extend(exec, cap, first, run, OfMain(Incoming(k)));
      run := Post(exec, cap, first, run);
    }
  }

  /** For every executor, capacity and initial store there is a run into the deadlock. */
  lemma DeadlockIsReachable<S(!new)>(exec: Executor<S>, cap: nat, first: S)
    requires cap > 0
    ensures exists run ::
      && IsRun(exec, 1, cap, first, run)
      && Coupled(Last(run), cap)
      && Deadlock(Last(run), 0, cap)
  {
    hide Contents, Spsc.Inv;
    var run := FillInbox(exec, cap, first, cap);
    run := Extend(exec, cap, first, run, OfMain(Incoming(cap + 1)));
    assert Deadlock(Last(run), 0, cap);
  }
}
