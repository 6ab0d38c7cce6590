/** The threads of `Pipeline` refine the message sequences of `Channels`: every
    atomic step is either one step there or changes nothing there. What `ReplyOrder`
    proves about the sequences therefore holds of every interleaving. */
module Refinement {
  import opened Text
  import opened Resp
  import opened Channels
  import opened Spsc
  import opened Pipeline
  import ReplyOrder
  import RespQueue

  // ---- How the program counters and the rings fit together ----

  /** An IO thread is inside a ring operation only where its program counter says. */
  ghost predicate IoOk(io: Io, cap: nat) {
    && Spsc.Inv(io.inbox) && io.inbox.cap == cap
    && Spsc.Inv(io.outbox) && io.outbox.cap == cap
    && (!io.outbox.producer.Resting? ==> io.pc.Emitting? && io.outbox.producer.element == io.pc.msg)
    && (!io.inbox.consumer.Waiting? ==> io.pc.Draining?)
  }

  /** So is the main thread, in the rings of IO thread `i`. */
  ghost predicate MainOk(pc: MainPc, io: Io, i: nat) {
    && (!io.inbox.producer.Resting? ==>
          pc.Posting? && pc.target == i && io.inbox.producer.element == pc.msg)
    && (!io.outbox.consumer.Waiting? ==> pc == Sweeping(i))
  }

  ghost predicate PcOk(pc: MainPc, threads: nat) {
    match pc
    case Polling => true
    case Sweeping(i) => i < threads
    case Posting(target, _, back) => target < threads && (back.ToSweep? ==> back.i < threads)
    case Ringing(target, back) => target < threads && (back.ToSweep? ==> back.i < threads)
  }

  ghost predicate Coupled<S>(s: Server<S>, cap: nat) {
    && PcOk(s.pc, |s.io|)
    && forall i: nat | i < |s.io| :: IoOk(s.io[i], cap) && MainOk(s.pc, s.io[i], i)
  }

  // ---- The abstract state ----

  /** A message the main thread is posting and has not published yet. */
  function Coming(pc: MainPc, i: nat): seq<InMsg> {
    if pc.Posting? && pc.target == i then [pc.msg] else []
  }

  /** A message the IO thread is emitting and has not published yet. */
  function Going(pc: IoPc): seq<OutMsg> {
    if pc.Emitting? || pc.Nudging? then [pc.msg] else []
  }

  ghost function AbsThread(io: Io, coming: seq<InMsg>): Thread
    requires Spsc.Inv(io.inbox) && Spsc.Inv(io.outbox)
  {
    Thread(Contents(io.inbox) + coming, Contents(io.outbox) + Going(io.pc), io.conns)
  }

  ghost function Abs<S>(s: Server<S>, cap: nat): Channels.State<S>
    requires Coupled(s, cap)
  {
    Channels.State(seq(|s.io|, i requires 0 <= i < |s.io| => AbsThread(s.io[i], Coming(s.pc, i))), s.main)
  }

  // ---- A thread's own work does not depend on what is queued ----

  lemma Locality(t: Thread, fd: int, chunk: string)
    ensures Read(t, fd, chunk) ==
      Thread(t.inbox, t.outbox + Read(Local(t.conns), fd, chunk).outbox, Read(Local(t.conns), fd, chunk).conns)
    ensures CloseConn(t, fd) ==
      Thread(t.inbox, t.outbox + CloseConn(Local(t.conns), fd).outbox, CloseConn(Local(t.conns), fd).conns)
    ensures |Read(Local(t.conns), fd, chunk).outbox| <= 1
    ensures |CloseConn(Local(t.conns), fd).outbox| <= 1
  {
    hide RespQueue.Greedy;
    assert t.outbox + [] == t.outbox;
  }

  lemma FlushLocality(t: Thread, fd: int, flush: Flush)
    requires fd in t.conns && CanFlush(t.conns[fd], flush)
    ensures FlushConn(t, fd, flush) ==
      Thread(t.inbox, t.outbox + FlushConn(Local(t.conns), fd, flush).outbox,
             FlushConn(Local(t.conns), fd, flush).conns)
    ensures |FlushConn(Local(t.conns), fd, flush).outbox| <= 1
  {
    assert t.outbox + [] == t.outbox;
  }

  lemma HandleLocality(t: Thread, m: InMsg, flush: Flush)
    requires CanHandle(t, m, flush)
    ensures CanHandle(Local(t.conns), m, flush)
    ensures Handle(t, m, flush) ==
      Thread(t.inbox, t.outbox + Handle(Local(t.conns), m, flush).outbox,
             Handle(Local(t.conns), m, flush).conns)
    ensures |Handle(Local(t.conns), m, flush).outbox| <= 1
  {
    assert t.outbox + [] == t.outbox;
    if m.Write? && m.fd in t.conns {
      var c := t.conns[m.fd];
      var conns := t.conns[m.fd := c.(out := c.out + m.bytes)];
      FlushLocality(t.(conns := conns), m.fd, flush);
    }
  }

  // ---- Steps of an IO thread ----

  /** The abstract counterpart of an IO step: what it does to the thread. */
  function IoAbstract(t: Thread, io: Io, step: IoStep): Thread
    requires IoCan(io, step) && t.conns == io.conns && (step.PopReturn? ==> t.inbox != [] && t.inbox[0] == io.inbox.consumer.element)
  {
    match step
    case Recv(fd, chunk, _) => Read(t, fd, chunk)
    case Writable(fd, flush) => FlushConn(t, fd, flush)
    case Hup(fd) => CloseConn(t, fd)
    case HangupNow => CloseConn(t, io.pc.fd)
    case PopReturn(flush) => Handle(t.(inbox := t.inbox[1..]), t.inbox[0], flush)
    case _ => t
  }

  lemma IoRefines(io: Io, step: IoStep, coming: seq<InMsg>, cap: nat)
    requires IoOk(io, cap) && IoCan(io, step)
    ensures IoOk(IoDo(io, step), cap)
    ensures step.PopReturn? ==>
      var t := AbsThread(io, coming);
      t.inbox != [] && t.inbox[0] == io.inbox.consumer.element
    ensures AbsThread(IoDo(io, step), coming) == IoAbstract(AbsThread(io, coming), io, step)
    ensures IoDo(io, step).inbox.producer == io.inbox.producer
    ensures IoDo(io, step).outbox.consumer == io.outbox.consumer
  {
    hide Read, CloseConn, FlushConn, Handle, Spsc.Inv, Contents, Spsc.Item;
    var t := AbsThread(io, coming);
    assert t.outbox + [] == t.outbox && Contents(io.outbox) + [] == Contents(io.outbox);
    match step
    case Wake =>
    case Recv(fd, chunk, alive) =>
      Locality(t, fd, chunk);
      ContinueAbs(io, Read(Local(io.conns), fd, chunk), coming);
    case Writable(fd, flush) =>
      FlushLocality(t, fd, flush);
      ContinueAbs(io, FlushConn(Local(io.conns), fd, flush), coming);
    case Hup(fd) =>
      Locality(t, fd, "");
      ContinueAbs(io, CloseConn(Local(io.conns), fd), coming);
    case HangupNow =>
      Locality(t, io.pc.fd, "");
      ContinueAbs(io, CloseConn(Local(io.conns), io.pc.fd), coming);
    case PopHead => PopLoadHeadKeeps(io.inbox);
    case PopTail => PopLoadTailKeeps(io.inbox);
    case PopMoveOut(left) => PopMoveKeeps(io.inbox, left);
    case PopReset => PopClearKeeps(io.inbox);
    case PopReturn(flush) => PopReturnRefines(io, flush, coming, cap);
    case PushTail => PushLoadTailKeeps(io.outbox, io.pc.msg);
    case PushHead => PushLoadHeadKeeps(io.outbox);
    case PushPut => PushFillKeeps(io.outbox);
    case PushPublish =>
      PushStoreTailAppends(io.outbox);
      assert (Contents(io.outbox) + [io.pc.msg]) + [] == Contents(io.outbox) + [io.pc.msg];
    case Nudge =>
    case Signal =>
  }

  lemma ContinueAbs(io: Io, t: Thread, coming: seq<InMsg>)
    requires Spsc.Inv(io.inbox) && Spsc.Inv(io.outbox) && |t.outbox| <= 1
    ensures forall back: Resume ::
      AbsThread(Continue(io, t, back), coming)
      == Thread(Contents(io.inbox) + coming, Contents(io.outbox) + t.outbox, t.conns)
  {
    assert t.outbox != [] ==> t.outbox == [t.outbox[0]];
  }

  lemma PopReturnRefines(io: Io, flush: Flush, coming: seq<InMsg>, cap: nat)
    requires IoOk(io, cap) && IoCan(io, PopReturn(flush))
    ensures IoOk(IoDo(io, PopReturn(flush)), cap)
    ensures var t := AbsThread(io, coming);
      && t.inbox != [] && t.inbox[0] == io.inbox.consumer.element
      && AbsThread(IoDo(io, PopReturn(flush)), coming) == Handle(t.(inbox := t.inbox[1..]), t.inbox[0], flush)
  {
    hide Handle, Spsc.Inv, Contents, Spsc.Item;
    var t := AbsThread(io, coming);
    var m := io.inbox.consumer.element;
    PopStoreHeadRemoves(io.inbox);
    var held := Contents(io.inbox);
    assert (held + coming)[1..] == held[1..] + coming;
    HandleLocality(t.(inbox := t.inbox[1..]), m, flush);
    ContinueAbs(io.(inbox := PopStoreHead(io.inbox)), Handle(Local(io.conns), m, flush), coming);
  }

  // ---- Whole states ----

  /** What every reachable state satisfies: the rings and program counters fit, and
      the abstract state is in order. */
  ghost predicate Inv<S(!new)>(exec: Executor<S>, first: S, cap: nat, s: Server<S>) {
    Coupled(s, cap) && Channels.Inv(exec, first, Abs(s, cap))
  }

  lemma StartInv<S(!new)>(exec: Executor<S>, threads: nat, cap: nat, first: S)
    requires threads > 0
    ensures Inv(exec, first, cap, Start(threads, cap, first))
  {
    EmptyInv<InMsg>(cap);
    EmptyInv<OutMsg>(cap);
    var s := Start(threads, cap, first);
    assert Coupled(s, cap);
    var a := Abs(s, cap);
    forall i: nat, fd: int | i < |a.threads| ensures Good(a, i, fd) {
      assert a.threads[i] == Local(map[]);
    }
  }

  lemma OneIo<S>(s: Server<S>, s': Server<S>, i: nat, io: Io, cap: nat)
    requires Coupled(s, cap) && i < |s.io|
    requires s'.io == s.io[i := io] && s'.pc == s.pc && s'.main == s.main
    requires IoOk(io, cap)
    requires io.inbox.producer == s.io[i].inbox.producer && io.outbox.consumer == s.io[i].outbox.consumer
    ensures Coupled(s', cap)
    ensures Abs(s', cap) == Abs(s, cap).(threads := Abs(s, cap).threads[i := AbsThread(io, Coming(s.pc, i))])
  {
  }

  lemma IoStepKeeps<S(!new)>(exec: Executor<S>, first: S, cap: nat, s: Server<S>, i: nat, step: IoStep)
    requires Inv(exec, first, cap, s) && Can(exec, s, OfIo(i, step))
    ensures Inv(exec, first, cap, Do(exec, s, OfIo(i, step)))
  {
    hide Spsc.Inv, Contents, Channels.Inv, Read, CloseConn, FlushConn, Handle;
    var s' := Do(exec, s, OfIo(i, step));
    var io := s.io[i];
    var a := Abs(s, cap);
    IoRefines(io, step, Coming(s.pc, i), cap);
    OneIo(s, s', i, IoDo(io, step), cap);
    assert a.threads[i] == AbsThread(io, Coming(s.pc, i));
    match step
    case Recv(fd, chunk, _) => ReplyOrder.ReadKeeps(exec, first, a, i, fd, chunk);
    case Writable(fd, flush) => ReplyOrder.FlushKeeps(exec, first, a, i, fd, flush);
    case Hup(fd) => ReplyOrder.CloseKeeps(exec, first, a, i, fd);
    case HangupNow => ReplyOrder.CloseKeeps(exec, first, a, i, io.pc.fd);
    case PopReturn(flush) => ReplyOrder.DeliverKeeps(exec, first, a, i, flush);
    case _ => assert Abs(s', cap) == a;
  }

  // ---- Steps of the main thread ----

  /** Replacing thread `i`'s outbox ring and moving the program counter. */
  lemma OutboxStep<S>(s: Server<S>, q: Ring<OutMsg>, pc: MainPc, cap: nat)
    requires Coupled(s, cap) && s.pc.Sweeping?
    requires Spsc.Inv(q) && q.cap == cap && q.producer == s.io[s.pc.i].outbox.producer
    requires q.consumer.Waiting? || pc == s.pc
    requires PcOk(pc, |s.io|)
    ensures var s' := WithOutbox(s, s.pc.i, q).(pc := pc);
      && Coupled(s', cap)
      && (forall j: nat | j < |s.io| :: Abs(s', cap).threads[j] ==
            (if j == s.pc.i
             then Thread(Contents(s.io[j].inbox) + Coming(pc, j), Contents(q) + Going(s.io[j].pc), s.io[j].conns)
             else AbsThread(s.io[j], Coming(pc, j))))
  {
    hide Spsc.Inv, Contents;
  }

  lemma OutboxStutter<S>(s: Server<S>, q: Ring<OutMsg>, pc: MainPc, cap: nat)
    requires Coupled(s, cap) && s.pc.Sweeping?
    requires Spsc.Inv(q) && q.cap == cap && q.producer == s.io[s.pc.i].outbox.producer
    requires Contents(q) == Contents(s.io[s.pc.i].outbox)
    requires q.consumer.Waiting? || pc == s.pc
    requires PcOk(pc, |s.io|) && !pc.Posting?
    ensures var s' := WithOutbox(s, s.pc.i, q).(pc := pc);
      Coupled(s', cap) && Abs(s', cap) == Abs(s, cap)
  {
    hide Spsc.Inv, Contents;
    OutboxStep(s, q, pc, cap);
  }

  lemma InboxStutter<S>(s: Server<S>, q: Ring<InMsg>, pc: MainPc, cap: nat)
    requires Coupled(s, cap) && s.pc.Posting?
    requires Spsc.Inv(q) && q.cap == cap && q.consumer == s.io[s.pc.target].inbox.consumer
    requires pc == s.pc || pc == Ringing(s.pc.target, s.pc.back)
    requires !q.producer.Resting? ==> pc == s.pc && q.producer.element == s.pc.msg
    requires Contents(q) + Coming(pc, s.pc.target)
          == Contents(s.io[s.pc.target].inbox) + [s.pc.msg]
    ensures var s' := WithInbox(s, s.pc.target, q).(pc := pc);
      Coupled(s', cap) && Abs(s', cap) == Abs(s, cap)
  {
    hide Spsc.Inv, Contents;
    var s' := WithInbox(s, s.pc.target, q).(pc := pc);
    assert Coupled(s', cap);
    forall j: nat | j < |s.io| ensures Abs(s', cap).threads[j] == Abs(s, cap).threads[j] {
    }
  }

  lemma IncomingRefines<S>(exec: Executor<S>, s: Server<S>, fd: int, cap: nat)
    requires Coupled(s, cap) && MainCan(exec, s, Incoming(fd))
    ensures var s' := MainDo(exec, s, Incoming(fd));
      Coupled(s', cap) && Abs(s', cap) == Accept(Abs(s, cap), fd)
  {
    hide Spsc.Inv, Contents;
    var s' := MainDo(exec, s, Incoming(fd));
    assert Coupled(s', cap);
    var a, a' := Abs(s, cap), Accept(Abs(s, cap), fd);
    forall j: nat | j < |s.io| ensures Abs(s', cap).threads[j] == a'.threads[j] {
      assert Contents(s.io[j].inbox) + [] == Contents(s.io[j].inbox);
    }
  }

  lemma TakeReturnRefines<S(!new)>(exec: Executor<S>, first: S, s: Server<S>, nows: seq<int>, cap: nat)
    requires Inv(exec, first, cap, s) && MainCan(exec, s, TakeReturn(nows))
    ensures var s' := MainDo(exec, s, TakeReturn(nows));
      && Coupled(s', cap)
      && CanTake(exec, Abs(s, cap), s.pc.i, nows)
      && Abs(s', cap) == Take(exec, Abs(s, cap), s.pc.i, nows)
  {
    hide Spsc.Inv, Contents, RunBatch, Good, Serial;
    var i, a := s.pc.i, Abs(s, cap);
    var q := s.io[i].outbox;
    var m := q.consumer.element;
    PopStoreHeadRemoves(q);
    assert a.threads[i].outbox[0] == m;
    assert (Contents(q) + Going(s.io[i].pc))[1..] == Contents(q)[1..] + Going(s.io[i].pc);
    var answer := Answer(exec, s.main, m, nows);
    var pc := if answer.Some? then Posting(answer.value.0, answer.value.1, ToSweep(i)) else s.pc;
    OutboxStep(s, PopStoreHead(q), pc, cap);
    var s' := MainDo(exec, s, TakeReturn(nows));
    assert s' == WithOutbox(s, i, PopStoreHead(q)).(pc := pc).(main := s'.main);
    assert Coupled(s', cap);
    var a' := Take(exec, a, i, nows);
    forall j: nat | j < |s.io| ensures Abs(s', cap).threads[j] == a'.threads[j] {
      assert Contents(s.io[j].inbox) + [] == Contents(s.io[j].inbox);
    }
  }

  lemma MainStepKeeps<S(!new)>(exec: Executor<S>, first: S, cap: nat, s: Server<S>, step: MainStep)
    requires Inv(exec, first, cap, s) && MainCan(exec, s, step)
    ensures Inv(exec, first, cap, MainDo(exec, s, step))
  {
    hide Spsc.Inv, Contents, Channels.Inv, Adopt, Execute;
    var a := Abs(s, cap);
    match step
    case Incoming(fd) =>
      IncomingRefines(exec, s, fd, cap);
      ReplyOrder.AcceptKeeps(exec, first, a, fd);
    case Attend =>
      assert Coupled(MainDo(exec, s, Attend), cap);
      assert Abs(MainDo(exec, s, Attend), cap) == a;
    case TakeHead =>
      PopLoadHeadKeeps(s.io[s.pc.i].outbox);
      OutboxStutter(s, PopLoadHead(s.io[s.pc.i].outbox), s.pc, cap);
    case TakeTail =>
      PopLoadTailKeeps(s.io[s.pc.i].outbox);
      OutboxStutter(s, PopLoadTail(s.io[s.pc.i].outbox), MainDo(exec, s, TakeTail).pc, cap);
    case TakeMoveOut(left) =>
      PopMoveKeeps(s.io[s.pc.i].outbox, left);
      OutboxStutter(s, PopMove(s.io[s.pc.i].outbox, left), s.pc, cap);
    case TakeReset =>
      PopClearKeeps(s.io[s.pc.i].outbox);
      OutboxStutter(s, PopClear(s.io[s.pc.i].outbox), s.pc, cap);
    case TakeReturn(nows) =>
      TakeReturnRefines(exec, first, s, nows, cap);
      if a.threads[s.pc.i].outbox[0].Batch? {
        ReplyOrder.TakeBatchKeeps(exec, first, a, s.pc.i, nows);
      } else {
        ReplyOrder.TakeDisconnectKeeps(exec, first, a, s.pc.i, nows);
      }
    case PostTail =>
      PushLoadTailKeeps(s.io[s.pc.target].inbox, s.pc.msg);
      InboxStutter(s, PushLoadTail(s.io[s.pc.target].inbox, s.pc.msg), s.pc, cap);
    case PostHead =>
      PushLoadHeadKeeps(s.io[s.pc.target].inbox);
      InboxStutter(s, PushLoadHead(s.io[s.pc.target].inbox), s.pc, cap);
    case PostPut =>
      PushFillKeeps(s.io[s.pc.target].inbox);
      InboxStutter(s, PushFill(s.io[s.pc.target].inbox), s.pc, cap);
    case PostPublish =>
      var q := s.io[s.pc.target].inbox;
      PushStoreTailAppends(q);
      assert (Contents(q) + [s.pc.msg]) + [] == Contents(q) + [s.pc.msg];
      InboxStutter(s, PushStoreTail(q), Ringing(s.pc.target, s.pc.back), cap);
    case Notify =>
      assert Coupled(MainDo(exec, s, Notify), cap);
      assert Abs(MainDo(exec, s, Notify), cap) == a;
  }

  // ---- Every run ----

  /** A run from a freshly started server, one step at a time. */
  ghost predicate IsRun<S(!new)>(exec: Executor<S>, threads: nat, cap: nat, first: S, run: seq<Server<S>>) {
    && threads > 0
    && run != [] && run[0] == Start(threads, cap, first)
    && forall j | 0 <= j < |run| - 1 :: Next(exec, run[j], run[j + 1])
  }

  lemma {:induction false} RunInv<S(!new)>(exec: Executor<S>, threads: nat, cap: nat, first: S,
                                           run: seq<Server<S>>, i: nat)
    requires IsRun(exec, threads, cap, first, run) && i < |run|
    ensures Inv(exec, first, cap, run[i])
  {
    hide Inv;
    if i == 0 {
      StartInv(exec, threads, cap, first);
    } else {
      RunInv(exec, threads, cap, first, run, i - 1);
      assert Next(exec, run[i - 1], run[i - 1 + 1]);
      var step :| Can(exec, run[i - 1], step) && run[i] == Do(exec, run[i - 1], step);
      match step
      case OfIo(k, io) => IoStepKeeps(exec, first, cap, run[i - 1], k, io);
      case OfMain(m) => MainStepKeeps(exec, first, cap, run[i - 1], m);
    }
  }

  /** In every reachable state, for every connection a thread owns: the commands
      executed for it and then those still queued are the values of the bytes it has
      received, and the bytes sent, buffered and on their way back are the replies to
      the executed ones. The replies are those of running the whole log serially. */
  lemma EveryClientIsServed<S(!new)>(exec: Executor<S>, threads: nat, cap: nat, first: S,
                                     run: seq<Server<S>>, i: nat, k: nat, fd: int)
    requires IsRun(exec, threads, cap, first, run) && i < |run|
    requires k < |run[i].io| && fd in run[i].io[k].conns
    ensures Coupled(run[i], cap)
    ensures var s := run[i];
      var io := s.io[k];
      var c := io.conns[fd];
      && fd in s.main.since && s.main.since[fd] <= |s.main.log|
      && var served := OfFd(s.main.log[s.main.since[fd]..], fd);
      && RespQueue.Greedy(c.received) ==
           RespQueue.Drained(Requests(served) + Queued(OutOf(Contents(io.outbox) + Going(io.pc), fd)),
                             c.buffer, false)
      && c.sent + c.out + Bytes(InOf(Contents(io.inbox) + Coming(s.pc, k), fd)) == Replies(served)
      && Serial(exec, first, s.main.log, s.main.store)
  {
    hide RespQueue.Greedy, OutOf, InOf, OfFd, Contents, Serial;
    RunInv(exec, threads, cap, first, run, i);
    var a := Abs(run[i], cap);
    assert a.threads[k] == AbsThread(run[i].io[k], Coming(run[i].pc, k));
    assert Good(a, k, fd);
  }
}
