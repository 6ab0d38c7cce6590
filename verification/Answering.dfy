/** Who is answered. A client that has been accepted and is not on its way out is welcome:
    it stays so through every step of the threads during which no socket fails, and when the
    pipeline comes to rest it is connected and everything it has asked is answered. A client
    whose peer is gone is disconnected by then. */
module Answering {
  import opened Text
  import opened Resp
  import opened Channels
  import opened Spsc
  import opened Pipeline
  import opened Refinement
  import opened Progress
  import opened Settling
  import RespQueue
  import ReplyOrder
  import Lifecycle

  // ---- On the way out ----

  /** The thread has seen the end of `fd` and will close it once it has emitted. */
  predicate HangingUp(io: Io, fd: int) {
    match io.pc
    case Hangup(f) => f == fd
    case Emitting(_, back) => back == ToHangup(fd)
    case Nudging(_, back) => back == ToHangup(fd)
    case Signalling(back) => back == ToHangup(fd)
    case _ => false
  }

  /** A read that meets the end of the stream closes the connection or is about to. */
  lemma PeerGoneHangsUp(io: Io, fd: int, chunk: string)
    requires IoCan(io, Recv(fd, chunk, false)) && fd in io.conns
    ensures var io' := IoDo(io, Recv(fd, chunk, false)); fd !in io'.conns || HangingUp(io', fd)
  {
    hide RespQueue.Greedy;
  }

  lemma HangupStep(io: Io, step: IoStep, fd: int)
    requires IoCan(io, step) && (HangingUp(io, fd) ==> fd in io.conns)
    ensures HangingUp(IoDo(io, step), fd) ==> fd in IoDo(io, step).conns
  {
    hide RespQueue.Greedy;
  }

  /** Only connections the thread holds are being hung up. */
  lemma {:induction false} HangupsAreLive<S(!new)>(exec: Executor<S>, threads: nat, cap: nat, first: S,
                                                   run: seq<Server<S>>, i: nat, k: nat, fd: int)
    requires IsRun(exec, threads, cap, first, run) && i < |run|
    requires k < |run[i].io| && HangingUp(run[i].io[k], fd)
    ensures fd in run[i].io[k].conns
  {
    hide *;
    if i > 0 {
      var step := StepTo(exec, threads, cap, first, run, i);
      SameThreads(exec, run[i - 1], step);
      if HangingUp(run[i - 1].io[k], fd) {
        HangupsAreLive(exec, threads, cap, first, run, i - 1, k, fd);
      }
      HangupsStayLive(exec, run[i - 1], step, k, fd);
    } else {
      NoHangupAtStart(exec, threads, cap, first, run, k, fd);
    }
  }

  lemma NoHangupAtStart<S(!new)>(exec: Executor<S>, threads: nat, cap: nat, first: S, run: seq<Server<S>>,
                                 k: nat, fd: int)
    requires IsRun(exec, threads, cap, first, run) && k < |run[0].io|
    ensures !HangingUp(run[0].io[k], fd)
  {
    hide Next;
  }

  lemma HangupsStayLive<S(!new)>(exec: Executor<S>, s: Server<S>, step: Step, k: nat, fd: int)
    requires Can(exec, s, step) && k < |s.io| && |Do(exec, s, step).io| == |s.io|
    requires HangingUp(s.io[k], fd) ==> fd in s.io[k].conns
    ensures HangingUp(Do(exec, s, step).io[k], fd) ==> fd in Do(exec, s, step).io[k].conns
  {
    hide IoDo, IoCan, MainDo, MainCan;
    if step.OfMain? {
      Lifecycle.MainLeavesConns(exec, s, step.m, k);
    } else if step.i == k {
      HangupStep(s.io[k], step.io, fd);
    }
  }

  lemma StepTo<S(!new)>(exec: Executor<S>, threads: nat, cap: nat, first: S, run: seq<Server<S>>, i: nat)
    returns (step: Step)
    requires IsRun(exec, threads, cap, first, run) && 0 < i < |run|
    ensures Can(exec, run[i - 1], step) && run[i] == Do(exec, run[i - 1], step)
  {
    hide Can, Do;
    assert Next(exec, run[i - 1], run[i - 1 + 1]);
    step :| Can(exec, run[i - 1], step) && run[i] == Do(exec, run[i - 1], step);
  }

  lemma SameThreads<S(!new)>(exec: Executor<S>, s: Server<S>, step: Step)
    requires Can(exec, s, step)
    ensures |Do(exec, s, step).io| == |s.io|
  {
    hide Execute, Answer, Adopt, IoDo;
  }

  // ---- Welcome ----

  /** Everything thread `k` has told the main thread and it has not yet taken. */
  ghost function Told<S>(s: Server<S>, k: nat, cap: nat): seq<OutMsg>
    requires Coupled(s, cap) && k < |s.io|
  {
    Contents(s.io[k].outbox) + Going(s.io[k].pc)
  }

  /** `fd` is routed to thread `k`, which has not closed it and is not about to. */
  ghost predicate Welcome<S>(s: Server<S>, k: nat, fd: int, cap: nat)
    requires Coupled(s, cap)
  {
    && k < |s.io|
    && fd in s.main.route && s.main.route[fd] == k
    && Disconnect(fd) !in Told(s, k, cap)
    && !HangingUp(s.io[k], fd)
  }

  lemma {:induction false} InOutOf(ms: seq<OutMsg>, m: OutMsg)
    requires m in ms
    ensures m in OutOf(ms, m.fd)
  {
    hide OutOf;
    ReplyOrder.OutOfFirst(ms, m.fd);
    if ms[0] != m {
      InOutOf(ms[1..], m);
    }
  }

  /** A connected client whose peer is there is welcome. */
  lemma ConnectedIsWelcome<S(!new)>(exec: Executor<S>, first: S, cap: nat, s: Server<S>, k: nat, fd: int)
    requires Refinement.Inv(exec, first, cap, s) && k < |s.io|
    requires fd in s.io[k].conns && !HangingUp(s.io[k], fd)
    ensures Welcome(s, k, fd, cap)
  {
    hide RespQueue.Greedy, OutOf, InOf, OfFd, Contents, Serial, Spsc.Inv;
    var a := Abs(s, cap);
    assert a.threads[k] == AbsThread(s.io[k], Coming(s.pc, k));
    assert Good(a, k, fd);
    if Disconnect(fd) in Told(s, k, cap) {
      InOutOf(Told(s, k, cap), Disconnect(fd));
    }
  }

  /** So is one that has just been accepted. */
  lemma AcceptedIsWelcome<S(!new)>(exec: Executor<S>, threads: nat, cap: nat, first: S, run: seq<Server<S>>, fd: int)
    requires IsRun(exec, threads, cap, first, run)
    requires var s := run[|run| - 1]; MainCan(exec, s, Incoming(fd))
    ensures var s' := MainDo(exec, run[|run| - 1], Incoming(fd));
      Coupled(s', cap) && Welcome(s', run[|run| - 1].main.next, fd, cap)
  {
    var s := run[|run| - 1];
    var k := s.main.next;
    RunInv(exec, threads, cap, first, run, |run| - 1);
    NotRouted(exec, first, cap, s, k, fd);
    if HangingUp(s.io[k], fd) {
      HangupsAreLive(exec, threads, cap, first, run, |run| - 1, k, fd);
    }
    hide Refinement.Inv, IsRun, Spsc.Inv, Contents;
    IncomingIsCoupled(exec, first, cap, s, fd);
  }

  lemma IncomingIsCoupled<S(!new)>(exec: Executor<S>, first: S, cap: nat, s: Server<S>, fd: int)
    requires Refinement.Inv(exec, first, cap, s) && MainCan(exec, s, Incoming(fd))
    ensures Coupled(MainDo(exec, s, Incoming(fd)), cap)
  {
    hide Channels.Inv;
    IncomingRefines(exec, s, fd, cap);
  }

  /** No thread holds a descriptor that is not routed, or speaks of it. */
  lemma NotRouted<S(!new)>(exec: Executor<S>, first: S, cap: nat, s: Server<S>, k: nat, fd: int)
    requires Refinement.Inv(exec, first, cap, s) && k < |s.io| && fd !in s.main.route
    ensures fd !in s.io[k].conns && Disconnect(fd) !in Told(s, k, cap)
  {
    hide RespQueue.Greedy, OutOf, InOf, OfFd, Contents, Serial, Spsc.Inv;
    var a := Abs(s, cap);
    assert a.threads[k] == AbsThread(s.io[k], Coming(s.pc, k));
    assert Good(a, k, fd);
    if Disconnect(fd) in Told(s, k, cap) {
      InOutOf(Told(s, k, cap), Disconnect(fd));
    }
  }

  // ---- It stays welcome ----

  lemma IoKeepsWelcome(io: Io, step: IoStep, fd: int, cap: nat)
    requires IoOk(io, cap) && IoCan(io, step) && IoOk(IoDo(io, step), cap)
    requires Settling.Inward(step) && (step.PopReturn? ==> step.flush.Sent?)
    requires !HangingUp(io, fd) && Disconnect(fd) !in Contents(io.outbox) + Going(io.pc)
    ensures !HangingUp(IoDo(io, step), fd)
    ensures Disconnect(fd) !in Contents(IoDo(io, step).outbox) + Going(IoDo(io, step).pc)
  {
    hide Spsc.Inv, Contents;
    match step
    case PushTail => PushLoadTailKeeps(io.outbox, io.pc.msg);
    case PushHead => PushLoadHeadKeeps(io.outbox);
    case PushPut => PushFillKeeps(io.outbox);
    case PushPublish => PushStoreTailAppends(io.outbox);
    case PopReturn(flush) =>
    case _ =>
  }

  lemma TakeKeepsWelcome<S(!new)>(exec: Executor<S>, first: S, cap: nat, s: Server<S>, step: MainStep, k: nat, fd: int)
    requires Refinement.Inv(exec, first, cap, s) && MainCan(exec, s, step) && SweepingAt(s) && Welcome(s, k, fd, cap)
    requires Coupled(MainDo(exec, s, step), cap)
    ensures Welcome(MainDo(exec, s, step), k, fd, cap)
  {
    var q := s.io[s.pc.i].outbox;
    if step.TakeReturn? {
      PopStoreHeadRemoves(q);
      TakenIsOwned(exec, first, cap, s);
    }
    hide Spsc.Inv, Contents, Channels.Inv, RunBatch, Channels.Replies;
    match step
    case TakeHead => PopLoadHeadKeeps(q);
    case TakeTail => PopLoadTailKeeps(q);
    case TakeMoveOut(left) => PopMoveKeeps(q, left);
    case TakeReset => PopClearKeeps(q);
    case TakeReturn(nows) =>
  }

  /** The message about to be taken is of a descriptor routed to its thread. */
  lemma TakenIsOwned<S(!new)>(exec: Executor<S>, first: S, cap: nat, s: Server<S>)
    requires Refinement.Inv(exec, first, cap, s) && SweepingAt(s) && s.io[s.pc.i].outbox.consumer.Cleared?
    ensures var m := s.io[s.pc.i].outbox.consumer.element;
      m.fd in s.main.route && s.main.route[m.fd] == s.pc.i && m in Told(s, s.pc.i, cap)
  {
    hide Spsc.Inv, Contents, Channels.Inv;
    var i, a := s.pc.i, Abs(s, cap);
    PopStoreHeadRemoves(s.io[i].outbox);
    assert a.threads[i] == AbsThread(s.io[i], Coming(s.pc, i));
    assert a.threads[i].outbox[0] == Contents(s.io[i].outbox)[0];
    ReplyOrder.OutboxOwner(exec, first, a, i);
  }

  lemma MainKeepsWelcome<S(!new)>(exec: Executor<S>, first: S, cap: nat, s: Server<S>, step: MainStep, k: nat, fd: int)
    requires Refinement.Inv(exec, first, cap, s) && MainCan(exec, s, step) && !step.Incoming? && Welcome(s, k, fd, cap)
    requires Coupled(MainDo(exec, s, step), cap)
    ensures Welcome(MainDo(exec, s, step), k, fd, cap)
  {
    if SweepingAt(s) {
      TakeKeepsWelcome(exec, first, cap, s, step, k, fd);
    } else {
      hide Spsc.Inv, Contents, Channels.Inv;
    }
  }

  lemma IoStepKeepsWelcome<S(!new)>(exec: Executor<S>, s: Server<S>, i: nat, step: IoStep, k: nat, fd: int, cap: nat)
    requires Coupled(s, cap) && Can(exec, s, OfIo(i, step)) && Coupled(Do(exec, s, OfIo(i, step)), cap)
    requires Settling.Inward(step) && (step.PopReturn? ==> step.flush.Sent?) && Welcome(s, k, fd, cap)
    ensures Welcome(Do(exec, s, OfIo(i, step)), k, fd, cap)
  {
    hide Spsc.Inv, Contents, IoDo, IoCan, HangingUp, Going;
    assert IoOk(Do(exec, s, OfIo(i, step)).io[i], cap);
    if i == k {
      IoKeepsWelcome(s.io[k], step, fd, cap);
    }
  }

  lemma StepKeepsWelcome<S(!new)>(exec: Executor<S>, first: S, cap: nat, s: Server<S>, step: Step, k: nat, fd: int)
    requires Refinement.Inv(exec, first, cap, s) && Productive(exec, s, step, cap) && Gentle(step)
    requires Coupled(Do(exec, s, step), cap) && Welcome(s, k, fd, cap)
    ensures Welcome(Do(exec, s, step), k, fd, cap)
  {
    hide Spsc.Inv, Contents, IoDo, IoCan, MainDo, MainCan, Channels.Inv, Welcome, Coupled, Retry;
    match step
    case OfMain(m) => MainKeepsWelcome(exec, first, cap, s, m, k, fd);
    case OfIo(i, io) => IoStepKeepsWelcome(exec, s, i, io, k, fd, cap);
  }

  // ---- Out it goes ----

  /** On its way out, or out and not on its way in. */
  ghost predicate Leaving<S>(s: Server<S>, k: nat, fd: int, cap: nat)
    requires Coupled(s, cap) && k < |s.io|
  {
    HangingUp(s.io[k], fd) || (fd !in s.io[k].conns && Assign(fd) !in Contents(s.io[k].inbox) + Coming(s.pc, k))
  }

  lemma {:induction false} InInOf(ms: seq<InMsg>, m: InMsg)
    requires m in ms
    ensures m in InOf(ms, m.fd)
  {
    hide InOf;
    ReplyOrder.InOfFirst(ms, m.fd);
    if ms[0] != m {
      InInOf(ms[1..], m);
    }
  }

  /** A connection the thread holds is not being assigned again. */
  lemma NotAssignedTwice<S(!new)>(exec: Executor<S>, first: S, cap: nat, s: Server<S>, k: nat, fd: int)
    requires Refinement.Inv(exec, first, cap, s) && k < |s.io| && fd in s.io[k].conns
    ensures Assign(fd) !in Contents(s.io[k].inbox) + Coming(s.pc, k)
  {
    hide RespQueue.Greedy, OutOf, InOf, OfFd, Contents, Serial, Spsc.Inv;
    var a, ms := Abs(s, cap), Contents(s.io[k].inbox) + Coming(s.pc, k);
    assert a.threads[k] == AbsThread(s.io[k], Coming(s.pc, k));
    assert Good(a, k, fd);
    if Assign(fd) in ms {
      InInOf(ms, Assign(fd));
    }
  }

  lemma IoKeepsLeaving(io: Io, step: IoStep, fd: int, coming: seq<InMsg>, cap: nat)
    requires IoOk(io, cap) && IoCan(io, step) && IoOk(IoDo(io, step), cap) && Settling.Inward(step)
    requires fd in io.conns ==> HangingUp(io, fd)
    requires Assign(fd) !in Contents(io.inbox) + coming
    ensures fd in IoDo(io, step).conns ==> HangingUp(IoDo(io, step), fd)
    ensures Assign(fd) !in Contents(IoDo(io, step).inbox) + coming
  {
    hide Spsc.Inv, Contents;
    match step
    case PopHead => PopLoadHeadKeeps(io.inbox);
    case PopTail => PopLoadTailKeeps(io.inbox);
    case PopMoveOut(left) => PopMoveKeeps(io.inbox, left);
    case PopReset => PopClearKeeps(io.inbox);
    case PopReturn(flush) => PopStoreHeadRemoves(io.inbox);
    case _ =>
  }

  lemma MainKeepsLeaving<S(!new)>(exec: Executor<S>, s: Server<S>, step: MainStep, k: nat, fd: int, cap: nat)
    requires Coupled(s, cap) && MainCan(exec, s, step) && !step.Incoming? && k < |s.io|
    requires Coupled(MainDo(exec, s, step), cap)
    requires Assign(fd) !in Contents(s.io[k].inbox) + Coming(s.pc, k)
    ensures var s' := MainDo(exec, s, step);
      |s'.io| == |s.io| && Assign(fd) !in Contents(s'.io[k].inbox) + Coming(s'.pc, k)
  {
    hide Spsc.Inv, Contents, RunBatch, Channels.Replies, Execute;
    if PostingAt(s) {
      var q := s.io[s.pc.target].inbox;
      match step
      case PostTail => PushLoadTailKeeps(q, s.pc.msg);
      case PostHead => PushLoadHeadKeeps(q);
      case PostPut => PushFillKeeps(q);
      case PostPublish => PushStoreTailAppends(q);
    }
  }

  lemma StepKeepsLeaving<S(!new)>(exec: Executor<S>, first: S, cap: nat, s: Server<S>, step: Step, k: nat, fd: int)
    requires Refinement.Inv(exec, first, cap, s) && Productive(exec, s, step, cap)
    requires Coupled(Do(exec, s, step), cap) && k < |s.io| && Leaving(s, k, fd, cap)
    requires HangingUp(s.io[k], fd) ==> fd in s.io[k].conns
    ensures |Do(exec, s, step).io| == |s.io| && Leaving(Do(exec, s, step), k, fd, cap)
  {
    if fd in s.io[k].conns {
      NotAssignedTwice(exec, first, cap, s, k, fd);
    }
    hide Spsc.Inv, Contents, IoDo, IoCan, MainDo, MainCan, Channels.Inv, HangingUp, Retry, Coming, Coupled;
    match step
    case OfMain(m) => MainStepLeaving(exec, s, m, k, fd, cap);
    case OfIo(i, io) => IoStepLeaving(exec, s, i, io, k, fd, cap);
  }

  lemma MainStepLeaving<S(!new)>(exec: Executor<S>, s: Server<S>, step: MainStep, k: nat, fd: int, cap: nat)
    requires Coupled(s, cap) && MainCan(exec, s, step) && !step.Incoming? && Coupled(MainDo(exec, s, step), cap)
    requires k < |s.io| && (fd in s.io[k].conns ==> HangingUp(s.io[k], fd))
    requires Assign(fd) !in Contents(s.io[k].inbox) + Coming(s.pc, k)
    ensures |MainDo(exec, s, step).io| == |s.io| && Leaving(MainDo(exec, s, step), k, fd, cap)
  {
    hide Spsc.Inv, Contents, MainDo, MainCan, HangingUp, Coming;
    MainKeepsLeaving(exec, s, step, k, fd, cap);
    Lifecycle.MainLeavesConns(exec, s, step, k);
    SamePcHangs(s.io[k], MainDo(exec, s, step).io[k], fd);
  }

  lemma IoStepLeaving<S(!new)>(exec: Executor<S>, s: Server<S>, i: nat, step: IoStep, k: nat, fd: int, cap: nat)
    requires Coupled(s, cap) && Can(exec, s, OfIo(i, step)) && Settling.Inward(step)
    requires Coupled(Do(exec, s, OfIo(i, step)), cap)
    requires k < |s.io| && (fd in s.io[k].conns ==> HangingUp(s.io[k], fd))
    requires Assign(fd) !in Contents(s.io[k].inbox) + Coming(s.pc, k)
    ensures Leaving(Do(exec, s, OfIo(i, step)), k, fd, cap)
  {
    hide Spsc.Inv, Contents, IoDo, IoCan, HangingUp, Coming;
    assert IoOk(Do(exec, s, OfIo(i, step)).io[i], cap);
    if i == k {
      IoKeepsLeaving(s.io[k], step, fd, Coming(s.pc, k), cap);
    }
  }

  lemma SamePcHangs(io: Io, io': Io, fd: int)
    requires io'.pc == io.pc
    ensures HangingUp(io', fd) <==> HangingUp(io, fd)
  {
  }

  // ---- At rest ----

  /** At rest the connections of the threads are exactly the routed descriptors. */
  lemma AtRestRoutedIsConnected<S(!new)>(exec: Executor<S>, first: S, cap: nat, s: Server<S>, k: nat, fd: int)
    requires Refinement.Inv(exec, first, cap, s) && !WorkPending(s, cap) && k < |s.io|
    ensures fd in s.io[k].conns <==> fd in s.main.route && s.main.route[fd] == k
  {
    hide RespQueue.Greedy, OfFd, Serial, Spsc.Inv;
    var a, io := Abs(s, cap), s.io[k];
    assert !IoBusy(io);
    assert Contents(io.outbox) + Going(io.pc) == [] && Contents(io.inbox) + Coming(s.pc, k) == [];
    assert a.threads[k] == Thread([], [], io.conns);
    assert Good(a, k, fd);
  }

  /** What the continuation of a run owes a client: it is connected and answered, for the
      bytes it had sent; and one on its way out is gone. */
  ghost predicate Served<S>(before: Server<S>, after: Server<S>, k: nat, fd: int, cap: nat)
    requires Coupled(before, cap) && Coupled(after, cap) && k < |before.io| && k < |after.io|
  {
    && (Welcome(before, k, fd, cap) ==>
          && fd in after.io[k].conns && Answered(after, k, fd)
          && (fd in before.io[k].conns ==>
                after.io[k].conns[fd].received == before.io[k].conns[fd].received))
    && (HangingUp(before.io[k], fd) ==> fd !in after.io[k].conns)
  }

  /** What each step on the way keeps. */
  ghost predicate OnTheWay<S>(before: Server<S>, now: Server<S>, k: nat, fd: int, cap: nat)
    requires Coupled(before, cap) && Coupled(now, cap)
  {
    && |now.io| == |before.io| && k < |before.io|
    && (Welcome(before, k, fd, cap) ==>
          && Welcome(now, k, fd, cap)
          && (fd in before.io[k].conns ==>
                fd in now.io[k].conns && now.io[k].conns[fd].received == before.io[k].conns[fd].received))
    && (HangingUp(before.io[k], fd) ==> Leaving(now, k, fd, cap))
  }

  /** A gentle step from inside ends no welcome connection and reads nothing. */
  lemma ConnectionStays<S(!new)>(exec: Executor<S>, threads: nat, cap: nat, first: S, run: seq<Server<S>>, i: nat,
                                 step: Step, k: nat, fd: int)
    requires IsRun(exec, threads, cap, first, run) && i < |run| && Can(exec, run[i], step)
    requires !External(step) && Gentle(step)
    requires k < |run[i].io| && fd in run[i].io[k].conns && !HangingUp(run[i].io[k], fd)
    ensures var s' := Do(exec, run[i], step);
      && |s'.io| == |run[i].io| && fd in s'.io[k].conns
      && s'.io[k].conns[fd].received == run[i].io[k].conns[fd].received
  {
    Lifecycle.ConnectionLaw(exec, threads, cap, first, run, i, step, k, fd);
    hide IsRun, Do, RespQueue.Greedy;
    var c := run[i].io[k].conns[fd];
    assert c.received + "" == c.received;
  }

  lemma OneStepOnTheWay<S(!new)>(exec: Executor<S>, threads: nat, cap: nat, first: S, run: seq<Server<S>>, j: nat,
                                 before: Server<S>, k: nat, fd: int)
    requires IsRun(exec, threads, cap, first, run) && j + 1 < |run|
    requires Coupled(before, cap) && Coupled(run[j], cap) && Coupled(run[j + 1], cap)
    requires GentleNext(exec, run[j], run[j + 1], cap) && OnTheWay(before, run[j], k, fd, cap)
    ensures OnTheWay(before, run[j + 1], k, fd, cap)
  {
    var s := run[j];
    RunInv(exec, threads, cap, first, run, j);
    var step :| Productive(exec, s, step, cap) && Gentle(step) && run[j + 1] == Do(exec, s, step);
    if HangingUp(s.io[k], fd) {
      HangupsAreLive(exec, threads, cap, first, run, j, k, fd);
    }
    hide IsRun, Do, Can, Channels.Inv, Coupled, Welcome, Leaving, HangingUp, Retry, External;
    SameSize(exec, s, step);
    if Welcome(before, k, fd, cap) {
      StepKeepsWelcome(exec, first, cap, s, step, k, fd);
      if fd in s.io[k].conns {
        WelcomeStays(s, k, fd, cap);
        ConnectionStays(exec, threads, cap, first, run, j, step, k, fd);
      }
    }
    if HangingUp(before.io[k], fd) {
      StepKeepsLeaving(exec, first, cap, s, step, k, fd);
    }
  }

  lemma SameSize<S(!new)>(exec: Executor<S>, s: Server<S>, step: Step)
    requires Can(exec, s, step)
    ensures |Do(exec, s, step).io| == |s.io|
  {
    hide IoDo, IoCan, MainDo, MainCan;
    if step.OfMain? {
      SameThreads(exec, s, step);
    }
  }

  lemma WelcomeStays<S>(s: Server<S>, k: nat, fd: int, cap: nat)
    requires Coupled(s, cap) && Welcome(s, k, fd, cap)
    ensures k < |s.io| && !HangingUp(s.io[k], fd)
  {
  }

  lemma {:induction false} StillOnTheWay<S(!new)>(exec: Executor<S>, threads: nat, cap: nat, first: S,
                                                  run: seq<Server<S>>, i: nat, j: nat, k: nat, fd: int)
    requires IsRun(exec, threads, cap, first, run) && i <= j < |run|
    requires forall n | i <= n < |run| - 1 :: GentleNext(exec, run[n], run[n + 1], cap)
    requires Coupled(run[i], cap) && k < |run[i].io|
    ensures Coupled(run[j], cap) && OnTheWay(run[i], run[j], k, fd, cap)
  {
    hide *;
    CoupledAt(exec, threads, cap, first, run, j);
    if i == j {
      OnTheWaySelf(run[i], k, fd, cap);
    } else {
      StillOnTheWay(exec, threads, cap, first, run, i, j - 1, k, fd);
      assert GentleNext(exec, run[j - 1], run[j - 1 + 1], cap);
      OneStepOnTheWay(exec, threads, cap, first, run, j - 1, run[i], k, fd);
    }
  }

  lemma OnTheWaySelf<S>(s: Server<S>, k: nat, fd: int, cap: nat)
    requires Coupled(s, cap) && k < |s.io|
    ensures OnTheWay(s, s, k, fd, cap)
  {
  }

  lemma CoupledAt<S(!new)>(exec: Executor<S>, threads: nat, cap: nat, first: S, run: seq<Server<S>>, j: nat)
    requires IsRun(exec, threads, cap, first, run) && j < |run|
    ensures Coupled(run[j], cap)
  {
    RunInv(exec, threads, cap, first, run, j);
  }

  /** Put together: whatever has happened, if nothing more comes from outside and no socket
      fails, the server can go on until every client accepted and not on its way out is
      connected and has everything it asked answered, and every one on its way out is gone;
      or it runs into the wait. */
  lemma EveryClientIsAnsweredUnlessDeadlock<S(!new)>(exec: Executor<S>, threads: nat, cap: nat, first: S,
                                                     run: seq<Server<S>>)
    returns (run': seq<Server<S>>)
    requires cap > 0 && IsRun(exec, threads, cap, first, run)
    ensures IsRun(exec, threads, cap, first, run') && GoesOn(exec, run, run', cap)
    ensures var before, after := run[|run| - 1], run'[|run'| - 1];
      && Coupled(before, cap) && Coupled(after, cap) && |after.io| == |before.io|
      && ((exists i: nat :: Deadlock(after, i, cap)) ||
          forall k: nat, fd | k < |after.io| :: Served(before, after, k, fd, cap))
  {
    run' := EveryRunSettles(exec, threads, cap, first, run);
    var i, j := |run| - 1, |run'| - 1;
    var before, after := run[i], run'[j];
    assert run'[i] == before;
    CoupledAt(exec, threads, cap, first, run', i);
    hide IsRun, Answered, Deadlock, GentleNext, Coupled, WorkPending, Welcome, HangingUp, Leaving, Stopped;
    SizesAgree(exec, threads, cap, first, run', i, j);
    if !WorkPending(after, cap) {
      forall k: nat, fd | k < |after.io| ensures Served(before, after, k, fd, cap) {
        ServedAtRest(exec, threads, cap, first, run', i, k, fd);
      }
    } else {
      StoppedAtWork(after, cap);
    }
  }

  lemma StoppedAtWork<S(!new)>(s: Server<S>, cap: nat)
    requires Coupled(s, cap) && Stopped(s, cap) && WorkPending(s, cap)
    ensures exists i: nat :: Deadlock(s, i, cap)
  {
  }

  lemma {:induction false} SizesAgree<S(!new)>(exec: Executor<S>, threads: nat, cap: nat, first: S,
                                               run: seq<Server<S>>, i: nat, j: nat)
    requires IsRun(exec, threads, cap, first, run) && i <= j < |run|
    ensures |run[j].io| == |run[i].io|
  {
    if i < j {
      SizesAgree(exec, threads, cap, first, run, i, j - 1);
      assert Next(exec, run[j - 1], run[j - 1 + 1]);
      var step :| Can(exec, run[j - 1], step) && run[j] == Do(exec, run[j - 1], step);
      hide Do, Can, IsRun;
      SameSize(exec, run[j - 1], step);
    }
  }

  lemma ServedAtRest<S(!new)>(exec: Executor<S>, threads: nat, cap: nat, first: S, run: seq<Server<S>>, i: nat,
                              k: nat, fd: int)
    requires IsRun(exec, threads, cap, first, run) && i < |run|
    requires forall n | i <= n < |run| - 1 :: GentleNext(exec, run[n], run[n + 1], cap)
    requires Coupled(run[i], cap) && k < |run[i].io| && k < |run[|run| - 1].io|
    requires Coupled(run[|run| - 1], cap) && !WorkPending(run[|run| - 1], cap)
    ensures Served(run[i], run[|run| - 1], k, fd, cap)
  {
    var j := |run| - 1;
    var s := run[j];
    RunInv(exec, threads, cap, first, run, j);
    hide IsRun, Channels.Inv, GentleNext, Answered, Spsc.Inv, Contents;
    StillOnTheWay(exec, threads, cap, first, run, i, j, k, fd);
    assert !IoBusy(s.io[k]);
    if Welcome(run[i], k, fd, cap) {
      AtRestRoutedIsConnected(exec, first, cap, s, k, fd);
      AtRestAllIsAnswered(exec, threads, cap, first, run, j, k, fd);
    }
  }

  // ---- One client, from outside ----

  ghost predicate HasDeadlock<S(!new)>(s: Server<S>, cap: nat)
    requires Coupled(s, cap)
  {
    exists i: nat :: Deadlock(s, i, cap)
  }

  lemma OneEvent<S(!new)>(exec: Executor<S>, threads: nat, cap: nat, first: S, run: seq<Server<S>>, step: Step)
    returns (longer: seq<Server<S>>)
    requires IsRun(exec, threads, cap, first, run) && Can(exec, run[|run| - 1], step)
    ensures longer == run + [Do(exec, run[|run| - 1], step)] && IsRun(exec, threads, cap, first, longer)
  {
    hide Do, Can;
    longer := run + [Do(exec, run[|run| - 1], step)];
    forall j | 0 <= j < |longer| - 1 ensures Next(exec, longer[j], longer[j + 1]) {
      if j < |run| - 1 {
        assert Next(exec, run[j], run[j + 1]);
      }
    }
  }

  /** A client that connects while the main thread is polling is connected in the end, or
      the wait is reached. */
  lemma ClientConnects<S(!new)>(exec: Executor<S>, threads: nat, cap: nat, first: S, run: seq<Server<S>>, fd: int)
    returns (run': seq<Server<S>>)
    requires cap > 0 && IsRun(exec, threads, cap, first, run)
    requires run[|run| - 1].pc.Polling? && fd !in run[|run| - 1].main.route
    ensures IsRun(exec, threads, cap, first, run') && run <= run'
    ensures var k, s := run[|run| - 1].main.next, run'[|run'| - 1];
      && Coupled(s, cap) && k < |s.io|
      && (HasDeadlock(s, cap) || (fd in s.io[k].conns && Answered(s, k, fd)))
  {
    var s := run[|run| - 1];
    RunInv(exec, threads, cap, first, run, |run| - 1);
    assert Channels.Shape(Abs(s, cap));
    AcceptedIsWelcome(exec, threads, cap, first, run, fd);
    var longer := OneEvent(exec, threads, cap, first, run, OfMain(Incoming(fd)));
    hide IsRun, Answered, Deadlock, GentleNext, Welcome, Refinement.Inv, HangingUp;
    run' := EveryClientIsAnsweredUnlessDeadlock(exec, threads, cap, first, longer);
    var k := s.main.next;
    var after := run'[|run'| - 1];
    if !HasDeadlock(after, cap) {
      assert Served(longer[|longer| - 1], after, k, fd, cap);
    }
  }

  /** A client that sends bytes, none of them malformed, while its thread is idle is
      answered for them and all it sent before, or the wait is reached. */
  lemma ClientAsks<S(!new)>(exec: Executor<S>, threads: nat, cap: nat, first: S, run: seq<Server<S>>,
                            k: nat, fd: int, chunk: string)
    returns (run': seq<Server<S>>)
    requires cap > 0 && IsRun(exec, threads, cap, first, run)
    requires var s := run[|run| - 1]; k < |s.io| && s.io[k].pc.Idle? && fd in s.io[k].conns
    requires !RespQueue.Greedy(run[|run| - 1].io[k].conns[fd].received + chunk).malformed
    ensures IsRun(exec, threads, cap, first, run') && run <= run'
    ensures var s, s' := run[|run| - 1], run'[|run'| - 1];
      && Coupled(s', cap) && k < |s'.io|
      && (HasDeadlock(s', cap) ||
          (&& fd in s'.io[k].conns && Answered(s', k, fd)
           && s'.io[k].conns[fd].received == s.io[k].conns[fd].received + chunk))
  {
    var s := run[|run| - 1];
    var step := OfIo(k, Recv(fd, chunk, true));
    assert Can(exec, s, step);
    Lifecycle.ConnectionLaw(exec, threads, cap, first, run, |run| - 1, step, k, fd);
    var longer := OneEvent(exec, threads, cap, first, run, step);
    StaysConnected(s.io[k], fd, chunk);
    RunInv(exec, threads, cap, first, longer, |longer| - 1);
    hide IsRun, Answered, Deadlock, GentleNext, Welcome, HangingUp, RespQueue.Greedy, IoDo, Channels.Inv;
    var s1 := longer[|longer| - 1];
    ConnectedIsWelcome(exec, first, cap, s1, k, fd);
    run' := EveryClientIsAnsweredUnlessDeadlock(exec, threads, cap, first, longer);
    var after := run'[|run'| - 1];
    if !HasDeadlock(after, cap) {
      assert Served(s1, after, k, fd, cap);
    }
  }

  /** A read from a peer that is there does not hang up. */
  lemma StaysConnected(io: Io, fd: int, chunk: string)
    requires io.pc.Idle?
    ensures !HangingUp(IoDo(io, Recv(fd, chunk, true)), fd)
  {
    hide RespQueue.Greedy;
  }

  /** And when its socket then takes all it is offered, the client has been sent exactly the
      replies to everything it asked. */
  lemma ThenAllIsSent<S(!new)>(exec: Executor<S>, s: Server<S>, k: nat, fd: int)
    requires k < |s.io| && s.io[k].pc.Idle? && fd in s.io[k].conns && Answered(s, k, fd)
    ensures var step := OfIo(k, Writable(fd, Sent(|s.io[k].conns[fd].out|)));
      && Can(exec, s, step)
      && var s' := Do(exec, s, step);
      && fd in s'.io[k].conns && s'.main == s.main && s'.io[k].conns[fd].out == ""
      && s'.io[k].conns[fd].sent == Channels.Replies(OfFd(s.main.log[s.main.since[fd]..], fd))
  {
    hide RespQueue.Greedy, OfFd, Channels.Replies;
    var c := s.io[k].conns[fd];
    assert c.out[..|c.out|] == c.out;
  }
}
