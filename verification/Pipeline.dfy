/** The server's threads at the grain of their atomic operations: the rings'
    loads and stores, the eventfds' adds and clears, and one program counter per
    thread. Any thread may take the next step.

    The kernel is the environment: it decides which bytes a read returns, how many a
    write takes, when a socket fails and which descriptor an accept returns. */
module Pipeline {
  import opened Text
  import opened Resp
  import opened Channels
  import opened Spsc

  /** What an IO thread does once its `Emit` returns. */
  datatype Resume = ToIdle | ToDrain | ToHangup(fd: int)

  datatype IoPc =
    | Idle                                  // in epoll_wait, or between two events
    | Draining                              // in DrainInbox, inside inbox_.Pop
    | Emitting(msg: OutMsg, back: Resume)   // in Emit, inside outbox_.Push
    | Nudging(msg: OutMsg, back: Resume)    // in Emit, after a failed Push
    | Signalling(back: Resume)              // in Emit, after the Push that succeeded
    | Hangup(fd: int)                       // about to close a connection whose peer left

  datatype Io = Io(inbox: Ring<InMsg>, outbox: Ring<OutMsg>, event: nat, pc: IoPc,
                   conns: map<int, Conn>)

  /** What the main thread does once a post returns. */
  datatype Return = ToPoll | ToSweep(i: nat)

  datatype MainPc =
    | Polling                                       // in epoll_wait
    | Sweeping(i: nat)                              // in ProcessCommands, inside thread i's outbox_.Pop
    | Posting(target: nat, msg: InMsg, back: Return)  // inside thread target's inbox_.Push
    | Ringing(target: nat, back: Return)            // after the Push, before inbox_event_.Notify

  /** `command` is the counter of the one eventfd all IO threads share. */
  datatype Server<S> = Server(io: seq<Io>, command: nat, pc: MainPc, main: Main<S>)

  // ---- The steps ----


  datatype IoStep =
    | Wake                                          // epoll reports the inbox event; Drain it
    | Recv(fd: int, chunk: string, alive: bool)     // HandleReadable
    | Writable(fd: int, flush: Flush)               // HandleWritable
    | Hup(fd: int)                                  // EPOLLERR or EPOLLHUP
    | HangupNow                                     // CloseConnection after a read that hit the end
    | PopHead | PopTail | PopMoveOut(left: Option<InMsg>) | PopReset
    | PopReturn(flush: Flush)                       // head_ store, then the message is handled
    | PushTail | PushHead | PushPut | PushPublish
    | Nudge | Signal

  datatype MainStep =
    | Incoming(fd: int)                             // accept, AssignToIoThread
    | Attend                                        // epoll reports the command event; Drain it
    | TakeHead | TakeTail | TakeMoveOut(left: Option<OutMsg>) | TakeReset
    | TakeReturn(nows: seq<int>)                    // head_ store, then the message is processed
    | PostTail | PostHead | PostPut | PostPublish
    | Notify

  datatype Step = OfIo(i: nat, io: IoStep) | OfMain(m: MainStep)

  function After(back: Resume): IoPc {
    match back
    case ToIdle => Idle
    case ToDrain => Draining
    case ToHangup(fd) => Hangup(fd)
  }

  function AfterPost(back: Return): MainPc {
    match back
    case ToPoll => Polling
    case ToSweep(i) => Sweeping(i)
  }

  /** An IO thread's own connections, with nothing in either channel. */
  function Local(conns: map<int, Conn>): Thread {
    Thread([], [], conns)
  }

  /** Continue with the connections of `t`, emitting its message first if there is one. */
  function Continue(io: Io, t: Thread, back: Resume): Io {
    io.(conns := t.conns, pc := if t.outbox == [] then After(back) else Emitting(t.outbox[0], back))
  }

  predicate IoCan(io: Io, step: IoStep) {
    match step
    case Wake => io.pc.Idle? && io.event > 0
    case Recv(_, _, _) => io.pc.Idle?
    case Writable(fd, flush) => io.pc.Idle? && fd in io.conns && CanFlush(io.conns[fd], flush)
    case Hup(_) => io.pc.Idle?
    case HangupNow => io.pc.Hangup?
    case PopHead => io.pc.Draining? && io.inbox.consumer.Waiting?
    case PopTail => io.pc.Draining? && io.inbox.consumer.LoadedHead?
    case PopMoveOut(_) => io.pc.Draining? && io.inbox.consumer.SawElement? &&
                          io.inbox.consumer.h < |io.inbox.buffer| && io.inbox.buffer[io.inbox.consumer.h].Some?
    case PopReset => io.pc.Draining? && io.inbox.consumer.Moved? && io.inbox.consumer.h < |io.inbox.buffer|
    case PopReturn(flush) => io.pc.Draining? && io.inbox.consumer.Cleared? &&
                             CanHandle(Local(io.conns), io.inbox.consumer.element, flush)
    case PushTail => io.pc.Emitting? && io.outbox.producer.Resting?
    case PushHead => io.pc.Emitting? && io.outbox.producer.LoadedTail?
    case PushPut => io.pc.Emitting? && io.outbox.producer.SawRoom? && io.outbox.producer.t < |io.outbox.buffer|
    case PushPublish => io.pc.Emitting? && io.outbox.producer.Filled?
    case Nudge => io.pc.Nudging?
    case Signal => io.pc.Signalling?
  }

  function IoDo(io: Io, step: IoStep): Io
    requires IoCan(io, step)
  {
    match step
    case Wake => io.(event := 0, pc := Draining)
    case Recv(fd, chunk, alive) =>
      var t := Read(Local(io.conns), fd, chunk);
      Continue(io, t, if !alive && fd in t.conns then ToHangup(fd) else ToIdle)
    case Writable(fd, flush) => Continue(io, FlushConn(Local(io.conns), fd, flush), ToIdle)
    case Hup(fd) => Continue(io, CloseConn(Local(io.conns), fd), ToIdle)
    case HangupNow => Continue(io, CloseConn(Local(io.conns), io.pc.fd), ToIdle)
    case PopHead => io.(inbox := PopLoadHead(io.inbox))
    case PopTail => io.(inbox := PopLoadTail(io.inbox),
                        pc := if PopFindsNothing(io.inbox) then Idle else Draining)
    case PopMoveOut(left) => io.(inbox := PopMove(io.inbox, left))
    case PopReset => io.(inbox := PopClear(io.inbox))
    case PopReturn(flush) =>
      Continue(io.(inbox := PopStoreHead(io.inbox)),
               Handle(Local(io.conns), io.inbox.consumer.element, flush), ToDrain)
    case PushTail => io.(outbox := PushLoadTail(io.outbox, io.pc.msg))
    case PushHead => io.(outbox := PushLoadHead(io.outbox),
                         pc := if PushFails(io.outbox) then Nudging(io.pc.msg, io.pc.back) else io.pc)
    case PushPut => io.(outbox := PushFill(io.outbox))
    case PushPublish => io.(outbox := PushStoreTail(io.outbox), pc := Signalling(io.pc.back))
    case Nudge => io.(pc := Emitting(io.pc.msg, io.pc.back))
    case Signal => io.(pc := After(io.pc.back))
  }

  /** `Nudge` and `Signal` add to the shared command counter. */
  function CommandAfter(command: nat, step: IoStep): nat {
    if step.Nudge? || step.Signal? then command + 1 else command
  }

  predicate MainCan<S>(exec: Executor<S>, s: Server<S>, step: MainStep) {
    match step
    case Incoming(fd) => s.pc.Polling? && fd !in s.main.route && s.main.next < |s.io|
    case Attend => s.pc.Polling? && s.command > 0
    case TakeHead => SweepingAt(s) && s.io[s.pc.i].outbox.consumer.Waiting?
    case TakeTail => SweepingAt(s) && s.io[s.pc.i].outbox.consumer.LoadedHead?
    case TakeMoveOut(_) => SweepingAt(s) &&
      (var q := s.io[s.pc.i].outbox;
       q.consumer.SawElement? && q.consumer.h < |q.buffer| && q.buffer[q.consumer.h].Some?)
    case TakeReset => SweepingAt(s) &&
      (var q := s.io[s.pc.i].outbox; q.consumer.Moved? && q.consumer.h < |q.buffer|)
    case TakeReturn(nows) => SweepingAt(s) &&
      (var q := s.io[s.pc.i].outbox; q.consumer.Cleared? && CanExecute(q.consumer.element, nows))
    case PostTail => PostingAt(s) && s.io[s.pc.target].inbox.producer.Resting?
    case PostHead => PostingAt(s) && s.io[s.pc.target].inbox.producer.LoadedTail?
    case PostPut => PostingAt(s) &&
      (var q := s.io[s.pc.target].inbox; q.producer.SawRoom? && q.producer.t < |q.buffer|)
    case PostPublish => PostingAt(s) && s.io[s.pc.target].inbox.producer.Filled?
    case Notify => s.pc.Ringing? && s.pc.target < |s.io|
  }

  predicate SweepingAt<S>(s: Server<S>) {
    s.pc.Sweeping? && s.pc.i < |s.io|
  }

  predicate PostingAt<S>(s: Server<S>) {
    s.pc.Posting? && s.pc.target < |s.io|
  }

  function WithOutbox<S>(s: Server<S>, i: nat, q: Ring<OutMsg>): Server<S>
    requires i < |s.io|
  {
    s.(io := s.io[i := s.io[i].(outbox := q)])
  }

  function WithInbox<S>(s: Server<S>, i: nat, q: Ring<InMsg>): Server<S>
    requires i < |s.io|
  {
    s.(io := s.io[i := s.io[i].(inbox := q)])
  }

  function MainDo<S>(exec: Executor<S>, s: Server<S>, step: MainStep): Server<S>
    requires MainCan(exec, s, step)
  {
    match step
    case Incoming(fd) =>
      s.(pc := Posting(s.main.next, Assign(fd), ToPoll), main := Adopt(s.main, fd, |s.io|))
    case Attend => s.(command := 0, pc := if s.io == [] then Polling else Sweeping(0))
    case TakeHead => WithOutbox(s, s.pc.i, PopLoadHead(s.io[s.pc.i].outbox))
    case TakeTail =>
      var i := s.pc.i;
      var q := s.io[i].outbox;
      WithOutbox(s, i, PopLoadTail(q)).(pc :=
        if !PopFindsNothing(q) then s.pc else if i + 1 < |s.io| then Sweeping(i + 1) else Polling)
    case TakeMoveOut(left) => WithOutbox(s, s.pc.i, PopMove(s.io[s.pc.i].outbox, left))
    case TakeReset => WithOutbox(s, s.pc.i, PopClear(s.io[s.pc.i].outbox))
    case TakeReturn(nows) =>
      var i := s.pc.i;
      var m := s.io[i].outbox.consumer.element;
      var answer := Answer(exec, s.main, m, nows);
      WithOutbox(s, i, PopStoreHead(s.io[i].outbox)).(
        main := Execute(exec, s.main, m, nows),
        pc := if answer.Some? then Posting(answer.value.0, answer.value.1, ToSweep(i)) else s.pc)
    case PostTail => WithInbox(s, s.pc.target, PushLoadTail(s.io[s.pc.target].inbox, s.pc.msg))
    case PostHead => WithInbox(s, s.pc.target, PushLoadHead(s.io[s.pc.target].inbox))
    case PostPut => WithInbox(s, s.pc.target, PushFill(s.io[s.pc.target].inbox))
    case PostPublish =>
      WithInbox(s, s.pc.target, PushStoreTail(s.io[s.pc.target].inbox)).(pc := Ringing(s.pc.target, s.pc.back))
    case Notify =>
      var i := s.pc.target;
      s.(io := s.io[i := s.io[i].(event := s.io[i].event + 1)], pc := AfterPost(s.pc.back))
  }

  predicate Can<S>(exec: Executor<S>, s: Server<S>, step: Step) {
    match step
    case OfIo(i, io) => i < |s.io| && IoCan(s.io[i], io)
    case OfMain(m) => MainCan(exec, s, m)
  }

  function Do<S>(exec: Executor<S>, s: Server<S>, step: Step): Server<S>
    requires Can(exec, s, step)
  {
    match step
    case OfIo(i, io) =>
      s.(io := s.io[i := IoDo(s.io[i], io)], command := CommandAfter(s.command, io))
    case OfMain(m) => MainDo(exec, s, m)
  }

  /** `threads` IO threads with rings of capacity `cap`, and nothing connected yet. */
  function Start<S>(threads: nat, cap: nat, store: S): Server<S> {
    Server(seq(threads, _ => Io(Spsc.Empty(cap), Spsc.Empty(cap), 0, Idle, map[])), 0, Polling,
          Main(map[], 0, store, [], map[]))
  }

  ghost predicate Next<S(!new)>(exec: Executor<S>, s: Server<S>, s': Server<S>) {
    exists step :: Can(exec, s, step) && s' == Do(exec, s, step)
  }
}
