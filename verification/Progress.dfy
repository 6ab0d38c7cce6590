/** Wakeups and progress of the pipeline. */
module Progress {
  import opened Text
  import opened Channels
  import opened Spsc
  import opened Pipeline
  import opened Refinement

  // ---- No wakeup is lost ----

  /** IO thread `io` has yet to see its inbox empty in the current sweep. */
  predicate StillDraining(io: Io) {
    || io.pc.Draining?
    || ((io.pc.Emitting? || io.pc.Nudging? || io.pc.Signalling?) && io.pc.back.ToDrain?)
  }

  /** The main thread has yet to see outbox `i` empty in the current sweep. */
  predicate StillSweeping(pc: MainPc, i: nat) {
    match pc
    case Polling => false
    case Sweeping(k) => k <= i
    case Posting(_, _, back) => back.ToSweep? && back.i <= i
    case Ringing(_, back) => back.ToSweep? && back.i <= i
  }

  ghost predicate InboxAwake(pc: MainPc, io: Io, i: nat)
    requires Spsc.Inv(io.inbox)
  {
    Contents(io.inbox) != [] ==>
      io.event > 0 || StillDraining(io) || (pc.Ringing? && pc.target == i)
  }

  ghost predicate OutboxAwake(command: nat, pc: MainPc, io: Io, i: nat)
    requires Spsc.Inv(io.outbox)
  {
    Contents(io.outbox) != [] ==>
      command > 0 || StillSweeping(pc, i) || io.pc.Signalling?
  }

  ghost predicate Awake<S>(s: Server<S>, cap: nat) {
    && Coupled(s, cap)
    && forall i: nat | i < |s.io| :: InboxAwake(s.pc, s.io[i], i) && OutboxAwake(s.command, s.pc, s.io[i], i)
  }

  lemma IoStepAwake<S(!new)>(exec: Executor<S>, s: Server<S>, i: nat, step: IoStep, cap: nat)
    requires Awake(s, cap) && Can(exec, s, OfIo(i, step))
    ensures Awake(Do(exec, s, OfIo(i, step)), cap)
  {
    hide Spsc.Inv, Contents, Read, CloseConn, FlushConn, Handle;
    var s', io := Do(exec, s, OfIo(i, step)), s.io[i];
    var io' := IoDo(io, step);
    IoRefines(io, step, Coming(s.pc, i), cap);
    OneIo(s, s', i, io', cap);
    assert InboxAwake(s.pc, io', i) && OutboxAwake(s'.command, s.pc, io', i) by {
      match step
      case PopHead => PopLoadHeadKeeps(io.inbox);
      case PopTail => PopLoadTailKeeps(io.inbox);
      case PopMoveOut(left) => PopMoveKeeps(io.inbox, left);
      case PopReset => PopClearKeeps(io.inbox);
      case PopReturn(flush) => PopStoreHeadRemoves(io.inbox);
      case PushTail => PushLoadTailKeeps(io.outbox, io.pc.msg);
      case PushHead => PushLoadHeadKeeps(io.outbox);
      case PushPut => PushFillKeeps(io.outbox);
      case _ =>
    }
  }

  lemma SweepAwake<S(!new)>(exec: Executor<S>, s: Server<S>, step: MainStep, cap: nat, j: nat)
    requires Awake(s, cap) && MainCan(exec, s, step) && SweepingAt(s) && j < |s.io|
    requires Coupled(MainDo(exec, s, step), cap) && |MainDo(exec, s, step).io| == |s.io|
    ensures var s' := MainDo(exec, s, step);
      InboxAwake(s'.pc, s'.io[j], j) && OutboxAwake(s'.command, s'.pc, s'.io[j], j)
  {
    hide Spsc.Inv, Contents, Execute, Answer;
    var q := s.io[s.pc.i].outbox;
    match step
    case TakeHead => PopLoadHeadKeeps(q);
    case TakeTail => PopLoadTailKeeps(q);
    case TakeMoveOut(left) => PopMoveKeeps(q, left);
    case TakeReset => PopClearKeeps(q);
    case TakeReturn(nows) => PopStoreHeadRemoves(q);
  }

  lemma PostAwake<S(!new)>(exec: Executor<S>, s: Server<S>, step: MainStep, cap: nat, j: nat)
    requires Awake(s, cap) && MainCan(exec, s, step) && PostingAt(s) && j < |s.io|
    requires Coupled(MainDo(exec, s, step), cap) && |MainDo(exec, s, step).io| == |s.io|
    ensures var s' := MainDo(exec, s, step);
      InboxAwake(s'.pc, s'.io[j], j) && OutboxAwake(s'.command, s'.pc, s'.io[j], j)
  {
    hide Spsc.Inv, Contents;
    var q := s.io[s.pc.target].inbox;
    match step
    case PostTail => PushLoadTailKeeps(q, s.pc.msg);
    case PostHead => PushLoadHeadKeeps(q);
    case PostPut => PushFillKeeps(q);
    case PostPublish =>
  }

  lemma MainStepAwake<S(!new)>(exec: Executor<S>, first: S, s: Server<S>, step: MainStep, cap: nat)
    requires Refinement.Inv(exec, first, cap, s) && Awake(s, cap) && MainCan(exec, s, step)
    ensures Awake(MainDo(exec, s, step), cap)
  {
    MainStepKeeps(exec, first, cap, s, step);
    hide Spsc.Inv, Contents, Channels.Inv, Execute, Answer, Adopt;
    var s' := MainDo(exec, s, step);
    forall j: nat | j < |s'.io|
      ensures InboxAwake(s'.pc, s'.io[j], j) && OutboxAwake(s'.command, s'.pc, s'.io[j], j)
    {
      if SweepingAt(s) {
        SweepAwake(exec, s, step, cap, j);
      } else if PostingAt(s) {
        PostAwake(exec, s, step, cap, j);
      } else {
        assert InboxAwake(s.pc, s.io[j], j) && OutboxAwake(s.command, s.pc, s.io[j], j);
      }
    }
  }

  /** In every reachable state, a non-empty inbox or outbox has its event pending, or
      its reader still due to look at it, or its writer about to notify. */
  lemma {:induction false} NoWakeupIsLost<S(!new)>(exec: Executor<S>, threads: nat, cap: nat, first: S,
                                                   run: seq<Server<S>>, i: nat)
    requires IsRun(exec, threads, cap, first, run) && i < |run|
    ensures Awake(run[i], cap)
  {
    hide Refinement.Inv;
    RunInv(exec, threads, cap, first, run, i);
    if i == 0 {
      StartAwake(threads, cap, first);
    } else {
      RunInv(exec, threads, cap, first, run, i - 1);
      NoWakeupIsLost(exec, threads, cap, first, run, i - 1);
      assert Next(exec, run[i - 1], run[i - 1 + 1]);
      var step :| Can(exec, run[i - 1], step) && run[i] == Do(exec, run[i - 1], step);
      match step
      case OfIo(k, io) => IoStepAwake(exec, run[i - 1], k, io, cap);
      case OfMain(m) => MainStepAwake(exec, first, run[i - 1], m, cap);
    }
  }

  lemma StartAwake<S>(threads: nat, cap: nat, first: S)
    ensures Awake(Start(threads, cap, first), cap)
  {
    EmptyInv<InMsg>(cap);
    EmptyInv<OutMsg>(cap);
  }

  // ---- When progress can stop ----

  /** A step the environment chooses: a byte arriving, a socket failing, a client
      connecting. */
  predicate External(step: Step) {
    match step
    case OfIo(_, io) => io.Recv? || io.Writable? || io.Hup?
    case OfMain(m) => m.Incoming?
  }

  ghost predicate InboxFull<S>(s: Server<S>, i: nat, cap: nat)
    requires Coupled(s, cap) && i < |s.io|
  {
    |Contents(s.io[i].inbox)| == cap
  }

  ghost predicate OutboxFull<S>(s: Server<S>, i: nat, cap: nat)
    requires Coupled(s, cap) && i < |s.io|
  {
    |Contents(s.io[i].outbox)| == cap
  }

  /** Part of a Push attempt that fails on the ring as it stands. */
  ghost predicate Retry<S>(exec: Executor<S>, s: Server<S>, step: Step, cap: nat)
    requires Coupled(s, cap) && Can(exec, s, step)
  {
    match step
    case OfIo(i, io) => (io.PushTail? || io.PushHead? || io.Nudge?) && OutboxFull(s, i, cap)
    case OfMain(m) => (m.PostTail? || m.PostHead?) && InboxFull(s, s.pc.target, cap)
  }

  ghost predicate Productive<S>(exec: Executor<S>, s: Server<S>, step: Step, cap: nat)
    requires Coupled(s, cap)
  {
    Can(exec, s, step) && !External(step) && !Retry(exec, s, step, cap)
  }

  /** A step during which no socket fails. */
  predicate Gentle(step: Step) {
    step.OfIo? && step.io.PopReturn? ==> step.io.flush.Sent?
  }

  /** Something is queued, signalled or under way. */
  ghost predicate WorkPending<S>(s: Server<S>, cap: nat)
    requires Coupled(s, cap)
  {
    || !s.pc.Polling?
    || s.command > 0
    || exists i: nat :: i < |s.io| && IoBusy(s.io[i])
  }

  ghost predicate IoBusy(io: Io)
    requires Spsc.Inv(io.inbox) && Spsc.Inv(io.outbox)
  {
    !io.pc.Idle? || io.event > 0 || Contents(io.inbox) != [] || Contents(io.outbox) != []
  }

  /** The main thread waits for room in inbox `i` while thread `i` waits for room in
      its outbox. */
  ghost predicate Deadlock<S>(s: Server<S>, i: nat, cap: nat)
    requires Coupled(s, cap)
  {
    && i < |s.io|
    && s.pc.Posting? && s.pc.target == i && InboxFull(s, i, cap)
    && (s.io[i].pc.Emitting? || s.io[i].pc.Nudging?) && OutboxFull(s, i, cap)
  }

  /** A thread inside a ring looks at slots that exist. */
  lemma InTheRing<T>(q: Ring<T>)
    requires Spsc.Inv(q)
    ensures q.producer.SawRoom? ==> q.producer.t < |q.buffer|
    ensures !q.consumer.Waiting? ==> q.consumer.h < |q.buffer|
    ensures q.consumer.SawElement? ==> q.buffer[q.consumer.h].Some?
  {
    assert Slot(q.head, 0, q.cap) == q.head;
  }

  /** A busy IO thread can move unless its outbox is full and it is emitting. */
  lemma IoMoves<S(!new)>(exec: Executor<S>, s: Server<S>, i: nat, cap: nat) returns (step: Step)
    requires Coupled(s, cap) && i < |s.io|
    requires !s.io[i].pc.Idle? || s.io[i].event > 0
    requires (s.io[i].pc.Emitting? || s.io[i].pc.Nudging?) ==> !OutboxFull(s, i, cap)
    ensures Productive(exec, s, step, cap) && Gentle(step)
  {
    hide Spsc.Inv, Contents;
    var io := s.io[i];
    InTheRing(io.inbox);
    InTheRing(io.outbox);
    match io.pc
    case Idle => step := OfIo(i, Wake);
    case Draining =>
      match io.inbox.consumer {
        case Waiting => step := OfIo(i, PopHead);
        case LoadedHead(_) => step := OfIo(i, PopTail);
        case SawElement(_) => step := OfIo(i, PopMoveOut(None));
        case Moved(_, _) => step := OfIo(i, PopReset);
        case Cleared(_, _) => step := OfIo(i, PopReturn(Sent(0)));
      }
    case Emitting(_, _) =>
      match io.outbox.producer {
        case Resting => step := OfIo(i, PushTail);
        case LoadedTail(_, _) => step := OfIo(i, PushHead);
        case SawRoom(_, _) => step := OfIo(i, PushPut);
        case Filled(_, _) => step := OfIo(i, PushPublish);
      }
    case Nudging(_, _) => step := OfIo(i, Nudge);
    case Signalling(_) => step := OfIo(i, Signal);
    case Hangup(_) => step := OfIo(i, HangupNow);
  }

  /** So can the main thread unless it is posting to a full inbox. */
  lemma MainMoves<S(!new)>(exec: Executor<S>, s: Server<S>, cap: nat) returns (step: Step)
    requires Coupled(s, cap)
    requires !s.pc.Polling? || s.command > 0
    requires s.pc.Posting? ==> !InboxFull(s, s.pc.target, cap)
    ensures Productive(exec, s, step, cap) && Gentle(step)
  {
    hide Spsc.Inv, Contents;
    match s.pc
    case Polling => step := OfMain(Attend);
    case Sweeping(i) =>
      var q := s.io[i].outbox;
      InTheRing(q);
      match q.consumer {
        case Waiting => step := OfMain(TakeHead);
        case LoadedHead(_) => step := OfMain(TakeTail);
        case SawElement(_) => step := OfMain(TakeMoveOut(None));
        case Moved(_, _) => step := OfMain(TakeReset);
        case Cleared(_, m) =>
          step := OfMain(TakeReturn(if m.Batch? then seq(|m.requests|, _ => 0) else []));
      }
    case Posting(i, _, _) =>
      InTheRing(s.io[i].inbox);
      match s.io[i].inbox.producer {
        case Resting => step := OfMain(PostTail);
        case LoadedTail(_, _) => step := OfMain(PostHead);
        case SawRoom(_, _) => step := OfMain(PostPut);
        case Filled(_, _) => step := OfMain(PostPublish);
      }
    case Ringing(_, _) => step := OfMain(Notify);
  }

  /** Whenever work is pending, some thread has a step other than a failing Push
      retry, and one that needs no socket to fail, unless the main thread and some IO
      thread wait for each other. */
  lemma ProgressUnlessDeadlock<S(!new)>(exec: Executor<S>, s: Server<S>, cap: nat)
    requires Awake(s, cap) && cap > 0 && WorkPending(s, cap)
    ensures (exists step :: Productive(exec, s, step, cap) && Gentle(step)) || (exists i: nat :: Deadlock(s, i, cap))
  {
    hide Spsc.Inv, Contents, Productive;
    if s.pc.Posting? && InboxFull(s, s.pc.target, cap) {
      var i := s.pc.target;
      assert InboxAwake(s.pc, s.io[i], i);
      if (s.io[i].pc.Emitting? || s.io[i].pc.Nudging?) && OutboxFull(s, i, cap) {
        assert Deadlock(s, i, cap);
      } else {
        var step := IoMoves(exec, s, i, cap);
      }
    } else if !s.pc.Polling? || s.command > 0 {
      var step := MainMoves(exec, s, cap);
    } else {
      var i: nat :| i < |s.io| && IoBusy(s.io[i]);
      assert InboxAwake(s.pc, s.io[i], i) && OutboxAwake(s.command, s.pc, s.io[i], i);
      var step := IoMoves(exec, s, i, cap);
    }
  }

  /** Once there, always there: neither thread has a productive step, and whatever any
      thread does leaves both waiting and executes nothing more. */
  lemma DeadlockIsForever<S(!new)>(exec: Executor<S>, s: Server<S>, i: nat, cap: nat, step: Step)
    requires Coupled(s, cap) && Deadlock(s, i, cap) && Can(exec, s, step)
    ensures step.OfMain? || step.i == i ==> !Productive(exec, s, step, cap)
    ensures var s' := Do(exec, s, step);
      Coupled(s', cap) && Deadlock(s', i, cap) && s'.main == s.main
  {
    var io := s.io[i];
    match step
    case OfIo(k, a) =>
      IoRefines(s.io[k], a, Coming(s.pc, k), cap);
      OneIo(s, Do(exec, s, step), k, IoDo(s.io[k], a), cap);
      if k == i {
        match a
        case PushTail => PushLoadTailKeeps(io.outbox, io.pc.msg);
        case PushHead => PushLoadHeadKeeps(io.outbox);
        case _ =>
      }
    case OfMain(a) =>
      match a
      case PostTail =>
        PushLoadTailKeeps(io.inbox, s.pc.msg);
        InboxStutter(s, PushLoadTail(io.inbox, s.pc.msg), s.pc, cap);
      case PostHead =>
        PushLoadHeadKeeps(io.inbox);
        InboxStutter(s, PushLoadHead(io.inbox), s.pc, cap);
      case _ =>
  }
}
