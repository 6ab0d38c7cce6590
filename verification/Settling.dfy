/** The pipeline settles. Every productive step uses up some of a measure of the work
    outstanding, so between two events from outside only finitely many can be taken; and
    since one can always be taken unless the main thread and an IO thread wait for each
    other, every state leads by such steps to that wait or to rest. At rest, everything
    any live client has asked is answered. `Answering` says who is live then. */
module Settling {
  import opened Text
  import opened Channels
  import opened Spsc
  import opened Pipeline
  import opened Refinement
  import opened Progress
  import RespQueue

  // ---- The measure ----

  // A thread inside a pop or a push has that much less left to do.

  function PopSteps<T>(c: Consumer<T>): nat {
    match c
    case Waiting => 0 case LoadedHead(_) => 1 case SawElement(_) => 2 case Moved(_, _) => 3 case Cleared(_, _) => 4
  }

  function PushSteps<T>(p: Producer<T>): nat {
    match p
    case Resting => 0 case LoadedTail(_, _) => 1 case SawRoom(_, _) => 2 case Filled(_, _) => 3
  }

  // `bell` is what a pending command event costs: waking up and one empty sweep.

  function Bell(threads: nat): nat {
    5 * threads + 1
  }

  /** Taking the message, and for a batch posting its reply, which is then taken too. */
  function OutCost(m: OutMsg): nat {
    if m.Batch? then 21 else 5
  }

  /** Closing a connection: emitting a disconnect, signalling, and its being taken. */
  function ConnCost(bell: nat): nat {
    bell + 10
  }

  function InCost(m: InMsg, bell: nat): nat {
    if m.Write? then 5 else 5 + ConnCost(bell)
  }

  function OutCosts(ms: seq<OutMsg>): nat {
    if ms == [] then 0 else OutCost(ms[0]) + OutCosts(ms[1..])
  }

  function InCosts(ms: seq<InMsg>, bell: nat): nat {
    if ms == [] then 0 else InCost(ms[0], bell) + InCosts(ms[1..], bell)
  }

  function ConnCosts(conns: map<int, Conn>, bell: nat): nat {
    |conns| * ConnCost(bell)
  }

  function BackCost(back: Resume): nat {
    match back
    case ToIdle => 0 case ToDrain => 5 case ToHangup(_) => 1
  }

  function IoPcCost(io: Io, bell: nat): nat {
    match io.pc
    case Idle => 0
    case Hangup(_) => 1
    case Draining => 5 - PopSteps(io.inbox.consumer)
    case Signalling(back) => bell + 1 + BackCost(back)
    case Emitting(msg, back) => OutCost(msg) + 4 - PushSteps(io.outbox.producer) + bell + 1 + BackCost(back)
    case Nudging(msg, back) => OutCost(msg) + 4 + bell + 1 + BackCost(back) + bell + 1
  }

  ghost function IoCost(io: Io, bell: nat): nat
    requires Spsc.Inv(io.inbox) && Spsc.Inv(io.outbox)
  {
    IoPcCost(io, bell) + (if io.event > 0 then 6 else 0) + ConnCosts(io.conns, bell) +
    InCosts(Contents(io.inbox), bell) + OutCosts(Contents(io.outbox))
  }

  ghost function IoCosts(ios: seq<Io>, bell: nat): nat
    requires forall i | 0 <= i < |ios| :: Spsc.Inv(ios[i].inbox) && Spsc.Inv(ios[i].outbox)
  {
    if ios == [] then 0 else IoCosts(ios[..|ios| - 1], bell) + IoCost(ios[|ios| - 1], bell)
  }

  function ReturnCost(back: Return, threads: nat): nat {
    if back.ToSweep? && back.i < threads then 5 * (threads - back.i) else 0
  }

  function MainCost<S>(s: Server<S>): nat {
    var n := |s.io|;
    match s.pc
    case Polling => 0
    case Sweeping(i) => if i < n then 5 * (n - i) - PopSteps(s.io[i].outbox.consumer) else 0
    case Posting(target, msg, back) =>
      (if target < n then InCost(msg, Bell(n)) + 11 - PushSteps(s.io[target].inbox.producer) else 0) +
      ReturnCost(back, n)
    case Ringing(_, back) => 7 + ReturnCost(back, n)
  }

  ghost function Cost<S>(s: Server<S>, cap: nat): nat
    requires Coupled(s, cap)
  {
    MainCost(s) + (if s.command > 0 then Bell(|s.io|) else 0) + IoCosts(s.io, Bell(|s.io|))
  }

  // ---- How its parts change ----

  lemma {:induction false} OneIoCost(ios: seq<Io>, i: nat, io: Io, bell: nat)
    requires forall k | 0 <= k < |ios| :: Spsc.Inv(ios[k].inbox) && Spsc.Inv(ios[k].outbox)
    requires i < |ios| && Spsc.Inv(io.inbox) && Spsc.Inv(io.outbox)
    ensures IoCosts(ios[i := io], bell) + IoCost(ios[i], bell) == IoCosts(ios, bell) + IoCost(io, bell)
  {
    hide Spsc.Inv, IoCost, Contents;
    var n := |ios| - 1;
    if i == n {
      assert ios[i := io][..n] == ios[..n];
    } else {
      OneIoCost(ios[..n], i, io, bell);
      assert ios[i := io][..n] == ios[..n][i := io];
    }
  }

  lemma {:induction false} OutCostsMore(ms: seq<OutMsg>, m: OutMsg)
    ensures OutCosts(ms + [m]) == OutCosts(ms) + OutCost(m)
  {
    if ms == [] {
      assert [] + [m] == [m] && [m][1..] == [];
    } else {
      OutCostsMore(ms[1..], m);
      assert (ms + [m])[0] == ms[0] && (ms + [m])[1..] == ms[1..] + [m];
    }
  }

  lemma {:induction false} InCostsMore(ms: seq<InMsg>, m: InMsg, bell: nat)
    ensures InCosts(ms + [m], bell) == InCosts(ms, bell) + InCost(m, bell)
  {
    if ms == [] {
      assert [] + [m] == [m] && [m][1..] == [];
    } else {
      InCostsMore(ms[1..], m, bell);
      assert (ms + [m])[0] == ms[0] && (ms + [m])[1..] == ms[1..] + [m];
    }
  }

  lemma OutCostsLess(ms: seq<OutMsg>)
    requires ms != []
    ensures OutCosts(ms) == OutCost(ms[0]) + OutCosts(ms[1..])
  {
  }

  lemma InCostsLess(ms: seq<InMsg>, bell: nat)
    requires ms != []
    ensures InCosts(ms, bell) == InCost(ms[0], bell) + InCosts(ms[1..], bell)
  {
  }

  /** Closing a connection pays for its disconnect. */
  lemma CloseCost(conns: map<int, Conn>, fd: int, bell: nat)
    ensures var t := CloseConn(Local(conns), fd);
      if fd in conns then
        ConnCosts(t.conns, bell) + ConnCost(bell) == ConnCosts(conns, bell) && t.outbox == [Disconnect(fd)]
      else t == Local(conns)
  {
    if fd in conns {
      assert (conns - {fd}).Keys == conns.Keys - {fd};
      assert |conns - {fd}| == |conns| - 1;
      Distribute(|conns| - 1, ConnCost(bell));
    }
  }

  lemma Distribute(a: nat, k: nat)
    ensures (a + 1) * k == a * k + k
  {
  }

  /** Handling a message costs no more than the message and the connections it closes. */
  lemma HandleCost(conns: map<int, Conn>, m: InMsg, flush: Flush, bell: nat)
    requires CanHandle(Local(conns), m, flush)
    ensures var t := Handle(Local(conns), m, flush);
      && (t.outbox == [] || t.outbox == [Disconnect(m.fd)])
      && ConnCosts(t.conns, bell) + (if t.outbox == [] then 0 else ConnCost(bell)) + 5
         <= ConnCosts(conns, bell) + InCost(m, bell)
  {
    hide ConnCost;
    if m.Assign? {
      if m.fd !in conns {
        assert |conns[m.fd := FRESH]| == |conns| + 1;
        Distribute(|conns|, ConnCost(bell));
      }
    } else if m.fd in conns {
      var c := conns[m.fd];
      var conns' := conns[m.fd := c.(out := c.out + m.bytes)];
      assert |conns'| == |conns|;
      CloseCost(conns', m.fd, bell);
      if flush.Sent? {
        var c' := conns'[m.fd];
        var c'' := c'.(sent := c'.sent + c'.out[..flush.n], out := c'.out[flush.n..]);
        assert |conns'[m.fd := c'']| == |conns|;
      }
    }
  }

  // ---- Steps of an IO thread ----

  /** What the step adds to the shared command event. */
  function Rung(step: IoStep, bell: nat): nat {
    if step.Nudge? || step.Signal? then bell else 0
  }

  predicate Inward(step: IoStep) {
    !(step.Recv? || step.Writable? || step.Hup?)
  }

  lemma IoStepCosts(io: Io, step: IoStep, bell: nat, cap: nat)
    requires IoOk(io, cap) && IoCan(io, step) && Inward(step) && IoOk(IoDo(io, step), cap)
    requires step.PushHead? ==> |Contents(io.outbox)| < cap
    ensures IoCost(IoDo(io, step), bell) + Rung(step, bell) < IoCost(io, bell)
  {
    if step.PopHead? || step.PopTail? || step.PopMoveOut? || step.PopReset? || step.PopReturn? {
      PopStepCosts(io, step, bell, cap);
    } else if step.PushTail? || step.PushHead? || step.PushPut? || step.PushPublish? {
      PushStepCosts(io, step, bell, cap);
    } else {
      OtherStepCosts(io, step, bell, cap);
    }
  }

  lemma OtherStepCosts(io: Io, step: IoStep, bell: nat, cap: nat)
    requires IoOk(io, cap) && IoCan(io, step) && IoOk(IoDo(io, step), cap)
    requires step.Wake? || step.HangupNow? || step.Nudge? || step.Signal?
    ensures IoCost(IoDo(io, step), bell) + Rung(step, bell) < IoCost(io, bell)
  {
    hide Spsc.Inv, Contents, ConnCosts, CloseConn, InCosts, OutCosts;
    if step.HangupNow? {
      CloseCost(io.conns, io.pc.fd, bell);
    }
  }

  lemma PopStepCosts(io: Io, step: IoStep, bell: nat, cap: nat)
    requires IoOk(io, cap) && IoCan(io, step) && IoOk(IoDo(io, step), cap)
    requires step.PopHead? || step.PopTail? || step.PopMoveOut? || step.PopReset? || step.PopReturn?
    ensures IoCost(IoDo(io, step), bell) < IoCost(io, bell)
  {
    hide Spsc.Inv, Contents, ConnCosts, Handle, InCosts, OutCosts;
    match step
    case PopHead => PopLoadHeadKeeps(io.inbox);
    case PopTail => PopLoadTailKeeps(io.inbox);
    case PopMoveOut(left) => PopMoveKeeps(io.inbox, left);
    case PopReset => PopClearKeeps(io.inbox);
    case PopReturn(flush) =>
      PopStoreHeadRemoves(io.inbox);
      InCostsLess(Contents(io.inbox), bell);
      HandleCost(io.conns, io.inbox.consumer.element, flush, bell);
  }

  lemma PushStepCosts(io: Io, step: IoStep, bell: nat, cap: nat)
    requires IoOk(io, cap) && IoCan(io, step) && IoOk(IoDo(io, step), cap)
    requires step.PushTail? || step.PushHead? || step.PushPut? || step.PushPublish?
    requires step.PushHead? ==> |Contents(io.outbox)| < cap
    ensures IoCost(IoDo(io, step), bell) < IoCost(io, bell)
  {
    hide Spsc.Inv, Contents, ConnCosts, InCosts, OutCosts;
    match step
    case PushTail => PushLoadTailKeeps(io.outbox, io.pc.msg);
    case PushHead => PushLoadHeadKeeps(io.outbox);
    case PushPut => PushFillKeeps(io.outbox);
    case PushPublish =>
      PushStoreTailAppends(io.outbox);
      OutCostsMore(Contents(io.outbox), io.pc.msg);
  }

  lemma IoDrops<S(!new)>(exec: Executor<S>, s: Server<S>, i: nat, step: IoStep, cap: nat)
    requires Coupled(s, cap) && Productive(exec, s, OfIo(i, step), cap)
    requires Coupled(Do(exec, s, OfIo(i, step)), cap)
    ensures Cost(Do(exec, s, OfIo(i, step)), cap) < Cost(s, cap)
  {
    var s', io, bell := Do(exec, s, OfIo(i, step)), s.io[i], Bell(|s.io|);
    IoRefines(io, step, Coming(s.pc, i), cap);
    hide Spsc.Inv, Contents, IoCost, IoDo, IoCan, Bell, InCost, IoCosts;
    IoStepCosts(io, step, bell, cap);
    OneIoCost(s.io, i, IoDo(io, step), bell);
    SameMain(s, s', i);
  }

  /** The main thread's part of the measure does not see what an IO thread does. */
  lemma SameMain<S>(s: Server<S>, s': Server<S>, i: nat)
    requires i < |s.io| && |s'.io| == |s.io| && s'.pc == s.pc && s'.io == s.io[i := s'.io[i]]
    requires s'.io[i].inbox.producer == s.io[i].inbox.producer
    requires s'.io[i].outbox.consumer == s.io[i].outbox.consumer
    ensures MainCost(s') == MainCost(s)
  {
    hide InCost, Bell;
  }

  // ---- Steps of the main thread ----

  /** If the main thread's part drops by more than one IO thread's rises, the whole drops. */
  lemma OneIoMoves<S>(s: Server<S>, s': Server<S>, i: nat, cap: nat)
    requires Coupled(s, cap) && Coupled(s', cap)
    requires i < |s.io| && |s'.io| == |s.io| && s'.io == s.io[i := s'.io[i]]
    requires s'.command == s.command
    requires MainCost(s') + IoCost(s'.io[i], Bell(|s.io|)) < MainCost(s) + IoCost(s.io[i], Bell(|s.io|))
    ensures Cost(s', cap) < Cost(s, cap)
  {
    hide Spsc.Inv, IoCost, Bell, MainCost;
    OneIoCost(s.io, i, s'.io[i], Bell(|s.io|));
  }

  lemma SweepDrops<S(!new)>(exec: Executor<S>, s: Server<S>, step: MainStep, cap: nat)
    requires Coupled(s, cap) && MainCan(exec, s, step) && SweepingAt(s) && !step.TakeReturn?
    requires Coupled(MainDo(exec, s, step), cap)
    ensures Cost(MainDo(exec, s, step), cap) < Cost(s, cap)
  {
    hide Spsc.Inv, Contents, InCosts, OutCosts, ConnCosts, Bell, IoCosts, Cost;
    var i, q := s.pc.i, s.io[s.pc.i].outbox;
    match step {
      case TakeHead => PopLoadHeadKeeps(q);
      case TakeTail => PopLoadTailKeeps(q);
      case TakeMoveOut(left) => PopMoveKeeps(q, left);
      case TakeReset => PopClearKeeps(q);
    }
    OneIoMoves(s, MainDo(exec, s, step), i, cap);
  }

  lemma TakeDrops<S(!new)>(exec: Executor<S>, s: Server<S>, nows: seq<int>, cap: nat)
    requires Coupled(s, cap) && MainCan(exec, s, TakeReturn(nows))
    requires Coupled(MainDo(exec, s, TakeReturn(nows)), cap)
    ensures Cost(MainDo(exec, s, TakeReturn(nows)), cap) < Cost(s, cap)
  {
    hide Spsc.Inv, Contents, InCosts, OutCosts, ConnCosts, Bell, Execute, RunBatch, IoCosts, Cost, Replies;
    var i, q := s.pc.i, s.io[s.pc.i].outbox;
    PopStoreHeadRemoves(q);
    OutCostsLess(Contents(q));
    OneIoMoves(s, MainDo(exec, s, TakeReturn(nows)), i, cap);
  }

  lemma PostDrops<S(!new)>(exec: Executor<S>, s: Server<S>, step: MainStep, cap: nat)
    requires Coupled(s, cap) && MainCan(exec, s, step) && PostingAt(s)
    requires step.PostHead? ==> !InboxFull(s, s.pc.target, cap)
    requires Coupled(MainDo(exec, s, step), cap)
    ensures Cost(MainDo(exec, s, step), cap) < Cost(s, cap)
  {
    hide Spsc.Inv, Contents, InCosts, OutCosts, ConnCosts, Bell, InCost, IoCosts, Cost;
    var i, q := s.pc.target, s.io[s.pc.target].inbox;
    match step {
      case PostTail => PushLoadTailKeeps(q, s.pc.msg);
      case PostHead => PushLoadHeadKeeps(q);
      case PostPut => PushFillKeeps(q);
      case PostPublish =>
        PushStoreTailAppends(q);
        InCostsMore(Contents(q), s.pc.msg, Bell(|s.io|));
    }
    OneIoMoves(s, MainDo(exec, s, step), i, cap);
  }

  lemma AttendDrops<S(!new)>(exec: Executor<S>, s: Server<S>, cap: nat)
    requires Coupled(s, cap) && MainCan(exec, s, Attend) && Coupled(MainDo(exec, s, Attend), cap)
    ensures Cost(MainDo(exec, s, Attend), cap) < Cost(s, cap)
  {
    hide Spsc.Inv, IoCosts;
  }

  lemma NotifyDrops<S(!new)>(exec: Executor<S>, s: Server<S>, cap: nat)
    requires Coupled(s, cap) && MainCan(exec, s, Notify) && Coupled(MainDo(exec, s, Notify), cap)
    ensures Cost(MainDo(exec, s, Notify), cap) < Cost(s, cap)
  {
    hide Spsc.Inv, Contents, InCosts, OutCosts, ConnCosts, Bell, IoCosts, Cost;
    OneIoMoves(s, MainDo(exec, s, Notify), s.pc.target, cap);
  }

  lemma MainDrops<S(!new)>(exec: Executor<S>, s: Server<S>, step: MainStep, cap: nat)
    requires Coupled(s, cap) && Productive(exec, s, OfMain(step), cap)
    requires Coupled(MainDo(exec, s, step), cap)
    ensures Cost(MainDo(exec, s, step), cap) < Cost(s, cap)
  {
    hide Cost, MainDo, Coupled;
    match step
    case Attend => AttendDrops(exec, s, cap);
    case Notify => NotifyDrops(exec, s, cap);
    case TakeReturn(nows) => TakeDrops(exec, s, nows, cap);
    case TakeHead => SweepDrops(exec, s, step, cap);
    case TakeTail => SweepDrops(exec, s, step, cap);
    case TakeMoveOut(_) => SweepDrops(exec, s, step, cap);
    case TakeReset => SweepDrops(exec, s, step, cap);
    case _ => PostDrops(exec, s, step, cap);
  }

  /** Every productive step uses up some of the measure. */
  lemma ProductiveDrops<S(!new)>(exec: Executor<S>, first: S, cap: nat, s: Server<S>, step: Step)
    requires Refinement.Inv(exec, first, cap, s) && Productive(exec, s, step, cap)
    ensures Refinement.Inv(exec, first, cap, Do(exec, s, step))
    ensures Cost(Do(exec, s, step), cap) < Cost(s, cap)
  {
    hide Cost, IoDo, MainDo, Channels.Inv, Coupled;
    match step
    case OfIo(i, io) =>
      IoStepKeeps(exec, first, cap, s, i, io);
      IoDrops(exec, s, i, io, cap);
    case OfMain(m) =>
      MainStepKeeps(exec, first, cap, s, m);
      MainDrops(exec, s, m, cap);
  }

  // ---- Settling ----

  ghost predicate ProductiveNext<S(!new)>(exec: Executor<S>, s: Server<S>, s': Server<S>, cap: nat) {
    Coupled(s, cap) && exists step :: Productive(exec, s, step, cap) && s' == Do(exec, s, step)
  }

  /** From any reachable state, no path of productive steps is longer than its measure. */
  lemma {:induction false} PathsAreBounded<S(!new)>(exec: Executor<S>, first: S, cap: nat, path: seq<Server<S>>)
    requires path != [] && Refinement.Inv(exec, first, cap, path[0])
    requires forall j | 0 <= j < |path| - 1 :: ProductiveNext(exec, path[j], path[j + 1], cap)
    ensures |path| - 1 <= Cost(path[0], cap)
    decreases |path|
  {
    hide Cost, External, Retry, Can, Channels.Inv, Coupled, Do;
    if |path| > 1 {
      assert ProductiveNext(exec, path[0], path[0 + 1], cap);
      var step :| Productive(exec, path[0], step, cap) && path[1] == Do(exec, path[0], step);
      ProductiveDrops(exec, first, cap, path[0], step);
      forall j | 0 <= j < |path[1..]| - 1 ensures ProductiveNext(exec, path[1..][j], path[1..][j + 1], cap) {
        assert ProductiveNext(exec, path[j + 1], path[j + 1 + 1], cap);
      }
      PathsAreBounded(exec, first, cap, path[1..]);
    }
  }

  /** A productive step during which no socket fails. */
  ghost predicate GentleNext<S(!new)>(exec: Executor<S>, s: Server<S>, s': Server<S>, cap: nat) {
    Coupled(s, cap) && exists step :: Productive(exec, s, step, cap) && Gentle(step) && s' == Do(exec, s, step)
  }

  /** `run'` goes on from `run` by such steps only. */
  ghost predicate GoesOn<S(!new)>(exec: Executor<S>, run: seq<Server<S>>, run': seq<Server<S>>, cap: nat) {
    && run != [] && run <= run'
    && forall j | |run| - 1 <= j < |run'| - 1 :: GentleNext(exec, run'[j], run'[j + 1], cap)
  }

  ghost predicate Stopped<S(!new)>(s: Server<S>, cap: nat)
    requires Coupled(s, cap)
  {
    !WorkPending(s, cap) || exists i: nat :: Deadlock(s, i, cap)
  }

  ghost function Left<S(!new)>(exec: Executor<S>, threads: nat, cap: nat, first: S, run: seq<Server<S>>): nat
    requires IsRun(exec, threads, cap, first, run)
  {
    RunInv(exec, threads, cap, first, run, |run| - 1);
    Cost(run[|run| - 1], cap)
  }

  lemma CanGoOn<S(!new)>(exec: Executor<S>, s: Server<S>, cap: nat)
    requires Awake(s, cap) && cap > 0 && !Stopped(s, cap)
    ensures exists step :: Productive(exec, s, step, cap) && Gentle(step)
  {
    ProgressUnlessDeadlock(exec, s, cap);
  }

  lemma OneStepMore<S(!new)>(exec: Executor<S>, threads: nat, cap: nat, first: S, run: seq<Server<S>>, step: Step)
    requires IsRun(exec, threads, cap, first, run) && Coupled(run[|run| - 1], cap)
    requires Productive(exec, run[|run| - 1], step, cap) && Gentle(step)
    ensures IsRun(exec, threads, cap, first, run + [Do(exec, run[|run| - 1], step)])
    ensures GentleNext(exec, run[|run| - 1], Do(exec, run[|run| - 1], step), cap)
  {
    hide Coupled;
    var longer := run + [Do(exec, run[|run| - 1], step)];
    forall j | 0 <= j < |longer| - 1 ensures Next(exec, longer[j], longer[j + 1]) {
      if j < |run| - 1 {
        assert Next(exec, run[j], run[j + 1]);
      }
    }
  }

  /** Every run can be continued by productive steps alone, none of
      them a failing write, to a state at rest, or to one in
      which the main thread and an IO thread wait for each other. */
  lemma {:induction false} EveryRunSettles<S(!new)>(exec: Executor<S>, threads: nat, cap: nat, first: S,
                                                    run: seq<Server<S>>)
    returns (run': seq<Server<S>>)
    requires cap > 0 && IsRun(exec, threads, cap, first, run)
    ensures IsRun(exec, threads, cap, first, run') && GoesOn(exec, run, run', cap)
    ensures Coupled(run'[|run'| - 1], cap) && Stopped(run'[|run'| - 1], cap)
    decreases Left(exec, threads, cap, first, run)
  {
    hide *;
    RunIsCoupled(exec, threads, cap, first, run);
    if Stopped(run[|run| - 1], cap) {
      run' := run;
      GoesOnSelf(exec, run, cap);
    } else {
      var longer := GoOn(exec, threads, cap, first, run);
      run' := EveryRunSettles(exec, threads, cap, first, longer);
      GoesOnFrom(exec, run, longer, run', cap);
    }
  }

  lemma RunIsCoupled<S(!new)>(exec: Executor<S>, threads: nat, cap: nat, first: S, run: seq<Server<S>>)
    requires IsRun(exec, threads, cap, first, run)
    ensures run != [] && Coupled(run[|run| - 1], cap)
  {
    RunInv(exec, threads, cap, first, run, |run| - 1);
  }

  lemma GoesOnSelf<S(!new)>(exec: Executor<S>, run: seq<Server<S>>, cap: nat)
    requires run != []
    ensures GoesOn(exec, run, run, cap)
  {
  }

  /** One productive step, if the run has not stopped. */
  lemma GoOn<S(!new)>(exec: Executor<S>, threads: nat, cap: nat, first: S, run: seq<Server<S>>)
    returns (longer: seq<Server<S>>)
    requires cap > 0 && IsRun(exec, threads, cap, first, run)
    requires Coupled(run[|run| - 1], cap) && !Stopped(run[|run| - 1], cap)
    ensures IsRun(exec, threads, cap, first, longer)
    ensures |longer| == |run| + 1 && run <= longer
    ensures GentleNext(exec, longer[|run| - 1], longer[|run|], cap)
    ensures Left(exec, threads, cap, first, longer) < Left(exec, threads, cap, first, run)
  {
    var s := run[|run| - 1];
    RunInv(exec, threads, cap, first, run, |run| - 1);
    NoWakeupIsLost(exec, threads, cap, first, run, |run| - 1);
    hide Cost, External, Retry, WorkPending, Deadlock, Channels.Inv, Do, Can, Awake, IsRun, Stopped;
    CanGoOn(exec, s, cap);
    var step :| Productive(exec, s, step, cap) && Gentle(step);
    ProductiveDrops(exec, first, cap, s, step);
    longer := run + [Do(exec, s, step)];
    OneStepMore(exec, threads, cap, first, run, step);
  }

  lemma GoesOnFrom<S(!new)>(exec: Executor<S>, run: seq<Server<S>>, longer: seq<Server<S>>,
                            run': seq<Server<S>>, cap: nat)
    requires run != [] && run <= longer && |longer| == |run| + 1 && GoesOn(exec, longer, run', cap)
    requires GentleNext(exec, longer[|run| - 1], longer[|run|], cap)
    ensures GoesOn(exec, run, run', cap)
  {
    hide GentleNext;
    forall j | |run| - 1 <= j < |run'| - 1 ensures GentleNext(exec, run'[j], run'[j + 1], cap) {
      if j == |run| - 1 {
        assert run'[j] == longer[j] && run'[j + 1] == longer[j + 1];
      }
    }
  }

  // ---- At rest ----

  /** In a reachable state at rest every live client has been answered: the requests
      executed for it are all the complete ones it sent, and the bytes sent or waiting for
      its socket are exactly the replies. */
  lemma AtRestAllIsAnswered<S(!new)>(exec: Executor<S>, threads: nat, cap: nat, first: S,
                                     run: seq<Server<S>>, i: nat, k: nat, fd: int)
    requires IsRun(exec, threads, cap, first, run) && i < |run|
    requires Coupled(run[i], cap) && !WorkPending(run[i], cap)
    requires k < |run[i].io| && fd in run[i].io[k].conns
    ensures Answered(run[i], k, fd)
  {
    EveryClientIsServed(exec, threads, cap, first, run, i, k, fd);
    var s, io := run[i], run[i].io[k];
    assert !IoBusy(io);
    hide RespQueue.Greedy, OfFd, Requests, Replies, Serial, Spsc.Inv, IsRun;
    assert Contents(io.outbox) + Going(io.pc) == [] && Contents(io.inbox) + Coming(s.pc, k) == [];
    var c, served := io.conns[fd], OfFd(s.main.log[s.main.since[fd]..], fd);
    assert Requests(served) + [] == Requests(served);
    assert c.sent + c.out + "" == c.sent + c.out;
  }

  ghost predicate Answered<S>(s: Server<S>, k: nat, fd: int)
    requires k < |s.io| && fd in s.io[k].conns
  {
    && fd in s.main.since && s.main.since[fd] <= |s.main.log|
    && var c, served := s.io[k].conns[fd], OfFd(s.main.log[s.main.since[fd]..], fd);
    && Requests(served) == RespQueue.Greedy(c.received).values
    && c.sent + c.out == Replies(served)
  }
}
