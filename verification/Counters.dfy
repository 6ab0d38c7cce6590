/** What the eventfds count. Every attempt to notify is on a counter until its reader clears
    it: over any run with its steps recorded, the shared command counter is the number of
    nudges and signals since the main thread last attended to it, and an inbox counter the
    number of notifications to that thread since it last woke. */
module Counters {
  import opened Channels
  import opened Spsc
  import opened Pipeline

  /** Each state follows from the one before by the step recorded. */
  ghost predicate IsTrace<S>(exec: Executor<S>, threads: nat, cap: nat, first: S, run: seq<Server<S>>, steps: seq<Step>) {
    && |run| == |steps| + 1 && run[0] == Start(threads, cap, first)
    && forall j | 0 <= j < |steps| :: Can(exec, run[j], steps[j]) && run[j + 1] == Do(exec, run[j], steps[j])
  }

  predicate Rings(step: Step) {
    step.OfIo? && (step.io.Nudge? || step.io.Signal?)
  }

  /** How often an IO thread has rung since the main thread last attended. */
  function Rung(steps: seq<Step>): nat {
    if steps == [] then 0
    else
      var last := steps[|steps| - 1];
      if last == OfMain(Attend) then 0
      else Rung(steps[..|steps| - 1]) + (if Rings(last) then 1 else 0)
  }

  lemma {:induction false} CommandCountsRings<S>(exec: Executor<S>, threads: nat, cap: nat, first: S,
                                                 run: seq<Server<S>>, steps: seq<Step>, k: nat)
    requires IsTrace(exec, threads, cap, first, run, steps) && k < |run|
    ensures run[k].command == Rung(steps[..k])
  {
    if k > 0 {
      CommandCountsRings(exec, threads, cap, first, run, steps, k - 1);
      assert steps[..k][..k - 1] == steps[..k - 1];
      CommandStep(exec, run[k - 1], steps[k - 1]);
      assert run[k - 1 + 1] == Do(exec, run[k - 1], steps[k - 1]);
    }
  }

  lemma CommandStep<S>(exec: Executor<S>, s: Server<S>, step: Step)
    requires Can(exec, s, step)
    ensures Do(exec, s, step).command ==
      if step == OfMain(Attend) then 0 else s.command + (if Rings(step) then 1 else 0)
  {
    hide Execute, Answer, Adopt, IoDo;
  }

  /** How often the main thread has notified thread `i` since it last woke. */
  function Notified<S>(run: seq<Server<S>>, steps: seq<Step>, k: nat, i: nat): nat
    requires k <= |steps| && k < |run|
  {
    if k == 0 then 0
    else if steps[k - 1] == OfIo(i, Wake) then 0
    else
      Notified(run, steps, k - 1, i) +
      (if steps[k - 1] == OfMain(Notify) && run[k - 1].pc.Ringing? && run[k - 1].pc.target == i then 1 else 0)
  }

  lemma {:induction false} EventCountsNotifications<S>(exec: Executor<S>, threads: nat, cap: nat, first: S,
                                                       run: seq<Server<S>>, steps: seq<Step>, k: nat, i: nat)
    requires IsTrace(exec, threads, cap, first, run, steps) && k < |run| && i < threads
    ensures |run[k].io| == threads && run[k].io[i].event == Notified(run, steps, k, i)
  {
    if k > 0 {
      EventCountsNotifications(exec, threads, cap, first, run, steps, k - 1, i);
      EventStep(exec, run[k - 1], steps[k - 1], i);
      assert run[k - 1 + 1] == Do(exec, run[k - 1], steps[k - 1]);
    }
  }

  lemma EventStep<S>(exec: Executor<S>, s: Server<S>, step: Step, i: nat)
    requires Can(exec, s, step) && i < |s.io|
    ensures |Do(exec, s, step).io| == |s.io|
    ensures Do(exec, s, step).io[i].event ==
      if step == OfIo(i, Wake) then 0
      else s.io[i].event + (if step == OfMain(Notify) && s.pc.Ringing? && s.pc.target == i then 1 else 0)
  {
    hide Execute, Answer, Adopt, Read, FlushConn, CloseConn, Handle;
  }

  /** A push that finds the ring full rings before it tries again: the look at the head leads
      to the nudge exactly then, and a thread about to nudge can do nothing else. */
  lemma FullRingNudges(io: Io, step: IoStep)
    requires IoCan(io, step)
    ensures step.PushHead? && Spsc.Inv(io.outbox) ==>
      (IoDo(io, step).pc.Nudging? <==> |Contents(io.outbox)| == io.outbox.cap)
    ensures io.pc.Nudging? ==>
      && step.Nudge?
      && IoDo(io, step).pc == Emitting(io.pc.msg, io.pc.back)
  {
    if step.PushHead? && Spsc.Inv(io.outbox) {
      PushLoadHeadKeeps(io.outbox);
    }
    hide Spsc.Inv, Contents, Read, FlushConn, CloseConn, Handle;
  }
}
