/** The life of a connection, told by what a client can see of it: when it begins and ends,
    what becomes of the bytes it sends, and what is handed to its socket. Each law is about
    every step of any thread in every reachable state. */
module Lifecycle {
  import opened Text
  import opened Resp
  import opened RespQueue
  import opened Channels
  import opened Spsc
  import opened Pipeline
  import opened Refinement
  import ReplyOrder

  // ---- What a client sees of a step ----

  /** The step takes a reply for `fd` from the inbox of its thread. */
  predicate Replies(io: Io, step: IoStep, fd: int) {
    step.PopReturn? && io.inbox.consumer.Cleared? && io.inbox.consumer.element.Write? &&
    io.inbox.consumer.element.fd == fd
  }

  /** The step is a write to the socket of `fd`. */
  predicate WritesTo(io: Io, step: IoStep, fd: int) {
    (step.Writable? && step.fd == fd) || Replies(io, step, fd)
  }

  /** The four ways a connection ends: its socket fails on a write, the bytes it has sent
      meet a malformed value, its peer is gone, or epoll reports it broken. */
  predicate Ends(io: Io, step: IoStep, fd: int)
    requires fd in io.conns
  {
    || (WritesTo(io, step, fd) && step.flush.Broken?)
    || (step.Recv? && step.fd == fd && Greedy(io.conns[fd].received + step.chunk).malformed)
    || (step.HangupNow? && io.pc.Hangup? && io.pc.fd == fd)
    || (step.Hup? && step.fd == fd)
  }

  /** The bytes the step reads from the socket of `fd`. */
  function BytesIn(step: IoStep, fd: int): string {
    if step.Recv? && step.fd == fd then step.chunk else ""
  }

  /** The bytes of a reply that the step brings. */
  function BytesBack(io: Io, step: IoStep, fd: int): string {
    if Replies(io, step, fd) then io.inbox.consumer.element.bytes else ""
  }

  /** How many bytes the socket of `fd` takes. */
  function BytesTaken(io: Io, step: IoStep, fd: int): nat {
    if WritesTo(io, step, fd) && step.flush.Sent? then step.flush.n else 0
  }

  /** What became of a connection that goes on: it has received and it is owed that much
      more, and its socket has been given that many bytes more. */
  ghost predicate GoesOnAs(c: Conn, c': Conn, bytesIn: string, back: string, taken: nat) {
    && c'.received == c.received + bytesIn
    && c'.sent + c'.out == c.sent + c.out + back
    && |c'.sent| == |c.sent| + taken
  }

  // ---- The laws for one thread ----

  /** The bytes left in the decoder are those the connection has sent beyond its last
      complete value. */
  ghost predicate Decoding(c: Conn) {
    Greedy(c.received).rest == c.buffer && !Greedy(c.received).malformed
  }

  lemma MalformedAlike(c: Conn, chunk: string)
    requires Decoding(c)
    ensures Greedy(c.received + chunk).malformed <==> Greedy(c.buffer + chunk).malformed
  {
    hide Greedy;
    GreedyResumes(c.received, chunk);
  }

  /** A connection ends with a step exactly if the step is one of the four. */
  lemma EndsExactly(io: Io, step: IoStep, fd: int)
    requires IoCan(io, step) && fd in io.conns && Decoding(io.conns[fd])
    ensures fd !in IoDo(io, step).conns <==> Ends(io, step, fd)
  {
    hide Greedy;
    if step.Recv? && step.fd == fd {
      MalformedAlike(io.conns[fd], step.chunk);
    }
  }

  /** Otherwise it goes on with the bytes the step brought, either way. */
  lemma OtherwiseGoesOn(io: Io, step: IoStep, fd: int)
    requires IoCan(io, step) && fd in io.conns && fd in IoDo(io, step).conns
    ensures GoesOnAs(io.conns[fd], IoDo(io, step).conns[fd], BytesIn(step, fd), BytesBack(io, step, fd),
                     BytesTaken(io, step, fd))
  {
    if Replies(io, step, fd) {
      RepliesGoOn(io, step, fd);
    } else if step.Writable? && step.fd == fd {
      WritesGoOn(io, step, fd);
    } else {
      RestGoesOn(io, step, fd);
    }
  }

  lemma RepliesGoOn(io: Io, step: IoStep, fd: int)
    requires IoCan(io, step) && fd in io.conns && fd in IoDo(io, step).conns && Replies(io, step, fd)
    ensures GoesOnAs(io.conns[fd], IoDo(io, step).conns[fd], BytesIn(step, fd), BytesBack(io, step, fd),
                     BytesTaken(io, step, fd))
  {
    var c, bytes := io.conns[fd], io.inbox.consumer.element.bytes;
    assert c.received + "" == c.received;
    SplitSent(c.sent, c.out + bytes, step.flush.n);
    assert c.sent + (c.out + bytes) == c.sent + c.out + bytes;
  }

  lemma WritesGoOn(io: Io, step: IoStep, fd: int)
    requires IoCan(io, step) && fd in io.conns && fd in IoDo(io, step).conns && step.Writable? && step.fd == fd
    ensures GoesOnAs(io.conns[fd], IoDo(io, step).conns[fd], BytesIn(step, fd), BytesBack(io, step, fd),
                     BytesTaken(io, step, fd))
  {
    var c := io.conns[fd];
    assert c.received + "" == c.received && c.sent + c.out + "" == c.sent + c.out;
    SplitSent(c.sent, c.out, step.flush.n);
  }

  lemma RestGoesOn(io: Io, step: IoStep, fd: int)
    requires IoCan(io, step) && fd in io.conns && fd in IoDo(io, step).conns
    requires !Replies(io, step, fd) && !(step.Writable? && step.fd == fd)
    ensures GoesOnAs(io.conns[fd], IoDo(io, step).conns[fd], BytesIn(step, fd), BytesBack(io, step, fd),
                     BytesTaken(io, step, fd))
  {
    hide Greedy;
    var c := io.conns[fd];
    assert c.received + "" == c.received && c.sent + c.out + "" == c.sent + c.out;
  }

  lemma SplitSent(sent: string, out: string, n: nat)
    requires n <= |out|
    ensures (sent + out[..n]) + out[n..] == sent + out
  {
  }

  /** A connection begins exactly with the handling of its assignment, and with nothing
      received, owed or sent. */
  lemma BeginsExactly(io: Io, step: IoStep, fd: int)
    requires IoCan(io, step) && fd !in io.conns
    ensures fd in IoDo(io, step).conns <==> step.PopReturn? && io.inbox.consumer.element == Assign(fd)
    ensures fd in IoDo(io, step).conns ==>
      var c := IoDo(io, step).conns[fd];
      c.received == "" && c.sent == "" && c.out == ""
  {
    hide Greedy;
  }

  // ---- The laws for the server ----

  lemma LiveIsDecoding<S(!new)>(exec: Executor<S>, first: S, cap: nat, s: Server<S>, k: nat, fd: int)
    requires Refinement.Inv(exec, first, cap, s) && k < |s.io| && fd in s.io[k].conns
    ensures Decoding(s.io[k].conns[fd])
  {
    hide Greedy, OutOf, InOf, OfFd, Contents, Serial, Spsc.Inv;
    var a := Abs(s, cap);
    assert a.threads[k] == AbsThread(s.io[k], Coming(s.pc, k));
    assert Good(a, k, fd);
  }

  /** In every reachable state: a step ends a connection if and only if it is a step of its
      own thread and one of the four; otherwise the connection goes on, with exactly the
      bytes that step read from it, brought back for it and gave to its socket. */
  lemma ConnectionLaw<S(!new)>(exec: Executor<S>, threads: nat, cap: nat, first: S, run: seq<Server<S>>, i: nat,
                               step: Step, k: nat, fd: int)
    requires IsRun(exec, threads, cap, first, run) && i < |run| && Can(exec, run[i], step)
    requires k < |run[i].io| && fd in run[i].io[k].conns
    ensures var s, s' := run[i], Do(exec, run[i], step);
      var own := step.OfIo? && step.i == k;
      && |s'.io| == |s.io|
      && (fd !in s'.io[k].conns <==> own && Ends(s.io[k], step.io, fd))
      && (fd in s'.io[k].conns ==>
            if own then
              GoesOnAs(s.io[k].conns[fd], s'.io[k].conns[fd], BytesIn(step.io, fd),
                       BytesBack(s.io[k], step.io, fd), BytesTaken(s.io[k], step.io, fd))
            else s'.io[k].conns[fd] == s.io[k].conns[fd])
  {
    RunInv(exec, threads, cap, first, run, i);
    hide Refinement.Inv, IoDo, IoCan, Ends, Greedy, Decoding;
    LiveIsDecoding(exec, first, cap, run[i], k, fd);
    if step.OfIo? {
      if step.i == k {
        EndsExactly(run[i].io[k], step.io, fd);
        if fd in IoDo(run[i].io[k], step.io).conns {
          OtherwiseGoesOn(run[i].io[k], step.io, fd);
        }
      }
    } else {
      MainLeavesConns(exec, run[i], step.m, k);
    }
  }

  lemma MainLeavesConns<S(!new)>(exec: Executor<S>, s: Server<S>, step: MainStep, k: nat)
    requires MainCan(exec, s, step) && k < |s.io|
    ensures var s' := MainDo(exec, s, step);
      |s'.io| == |s.io| && s'.io[k].conns == s.io[k].conns && s'.io[k].pc == s.io[k].pc
  {
    hide Execute, Answer, Adopt;
  }
}
