/** The request pipeline with its threads' hand-offs taken as plain message
    sequences: `Pipeline` shows that the rings, program counters and eventfds of the
    real threads do no more than this.

    One main thread executes; IO threads own connections. `inbox` holds what the
    main thread has decided to send to a thread and the thread has not taken,
    `outbox` the reverse. The command executor is any function of a store, a clock
    reading and a request. */
module Channels {
  import opened Text
  import opened Resp
  import opened RespQueue

  datatype InMsg = Assign(fd: int) | Write(fd: int, bytes: string)

  datatype OutMsg = Batch(fd: int, requests: seq<RespValue>) | Disconnect(fd: int)

  /** A `Connection`: the decoder's unread bytes and the bytes not yet accepted by
      the socket; `received` and `sent` record what went over the wire. */
  datatype Conn = Conn(buffer: string, out: string, received: string, sent: string)

  const FRESH: Conn := Conn("", "", "", "")

  datatype Thread = Thread(inbox: seq<InMsg>, outbox: seq<OutMsg>, conns: map<int, Conn>)

  /** One executed command, in the order the main thread executed them. */
  datatype Executed = Executed(fd: int, now: int, request: RespValue, reply: string)

  type Executor<!S> = (S, int, RespValue) -> (S, string)

  /** What only the main thread touches. `since[fd]` is how long the log was when
      `fd` was last accepted. */
  datatype Main<S> = Main(route: map<int, nat>, next: nat, store: S,
                          log: seq<Executed>, since: map<int, nat>)

  datatype State<S> = State(threads: seq<Thread>, main: Main<S>)

  // ---- Steps of an IO thread ----

  /** What the socket did with a write attempt: took some bytes, or failed. */
  datatype Flush = Sent(n: nat) | Broken

  /** `CloseConnection`. */
  function CloseConn(t: Thread, fd: int): Thread {
    if fd in t.conns then
      t.(conns := t.conns - {fd}, outbox := t.outbox + [Disconnect(fd)])
    else t
  }

  predicate CanFlush(c: Conn, flush: Flush) {
    match flush
    case Sent(n) => n <= |c.out|
    case Broken => c.out != ""
  }

  /** `FlushOutBuffer`. */
  function FlushConn(t: Thread, fd: int, flush: Flush): Thread
    requires fd in t.conns && CanFlush(t.conns[fd], flush)
  {
    var c := t.conns[fd];
    match flush
    case Broken => CloseConn(t, fd)
    case Sent(n) => t.(conns := t.conns[fd := c.(sent := c.sent + c.out[..n], out := c.out[n..])])
  }

  /** `HandleAssign` and `HandleWriteResponse`, for the message just taken. */
  function Handle(t: Thread, m: InMsg, flush: Flush): Thread
    requires CanHandle(t, m, flush)
  {
    match m
    case Assign(fd) => if fd in t.conns then t else t.(conns := t.conns[fd := FRESH])
    case Write(fd, bytes) =>
      if fd !in t.conns then t
      else
        var c := t.conns[fd];
        FlushConn(t.(conns := t.conns[fd := c.(out := c.out + bytes)]), fd, flush)
  }

  predicate CanHandle(t: Thread, m: InMsg, flush: Flush) {
    m.Write? && m.fd in t.conns ==> CanFlush(t.conns[m.fd].(out := t.conns[m.fd].out + m.bytes), flush)
  }

  /** `HandleReadable` on the bytes of one read: every value they complete goes out
      as one batch. A malformed value closes the connection, and the values parsed
      by that read go nowhere. */
  function Read(t: Thread, fd: int, chunk: string): Thread {
    if fd !in t.conns then t
    else
      var c := t.conns[fd];
      var d := Greedy(c.buffer + chunk);
      if d.malformed then CloseConn(t, fd)
      else
        t.(conns := t.conns[fd := c.(buffer := d.rest, received := c.received + chunk)],
           outbox := if d.values == [] then t.outbox else t.outbox + [Batch(fd, d.values)])
  }

  // ---- Steps of the main thread ----

  /** Executes a batch in order, one clock reading per command. */
  function RunBatch<S>(exec: Executor<S>, store: S, fd: int, nows: seq<int>, requests: seq<RespValue>)
    : (r: (S, seq<Executed>))
    requires |nows| == |requests|
    decreases |requests|
  {
    if requests == [] then (store, [])
    else
      var (store', reply) := exec(store, nows[0], requests[0]);
      var (store'', rest) := RunBatch(exec, store', fd, nows[1..], requests[1..]);
      (store'', [Executed(fd, nows[0], requests[0], reply)] + rest)
  }

  /** `AssignToIoThread`, before the message is posted. */
  function Adopt<S>(main: Main<S>, fd: int, threads: nat): Main<S>
    requires threads > 0
  {
    main.(route := main.route[fd := main.next],
          next := (main.next + 1) % threads,
          since := main.since[fd := |main.log|])
  }

  /** One message of `ProcessCommands`: a batch is executed whether or not its client
      is still there (`ExecuteAndRespond`), a disconnect only drops the route. */
  function Execute<S>(exec: Executor<S>, main: Main<S>, m: OutMsg, nows: seq<int>): Main<S>
    requires CanExecute(m, nows)
  {
    match m
    case Disconnect(fd) => main.(route := main.route - {fd})
    case Batch(fd, requests) =>
      var (store, entries) := RunBatch(exec, main.store, fd, nows, requests);
      main.(store := store, log := main.log + entries)
  }

  predicate CanExecute(m: OutMsg, nows: seq<int>) {
    m.Batch? ==> |nows| == |m.requests|
  }

  /** The reply to post, if the client is still routed: to which thread, and what. */
  function Answer<S>(exec: Executor<S>, main: Main<S>, m: OutMsg, nows: seq<int>): Option<(nat, InMsg)>
    requires CanExecute(m, nows)
  {
    if m.Batch? && m.fd in main.route then
      var entries := RunBatch(exec, main.store, m.fd, nows, m.requests).1;
      Some((main.route[m.fd], Write(m.fd, Replies(entries))))
    else None
  }

  /** Hands a message to a thread. */
  function Send(threads: seq<Thread>, i: nat, m: InMsg): seq<Thread>
    requires i < |threads|
  {
    threads[i := threads[i].(inbox := threads[i].inbox + [m])]
  }

  function Accept<S>(s: State<S>, fd: int): State<S>
    requires s.main.next < |s.threads|
  {
    State(Send(s.threads, s.main.next, Assign(fd)), Adopt(s.main, fd, |s.threads|))
  }

  /** One turn of `ProcessCommands` on the oldest message of thread `i`. */
  function Take<S>(exec: Executor<S>, s: State<S>, i: nat, nows: seq<int>): State<S>
    requires i < |s.threads| && CanTake(exec, s, i, nows)
  {
    var m := s.threads[i].outbox[0];
    var threads := s.threads[i := s.threads[i].(outbox := s.threads[i].outbox[1..])];
    var answer := Answer(exec, s.main, m, nows);
    State(if answer.Some? then Send(threads, answer.value.0, answer.value.1) else threads,
          Execute(exec, s.main, m, nows))
  }

  predicate CanTake<S>(exec: Executor<S>, s: State<S>, i: nat, nows: seq<int>)
    requires i < |s.threads|
  {
    && s.threads[i].outbox != []
    && CanExecute(s.threads[i].outbox[0], nows)
    && var answer := Answer(exec, s.main, s.threads[i].outbox[0], nows);
       answer.Some? ==> answer.value.0 < |s.threads|
  }

  // ---- Reading the log and the channels for one connection ----

  function Replies(log: seq<Executed>): string {
    if log == [] then "" else log[0].reply + Replies(log[1..])
  }

  function Requests(log: seq<Executed>): seq<RespValue> {
    seq(|log|, i requires 0 <= i < |log| => log[i].request)
  }

  function OfFd(log: seq<Executed>, fd: int): seq<Executed> {
    if log == [] then [] else (if log[0].fd == fd then [log[0]] else []) + OfFd(log[1..], fd)
  }

  function InOf(ms: seq<InMsg>, fd: int): seq<InMsg> {
    if ms == [] then [] else (if ms[0].fd == fd then [ms[0]] else []) + InOf(ms[1..], fd)
  }

  function OutOf(ms: seq<OutMsg>, fd: int): seq<OutMsg> {
    if ms == [] then [] else (if ms[0].fd == fd then [ms[0]] else []) + OutOf(ms[1..], fd)
  }

  predicate OnlyWrites(ms: seq<InMsg>) {
    forall i | 0 <= i < |ms| :: ms[i].Write?
  }

  predicate OnlyBatches(ms: seq<OutMsg>) {
    forall i | 0 <= i < |ms| :: ms[i].Batch?
  }

  function Bytes(ms: seq<InMsg>): string {
    if ms == [] then "" else (if ms[0].Write? then ms[0].bytes else "") + Bytes(ms[1..])
  }

  function Queued(ms: seq<OutMsg>): seq<RespValue> {
    if ms == [] then [] else (if ms[0].Batch? then ms[0].requests else []) + Queued(ms[1..])
  }

  // ---- What every reachable state satisfies ----

  /** The commands executed for the present holder of `fd`. */
  function Served<S>(s: State<S>, fd: int): seq<Executed> {
    if fd in s.main.since && s.main.since[fd] <= |s.main.log| then OfFd(s.main.log[s.main.since[fd]..], fd) else []
  }

  /** A connection the thread owns: its executed commands and queued batches are the
      values of the bytes it received, and the bytes sent, buffered and on their way
      are the replies to its executed commands. */
  ghost predicate Live(c: Conn, outs: seq<OutMsg>, ins: seq<InMsg>, served: seq<Executed>) {
    && OnlyBatches(outs)
    && OnlyWrites(ins)
    && Greedy(c.received) == Drained(Requests(served) + Queued(outs), c.buffer, false)
    && c.sent + c.out + Bytes(ins) == Replies(served)
  }

  /** An accepted connection the thread has not met yet. */
  ghost predicate Arriving(outs: seq<OutMsg>, ins: seq<InMsg>, served: seq<Executed>) {
    && outs == [] && served == []
    && ins != [] && ins[|ins| - 1].Assign? && OnlyWrites(ins[..|ins| - 1])
  }

  /** A connection the thread has closed and the main thread still routes. */
  ghost predicate Leaving(outs: seq<OutMsg>, ins: seq<InMsg>) {
    && OnlyWrites(ins)
    && outs != [] && outs[|outs| - 1].Disconnect? && OnlyBatches(outs[..|outs| - 1])
  }

  ghost predicate Consistent(t: Thread, fd: int, here: bool, served: seq<Executed>) {
    var outs, ins := OutOf(t.outbox, fd), InOf(t.inbox, fd);
    if !here then fd !in t.conns && outs == [] && OnlyWrites(ins)
    else if fd in t.conns then Live(t.conns[fd], outs, ins, served)
    else Arriving(outs, ins, served) || Leaving(outs, ins)
  }

  predicate Here<S>(s: State<S>, i: nat, fd: int) {
    fd in s.main.route && s.main.route[fd] == i
  }

  ghost predicate Good<S>(s: State<S>, i: nat, fd: int)
    requires i < |s.threads|
  {
    Consistent(s.threads[i], fd, Here(s, i, fd), Served(s, fd))
  }

  /** Running `log` one command after another from `first` gives its replies and
      ends in `last`. */
  ghost predicate Serial<S(!new)>(exec: Executor<S>, first: S, log: seq<Executed>, last: S)
    decreases |log|
  {
    if log == [] then first == last
    else
      var (next, reply) := exec(first, log[0].now, log[0].request);
      reply == log[0].reply && Serial(exec, next, log[1..], last)
  }

  ghost predicate Shape<S>(s: State<S>) {
    && s.main.next < |s.threads|
    && (forall fd | fd in s.main.route :: s.main.route[fd] < |s.threads|)
    && (forall fd | fd in s.main.since :: s.main.since[fd] <= |s.main.log|)
    && s.main.route.Keys <= s.main.since.Keys
  }

  /** Every batch holds values the decoder made. */
  ghost predicate Readable(ms: seq<OutMsg>) {
    forall k | 0 <= k < |ms| && ms[k].Batch? :: AllWellFormed(ms[k].requests)
  }

  ghost predicate Decoded<S>(s: State<S>) {
    && AllWellFormed(Requests(s.main.log))
    && forall i | 0 <= i < |s.threads| :: Readable(s.threads[i].outbox)
  }

  ghost predicate Inv<S(!new)>(exec: Executor<S>, first: S, s: State<S>) {
    && Shape(s)
    && Decoded(s)
    && Serial(exec, first, s.main.log, s.main.store)
    && forall i: nat, fd | i < |s.threads| :: Good(s, i, fd)
  }
}
