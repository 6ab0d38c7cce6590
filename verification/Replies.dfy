/** The server end to end: the real command executor inside the pipeline, and the
    bytes its clients see. */
module Replies {
  import opened Text
  import opened Resp
  import opened RespQueue
  import opened Store
  import opened Dispatcher
  import opened Channels
  import Pipeline
  import Refinement
  import ReplyOrder

  /** `Server::Execute`: dispatch one request and print the reply. */
  function Serve(data: Data, now: int, request: RespValue): (Data, string) {
    var (data', reply) := Dispatch(data, now, request);
    (data', Serialize(reply))
  }

  // ---- Replies are well formed ----

  /** Stored strings and expiries fit their machine types. */
  ghost predicate Fitting(data: Data) {
    forall k | k in data ::
      IsInt64(data[k].expiry) && (data[k].value.Some? ==> |data[k].value.value| <= INT64_MAX)
  }

  /** The clock is past 1970 and the expiry the request proposes, if any, does not
      overflow. */
  ghost predicate Reasonable(now: int, request: RespValue) {
    && 0 <= now
    && forall h | h in CHAIN && h.OnExpire? && Claims(h, request) ::
         IsInt64(Proposed(h, ParseCommand(request).value, now))
  }

  lemma ArgumentsFit(v: RespValue, r: Request, i: nat)
    requires WellFormed(v) && ParseCommand(v) == Some(r) && i < |r.args|
    ensures r.args[i].Some? ==> |r.args[i].value| <= INT64_MAX
  {
    ParseCommandExactly(v, r);
    assert WellFormed(v.elements[i + 1]);
  }

  lemma HandleIsSound(h: Handler, data: Data, now: int, v: RespValue)
    requires h in CHAIN && Claims(h, v) && Fitting(data) && WellFormed(v) && Reasonable(now, v)
    ensures var (data', reply) := Dispatcher.Handle(h, data, now, v);
      Fitting(data') && WellFormed(reply)
  {
    if h.OnGet? || h.OnSet? || h.OnDel? || h.OnEcho? {
      ValueHandlerIsSound(h, data, now, v);
    } else if h.OnExpire? || h.OnTtl? || h.OnPersist? {
      ExpiryHandlerIsSound(h, data, now, v);
    } else {
      OtherHandlerIsSound(h, data, now, v);
    }
  }

  lemma ValueHandlerIsSound(h: Handler, data: Data, now: int, v: RespValue)
    requires Claims(h, v) && (h.OnGet? || h.OnSet? || h.OnDel? || h.OnEcho?)
    requires Fitting(data) && WellFormed(v) && Reasonable(now, v)
    ensures var (data', reply) := Dispatcher.Handle(h, data, now, v);
      Fitting(data') && WellFormed(reply)
  {
    hide ParseCommand, HasCrlf;
    var r := ParseCommand(v).value;
    ArgumentsFit(v, r, 0);
    if h.OnSet? {
      ArgumentsFit(v, r, 1);
    }
    NoCrlf("OK");
  }

  lemma ExpiryHandlerIsSound(h: Handler, data: Data, now: int, v: RespValue)
    requires h in CHAIN && Claims(h, v) && (h.OnExpire? || h.OnTtl? || h.OnPersist?)
    requires Fitting(data) && WellFormed(v) && Reasonable(now, v)
    ensures var (data', reply) := Dispatcher.Handle(h, data, now, v);
      Fitting(data') && WellFormed(reply)
  {
    hide ParseCommand, HasCrlf;
  }

  lemma OtherHandlerIsSound(h: Handler, data: Data, now: int, v: RespValue)
    requires Claims(h, v) && (h.OnAnything? || h.OnPing? || h.OnHello?)
    requires Fitting(data) && WellFormed(v) && Reasonable(now, v)
    ensures var (data', reply) := Dispatcher.Handle(h, data, now, v);
      Fitting(data') && WellFormed(reply)
  {
    hide ParseCommand, HasCrlf;
    NoCrlf("Unknown subcommand or command");
    NoCrlf("PONG");
    NoCrlf("NOPROTO unsupported protocol version");
    HelloIsWellFormed();
    if h.OnPing? && |ParseCommand(v).value.args| >= 1 {
      ArgumentsFit(v, ParseCommand(v).value, 0);
    }
  }

  lemma NoCrlf(s: string)
    requires forall i | 0 <= i < |s| :: s[i] != '\r'
    ensures !HasCrlf(s)
  {
  }

  lemma HelloIsWellFormed()
    ensures WellFormed(HELLO_INFO)
  {
    assert AllWellFormed(HELLO_INFO.elements);
  }

  lemma ServeIsSound(data: Data, now: int, v: RespValue)
    requires Fitting(data) && WellFormed(v) && Reasonable(now, v)
    ensures var (data', reply) := Dispatch(data, now, v);
      Fitting(data') && WellFormed(reply)
  {
    hide Dispatcher.Handle, Claims;
    HandleIsSound(FirstClaim(v, 0), data, now, v);
  }

  // ---- The replies in a log ----

  ghost predicate AllReasonable(log: seq<Executed>) {
    forall i | 0 <= i < |log| :: Reasonable(log[i].now, log[i].request)
  }

  ghost predicate AllReadable(log: seq<Executed>) {
    forall i | 0 <= i < |log| :: WellFormed(log[i].request)
  }

  /** The store after dispatching a log's requests one after another. */
  function StoreAfter(data: Data, log: seq<Executed>): Data
    decreases |log|
  {
    if log == [] then data
    else StoreAfter(Dispatch(data, log[0].now, log[0].request).0, log[1..])
  }

  /** What `Dispatch` answers to the requests of `fd` in a log run serially. */
  function Answers(data: Data, log: seq<Executed>, fd: int): seq<RespValue>
    decreases |log|
  {
    if log == [] then []
    else
      var (data', reply) := Dispatch(data, log[0].now, log[0].request);
      (if log[0].fd == fd then [reply] else []) + Answers(data', log[1..], fd)
  }

  lemma {:induction false} SerialSplits(data: Data, log: seq<Executed>, last: Data, n: nat)
    requires Serial(Serve, data, log, last) && Fitting(data) && AllReadable(log) && AllReasonable(log) && n <= |log|
    ensures var mid := StoreAfter(data, log[..n]);
      Fitting(mid) && Serial(Serve, mid, log[n..], last)
    decreases n
  {
    hide Dispatch, Reasonable, WellFormed;
    if n == 0 {
      assert log[0..] == log;
    } else {
      ServeIsSound(data, log[0].now, log[0].request);
      var data' := Dispatch(data, log[0].now, log[0].request).0;
      assert forall i | 0 <= i < |log[1..]| :: log[1..][i] == log[i + 1];
      SerialSplits(data', log[1..], last, n - 1);
      assert log[..n][1..] == log[1..][..n - 1] && log[1..][n - 1..] == log[n..];
    }
  }

  /** The bytes logged for a client are its answers printed one after another. */
  lemma {:induction false} AnswersPrinted(data: Data, log: seq<Executed>, last: Data, fd: int)
    requires Serial(Serve, data, log, last) && Fitting(data) && AllReadable(log) && AllReasonable(log)
    ensures AllWellFormed(Answers(data, log, fd))
    ensures Channels.Replies(OfFd(log, fd)) == SerializeAll(Answers(data, log, fd))
    ensures |Answers(data, log, fd)| == |OfFd(log, fd)|
    decreases |log|
  {
    hide Dispatch, Reasonable, WellFormed;
    if log != [] {
      var (data', reply) := Dispatch(data, log[0].now, log[0].request);
      ServeIsSound(data, log[0].now, log[0].request);
      assert forall i | 0 <= i < |log[1..]| :: log[1..][i] == log[i + 1];
      AnswersPrinted(data', log[1..], last, fd);
      var rest, more := OfFd(log[1..], fd), Answers(data', log[1..], fd);
      if log[0].fd == fd {
        assert ([log[0]] + rest)[1..] == rest && ([reply] + more)[1..] == more;
      } else {
        assert [] + rest == rest && [] + more == more;
      }
    }
  }

  // ---- One batch ----

  /** The coalesced reply to the n requests in the bytes of one read, fed to a decoder in
      any chunks and popped at any moments until nothing is left, gives exactly the n
      answers. */
  lemma CoalescedReply(data: Data, fd: int, nows: seq<int>, bytes: string, ops: seq<Op>)
    requires Fitting(data) && |nows| == |Greedy(bytes).values|
    requires forall i | 0 <= i < |nows| :: Reasonable(nows[i], Greedy(bytes).values[i])
    requires RunAll(ops).pushed == Channels.Replies(RunBatch(Serve, data, fd, nows, Greedy(bytes).values).1)
    requires PopValue(RunAll(ops).q).1.Nothing?
    ensures var entries := RunBatch(Serve, data, fd, nows, Greedy(bytes).values).1;
      && RunAll(ops).returned == Answers(data, entries, fd)
      && |RunAll(ops).returned| == |Greedy(bytes).values|
  {
    hide RunAll, Greedy, Reasonable, Serial, RunBatch, WellFormed;
    var requests := Greedy(bytes).values;
    var (last, entries) := RunBatch(Serve, data, fd, nows, requests);
    ReplyOrder.RunBatchFacts(Serve, data, fd, nows, requests);
    GreedyIsWellFormed(bytes);
    BatchEntries(data, fd, nows, requests);
    ReplyOrder.OfFdOwn(entries, fd, fd);
    AnswersPrinted(data, entries, last, fd);
    GreedyOfSerialized(Answers(data, entries, fd));
    NothingMeansAll(ops);
  }

  lemma {:induction false} BatchEntries(data: Data, fd: int, nows: seq<int>, requests: seq<RespValue>)
    requires |nows| == |requests|
    ensures var entries := RunBatch(Serve, data, fd, nows, requests).1;
      |entries| == |requests| &&
      forall i | 0 <= i < |entries| :: entries[i].now == nows[i] && entries[i].request == requests[i]
    decreases |requests|
  {
    hide Serve;
    if requests != [] {
      BatchEntries(Serve(data, nows[0], requests[0]).0, fd, nows[1..], requests[1..]);
    }
  }

  // ---- The whole server ----

  /** In every reachable state, whatever the interleaving: the values a client can
      decode from the bytes sent to it are its own requests' answers in order, those of
      the serial run of the log, and its requests executed so far are the first values
      of the bytes it sent. */
  lemma EveryClientReadsItsAnswers(threads: nat, cap: nat, first: Data, run: seq<Pipeline.Server<Data>>,
                                   i: nat, k: nat, fd: int)
    requires Refinement.IsRun(Serve, threads, cap, first, run) && i < |run|
    requires k < |run[i].io| && fd in run[i].io[k].conns
    requires Fitting(first) && AllReasonable(run[i].main.log)
    ensures var s := run[i];
      var c := s.io[k].conns[fd];
      && fd in s.main.since && s.main.since[fd] <= |s.main.log|
      && var n := s.main.since[fd];
      var answers := Answers(StoreAfter(first, s.main.log[..n]), s.main.log[n..], fd);
      && !Greedy(c.sent).malformed
      && Greedy(c.sent).values <= answers
      && Requests(OfFd(s.main.log[n..], fd)) <= Greedy(c.received).values
  {
    hide Greedy, Serve, OfFd, Answers, StoreAfter, Reasonable, Serial, InOf, OutOf, Bytes, Queued;
    Refinement.EveryClientIsServed(Serve, threads, cap, first, run, i, k, fd);
    var s := run[i];
    var c, n, log := s.io[k].conns[fd], s.main.since[fd], s.main.log;
    LogIsReadable(threads, cap, first, run, i);
    SerialSplits(first, log, s.main.store, n);
    var mid := StoreAfter(first, log[..n]);
    assert AllReasonable(log[n..]) && AllReadable(log[n..]) by {
      assert forall j | 0 <= j < |log[n..]| :: log[n..][j] == log[n + j];
    }
    AnswersPrinted(mid, log[n..], s.main.store, fd);
    var answers := Answers(mid, log[n..], fd);
    GreedyOfSerialized(answers);
    var all := SerializeAll(answers);
    assert c.sent <= all;
    GreedyOfPrefix(c.sent, all);
  }

  /** Every request executed was made by the decoder. */
  lemma LogIsReadable(threads: nat, cap: nat, first: Data, run: seq<Pipeline.Server<Data>>, i: nat)
    requires Refinement.IsRun(Serve, threads, cap, first, run) && i < |run|
    ensures AllReadable(run[i].main.log)
  {
    hide Serve, WellFormed, Serial, Good;
    Refinement.RunInv(Serve, threads, cap, first, run, i);
    var log := run[i].main.log;
    assert AllWellFormed(Requests(log));
    forall k | 0 <= k < |log| ensures WellFormed(log[k].request) {
      assert Requests(log)[k] == log[k].request;
    }
  }

  /** What a prefix of a clean stream decodes to is a prefix of what the stream does. */
  lemma GreedyOfPrefix(a: string, s: string)
    requires a <= s && !Greedy(s).malformed
    ensures !Greedy(a).malformed && Greedy(a).values <= Greedy(s).values
  {
    hide Greedy;
    GreedyResumes(a, s[|a|..]);
    assert a + s[|a|..] == s;
  }

  // ---- EXPIRE and TTL through the wire ----

  lemma NamedHandler(h: Handler)
    requires h in CHAIN && (h.OnExpire? || h.OnTtl?)
    ensures h.name != ""
  {
  }

  lemma DispatchExpire(data: Data, key: string, text: string, n: int, now: int, h: Handler)
    requires h in CHAIN && h.OnExpire? && h.relative
    requires key != "" && key in data && WholeInteger(Some(text)) == Some(n)
    ensures Dispatch(data, now, AsValue(Request(h.name, [Some(key), Some(text)])))
         == (ExpireAt(data, key, now + n * h.factor, NA), Integer(1))
  {
    hide ParseCommand, WholeInteger, AsValue, Dispatch;
    var r := Request(h.name, [Some(key), Some(text)]);
    NamedHandler(h);
    ParseCommandExactly(AsValue(r), r);
    DispatchIsTheClaimant(h, data, now, AsValue(r));
  }

  lemma DispatchTtl(data: Data, key: string, now: int, h: Handler)
    requires h in CHAIN && h.OnTtl? && key != ""
    ensures var t := Ttl(data, key, now);
      Dispatch(data, now, AsValue(Request(h.name, [Some(key)])))
      == (data, Integer(if t < 0 then t else t / h.factor))
  {
    hide ParseCommand, AsValue, Dispatch;
    var r := Request(h.name, [Some(key)]);
    NamedHandler(h);
    ParseCommandExactly(AsValue(r), r);
    DispatchIsTheClaimant(h, data, now, AsValue(r));
  }

  /** Setting a relative expiry and asking for it back `delay` milliseconds later gives
      what is left of it, rounded down to the unit. */
  lemma ExpireThenTtl(data: Data, key: string, text: string, n: int, now: int, delay: nat,
                      expire: Handler, ttl: Handler)
    requires expire in CHAIN && expire.OnExpire? && expire.relative
    requires ttl in CHAIN && ttl.OnTtl?
    requires key != "" && key in data
    requires WholeInteger(Some(text)) == Some(n)
    requires delay < n * expire.factor && now + n * expire.factor != NO_EXPIRY
    ensures var (data', reply) := Dispatch(data, now, AsValue(Request(expire.name, [Some(key), Some(text)])));
      && reply == Integer(1)
      && Dispatch(data', now + delay, AsValue(Request(ttl.name, [Some(key)])))
         == (data', Integer((n * expire.factor - delay) / ttl.factor))
  {
    hide Dispatch, AsValue, WholeInteger;
    DispatchExpire(data, key, text, n, now, expire);
    var data' := ExpireAt(data, key, now + n * expire.factor, NA);
    DispatchTtl(data', key, now + delay, ttl);
    assert Ttl(data', key, now + delay) == n * expire.factor - delay;
  }

  // ---- A null value through the wire ----

  /** SET with a null bulk string as its value is accepted, and from then on GET finds
      nothing and TTL reports a key without expiry, whatever the time. */
  lemma SetNullDisagrees(data: Data, key: string, now: int, later: int)
    requires key != ""
    ensures var (data', reply) := Dispatch(data, now, AsValue(Request("SET", [Some(key), None])));
      && reply == SimpleString("OK")
      && Get(data', key, later).None? && Ttl(data', key, later) == -1
  {
    hide ParseCommand, AsValue, Dispatch;
    var r := Request("SET", [Some(key), None]);
    ParseCommandExactly(AsValue(r), r);
    DispatchIsTheClaimant(OnSet, data, now, AsValue(r));
  }
}
