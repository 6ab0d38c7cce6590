/** The main thread as it runs: the routes, the round-robin counter and the store
    change message by message, in nested loops. Each loop is proved against the steps of
    `Channels`, and the sweep over all outboxes is shown to leave none of them behind.
    Clock readings and accepted descriptors are parameters. */
module MainThread {
  import opened Text
  import opened Resp
  import opened Store
  import opened Channels
  import Dispatcher
  import Replies
  import RespMethods
  import ReplyOrder
  import FdReuse

  class Server {
    var threads: seq<Thread>
    var route: map<int, nat>
    var next: nat
    const store: Store
    ghost var log: seq<Executed>
    ghost var since: map<int, nat>

    ghost function View(): State<Data>
      reads this, store
    {
      State(threads, Main(route, next, store.data, log, since))
    }

    /** One core is kept for the main thread, and there is always one IO thread. */
    constructor (hardware: nat, store: Store)
      ensures this.store == store && |threads| == (if hardware > 1 then hardware - 1 else 1)
      ensures Inv(Replies.Serve, store.data, View())
    {
      this.store := store;
      threads := seq(if hardware > 1 then hardware - 1 else 1, _ => Thread([], [], map[]));
      route, next, log, since := map[], 0, [], map[];
    }

    /** `AssignToIoThread`. */
    method AssignToIoThread(fd: int)
      requires next < |threads|
      modifies this
      ensures View() == Accept(old(View()), fd)
    {
      var index := next;
      next := (next + 1) % |threads|;
      route := route[fd := index];
      since := since[fd := |log|];
      threads := Send(threads, index, Assign(fd));
    }

    /** `AcceptConnections`, whatever descriptors come. */
    method AcceptConnections(fds: seq<int>)
      requires next < |threads|
      modifies this
      ensures View() == AcceptAll(old(View()), fds)
    {
      assert fds[..0] == [];
      for i := 0 to |fds|
        invariant next < |threads| && View() == AcceptAll(old(View()), fds[..i])
      {
        assert fds[..i + 1][..i] == fds[..i];
        AssignToIoThread(fds[i]);
      }
      assert fds[..|fds|] == fds;
    }

    /** `Execute`. */
    method Execute(now: int, request: RespValue) returns (reply: string)
      modifies store
      ensures (store.data, reply) == Replies.Serve(old(store.data), now, request)
    {
      var value := Dispatcher.DispatchLoop(store, now, request);
      reply := RespMethods.Print(value);
    }

    /** `ExecuteAndRespond`: the whole batch runs, and its replies, joined, go back as one
        message if the client is still routed. */
    method ExecuteAndRespond(fd: int, requests: seq<RespValue>, nows: seq<int>)
      requires |nows| == |requests|
      requires fd in route ==> route[fd] < |threads|
      modifies store, this`log, this`threads
      ensures var (store', entries) := RunBatch(Replies.Serve, old(store.data), fd, nows, requests);
        && store.data == store' && log == old(log) + entries
        && threads == if fd in route then Send(old(threads), route[fd], Write(fd, Channels.Replies(entries)))
                      else old(threads)
    {
      ghost var entries := RunBatch(Replies.Serve, store.data, fd, nows, requests).1;
      var response := ExecuteAll(fd, requests, nows);
      log := log + entries;
      if fd in route {
        threads := Send(threads, route[fd], Write(fd, response));
      }
    }

    /** The loop of `ExecuteAndRespond`. */
    method ExecuteAll(ghost fd: int, requests: seq<RespValue>, nows: seq<int>) returns (response: string)
      requires |nows| == |requests|
      modifies store
      ensures var (store', entries) := RunBatch(Replies.Serve, old(store.data), fd, nows, requests);
        store.data == store' && response == Channels.Replies(entries)
    {
      hide Replies.Serve, RunBatch, Channels.Replies;
      response := "";
      ghost var (last, entries) := RunBatch(Replies.Serve, store.data, fd, nows, requests);
      assert nows[0..] == nows && requests[0..] == requests;
      for i := 0 to |requests|
        invariant RunBatch(Replies.Serve, store.data, fd, nows[i..], requests[i..]).0 == last
        invariant Channels.Replies(entries)
          == response + Channels.Replies(RunBatch(Replies.Serve, store.data, fd, nows[i..], requests[i..]).1)
      {
        BatchFrom(store.data, fd, nows, requests, i);
        var reply := Execute(nows[i], requests[i]);
        ghost var rest :=
          Channels.Replies(RunBatch(Replies.Serve, store.data, fd, nows[i + 1..], requests[i + 1..]).1);
        assert response + (reply + rest) == (response + reply) + rest;
        response := response + reply;
      }
      NoBatch(store.data, fd);
    }

    /** What IO threads may do between two pops, as far as the main thread relies on it:
        take from their inboxes, push to their outboxes, and keep the accounts straight. */
    method IoThreadsRun(ghost first: Data)
      requires Inv(Replies.Serve, first, View())
      modifies this`threads
      ensures Inv(Replies.Serve, first, View()) && |threads| == |old(threads)|
      ensures forall j | 0 <= j < |threads| :: old(threads)[j].outbox <= threads[j].outbox
    {
    }

    /** One message of `ProcessCommands`, with the clock readings it needs. */
    method ProcessOne(i: nat, clock: nat -> int, start: nat, ghost first: Data) returns (end: nat)
      requires Inv(Replies.Serve, first, View()) && i < |threads| && threads[i].outbox != []
      modifies this, store
      ensures Inv(Replies.Serve, first, View())
      ensures |threads| == |old(threads)|
      ensures forall j | 0 <= j < |threads| ::
        threads[j].outbox == if j == i then old(threads)[i].outbox[1..] else old(threads)[j].outbox
      ensures Requests(log) == Requests(old(log)) + ReplyOrder.Asked(old(threads)[i].outbox[0])
      ensures Timed(old(log), log, clock, start, end)
    {
      hide Good, Replies.Serve, RunBatch, Serial, Timed;
      ghost var before := View();
      var msg := threads[i].outbox[0];
      var size := if msg.Batch? then |msg.requests| else 0;
      var nows := Readings(clock, start, size);
      end := start + size;
      CanTakeNow(first, before, i, nows);
      threads := threads[i := threads[i].(outbox := threads[i].outbox[1..])];
      match msg {
        case Batch(fd, requests) =>
          ReplyOrder.TakeBatchKeeps(Replies.Serve, first, before, i, nows);
          ReplyOrder.RunBatchFacts(Replies.Serve, store.data, fd, nows, requests);
          BatchTimed(store.data, log, fd, nows, requests, clock, start);
          ExecuteAndRespond(fd, requests, nows);
        case Disconnect(fd) =>
          ReplyOrder.TakeDisconnectKeeps(Replies.Serve, first, before, i, nows);
          NothingTimed(log, clock, start);
          route := route - {fd};
      }
      assert View() == Take(Replies.Serve, before, i, nows);
    }

    /** `ProcessCommands`, with the IO threads running on up to `turns` times in between:
        every message that waited in an outbox is processed, thread by thread and in each
        thread's order, with whatever is pushed behind it meanwhile. If nothing is, all
        outboxes are empty afterwards. */
    method ProcessCommands(clock: nat -> int, turns: nat, ghost first: Data) returns (ghost taken: seq<seq<OutMsg>>)
      requires Inv(Replies.Serve, first, View())
      modifies this, store
      ensures Inv(Replies.Serve, first, View())
      ensures |threads| == |old(threads)| == |taken|
      ensures forall j | 0 <= j < |taken| :: Behind(old(threads)[j].outbox, taken[j], turns == 0)
      ensures Requests(log) == Requests(old(log)) + Waiting(taken)
      ensures old(log) <= log && forall k | |old(log)| <= k < |log| :: log[k].now == clock(k - |old(log)|)
      ensures turns == 0 ==> forall j | 0 <= j < |threads| :: threads[j].outbox == []
    {
      hide Inv, Requests, Queued;
      ghost var before := threads;
      var time: nat, left: nat := 0, turns;
      taken := [];
      assert Requests(log) + [] == Requests(log);
      for i := 0 to |threads|
        invariant Inv(Replies.Serve, first, View()) && |threads| == |before| && |taken| == i && left <= turns
        invariant forall j | 0 <= j < i :: Behind(before[j].outbox, taken[j], turns == 0)
        invariant forall j | i <= j < |threads| :: Behind(before[j].outbox, threads[j].outbox, turns == 0)
        invariant turns == 0 ==> forall j | 0 <= j < i :: threads[j].outbox == []
        invariant Requests(log) == Requests(old(log)) + Waiting(taken)
        invariant Timed(old(log), log, clock, 0, time)
      {
        ghost var mine;
        ghost var was, sofar, mid := Requests(log), log, time;
        time, left, mine := DrainOutbox(i, clock, time, left, first);
        TimedOn(old(log), sofar, log, clock, 0, mid, time);
        assert (taken + [mine])[..i] == taken;
        assert was + Queued(mine) == Requests(old(log)) + (Waiting(taken) + Queued(mine));
        taken := taken + [mine];
      }
    }

    /** The inner loop: everything in one thread's outbox. */
    method DrainOutbox(i: nat, clock: nat -> int, start: nat, turns: nat, ghost first: Data)
      returns (end: nat, left: nat, ghost taken: seq<OutMsg>)
      requires Inv(Replies.Serve, first, View()) && i < |threads|
      modifies this, store
      ensures Inv(Replies.Serve, first, View()) && |threads| == |old(threads)| && left <= turns
      ensures threads[i].outbox == [] && Behind(old(threads)[i].outbox, taken, turns == 0)
      ensures ElsewhereBehind(old(threads), threads, i, turns == 0)
      ensures Requests(log) == Requests(old(log)) + Queued(taken)
      ensures Timed(old(log), log, clock, start, end)
    {
      hide Inv, Requests, Queued, Timed;
      end, left, taken := start, turns, [];
      NothingTimed(log, clock, start);
      QueuedNone();
      assert Requests(log) + [] == Requests(log) && taken + threads[i].outbox == threads[i].outbox;
      while threads[i].outbox != []
        invariant Inv(Replies.Serve, first, View()) && |threads| == |old(threads)| && left <= turns
        invariant Behind(old(threads)[i].outbox, taken + threads[i].outbox, turns == 0)
        invariant ElsewhereBehind(old(threads), threads, i, turns == 0)
        invariant Requests(log) == Requests(old(log)) + Queued(taken)
        invariant Timed(old(log), log, clock, start, end)
        decreases left, |threads[i].outbox|
      {
        ghost var waiting, sofar, mid := threads[i].outbox, log, end;
        end := ProcessOne(i, clock, end, first);
        TimedOn(old(log), sofar, log, clock, start, mid, end);
        OneMoreTaken(Requests(old(log)), taken, waiting);
        taken := taken + [waiting[0]];
        if left > 0 {
          IoThreadsRun(first);
          left := left - 1;
        }
      }
      assert taken + [] == taken;
    }
  }

  /** The log has grown by one entry for each reading of the clock from `start` to `end`,
      executed at that reading. */
  ghost predicate Timed(before: seq<Executed>, after: seq<Executed>, clock: nat -> int, start: nat, end: nat) {
    && before <= after && start <= end && |after| == |before| + (end - start)
    && forall k | |before| <= k < |after| :: after[k].now == clock(start + (k - |before|))
  }

  /** Successive readings of the clock. */
  function Readings(clock: nat -> int, start: nat, size: nat): (nows: seq<int>)
    ensures |nows| == size && forall k | 0 <= k < size :: nows[k] == clock(start + k)
  {
    seq(size, j requires j >= 0 => clock(start + j))
  }

  lemma BatchTimed(store: Data, log: seq<Executed>, fd: int, nows: seq<int>, requests: seq<RespValue>,
                   clock: nat -> int, start: nat)
    requires |nows| == |requests| && nows == Readings(clock, start, |requests|)
    ensures Timed(log, log + RunBatch(Replies.Serve, store, fd, nows, requests).1, clock, start, start + |requests|)
  {
    hide Replies.Serve, RunBatch;
    ReplyOrder.RunBatchFacts(Replies.Serve, store, fd, nows, requests);
    var entries := RunBatch(Replies.Serve, store, fd, nows, requests).1;
    forall k | |log| <= k < |log + entries|
      ensures (log + entries)[k].now == clock(start + (k - |log|))
    {
      assert (log + entries)[k] == entries[k - |log|];
    }
  }

  lemma NothingTimed(log: seq<Executed>, clock: nat -> int, start: nat)
    ensures Timed(log, log, clock, start, start)
  {
  }

  lemma TimedOn(a: seq<Executed>, b: seq<Executed>, c: seq<Executed>, clock: nat -> int,
                start: nat, mid: nat, end: nat)
    requires Timed(a, b, clock, start, mid) && Timed(b, c, clock, mid, end)
    ensures Timed(a, c, clock, start, end)
  {
    forall k | |a| <= k < |c| ensures c[k].now == clock(start + (k - |a|)) {
      if k < |b| {
        assert c[k] == b[k];
      } else {
        assert mid + (k - |b|) == start + (k - |a|);
      }
    }
  }

  predicate NonDecreasing(log: seq<Executed>) {
    forall i, j | 0 <= i < j < |log| :: log[i].now <= log[j].now
  }

  /** A clock that never runs backwards gives a log whose times never do. */
  lemma TimesNeverRunBackwards(before: seq<Executed>, after: seq<Executed>, clock: nat -> int)
    requires before <= after && forall k | |before| <= k < |after| :: after[k].now == clock(k - |before|)
    requires NonDecreasing(before) && forall i: nat, j: nat | i <= j :: clock(i) <= clock(j)
    requires forall k | 0 <= k < |before| :: before[k].now <= clock(0)
    ensures NonDecreasing(after)
  {
    forall i, j | 0 <= i < j < |after| ensures after[i].now <= after[j].now {
      if j < |before| {
        assert after[i] == before[i] && after[j] == before[j];
      } else if i < |before| {
        assert after[i] == before[i] && clock(0) <= clock(j - |before|);
      } else {
        assert clock(i - |before|) <= clock(j - |before|);
      }
    }
  }

  lemma OneMoreTaken(done: seq<RespValue>, taken: seq<OutMsg>, waiting: seq<OutMsg>)
    requires waiting != []
    ensures (done + Queued(taken)) + ReplyOrder.Asked(waiting[0]) == done + Queued(taken + [waiting[0]])
    ensures taken + waiting == (taken + [waiting[0]]) + waiting[1..]
  {
    hide Queued;
    ReplyOrder.QueuedAppend(taken, waiting[0]);
    assert (done + Queued(taken)) + ReplyOrder.Asked(waiting[0]) == done + (Queued(taken) + ReplyOrder.Asked(waiting[0]));
  }

  /** The list is still there, at the front if more may have come behind it. */
  predicate Behind(before: seq<OutMsg>, after: seq<OutMsg>, quiet: bool) {
    before <= after && (quiet ==> before == after)
  }

  predicate ElsewhereBehind(before: seq<Thread>, after: seq<Thread>, i: nat, quiet: bool) {
    |before| == |after| && forall j | 0 <= j < |after| && j != i :: Behind(before[j].outbox, after[j].outbox, quiet)
  }

  /** The state after accepting descriptors one after another. */
  function AcceptAll<S>(s: State<S>, fds: seq<int>): (s': State<S>)
    requires s.main.next < |s.threads|
    ensures |s'.threads| == |s.threads| && s'.main.next < |s'.threads|
  {
    if fds == [] then s else Accept(AcceptAll(s, fds[..|fds| - 1]), fds[|fds| - 1])
  }

  ghost predicate AllNew(route: map<int, nat>, fds: seq<int>) {
    forall i | 0 <= i < |fds| :: fds[i] !in route && fds[i] !in fds[..i]
  }

  /** Round and round `n` places. */
  function Turn(a: nat, n: nat): (r: nat)
    requires n > 0
    ensures r < n
  {
    a % n
  }

  lemma TurnOn(a: nat, n: nat)
    requires n > 0
    ensures Turn(Turn(a, n) + 1, n) == Turn(a + 1, n)
  {
    NextOf(a, 0, n);
  }

  lemma NoTurn(a: nat, n: nat)
    requires a < n
    ensures Turn(a, n) == a
  {
    Remainder(a, 0, a, n);
  }

  lemma AcceptTurns<S>(s: State<S>, fd: int)
    requires s.main.next < |s.threads|
    ensures Accept(s, fd).main.next == Turn(s.main.next + 1, |s.threads|)
  {
  }

  lemma {:induction false} AcceptAllNext<S>(s: State<S>, fds: seq<int>)
    requires s.main.next < |s.threads|
    ensures AcceptAll(s, fds).main.next == Turn(s.main.next + |fds|, |s.threads|)
  {
    hide Turn, Accept;
    if fds == [] {
      NoTurn(s.main.next, |s.threads|);
    } else {
      var rest := fds[..|fds| - 1];
      AcceptAllNext(s, rest);
      AcceptTurns(AcceptAll(s, rest), fds[|fds| - 1]);
      TurnOn(s.main.next + |rest|, |s.threads|);
    }
  }

  lemma {:induction false} AcceptedAreRouted<S>(s: State<S>, fds: seq<int>)
    requires s.main.next < |s.threads|
    ensures forall fd :: fd in AcceptAll(s, fds).main.route <==> fd in s.main.route || fd in fds
    ensures forall fd | fd in s.main.route && fd !in fds :: AcceptAll(s, fds).main.route[fd] == s.main.route[fd]
  {
    if fds != [] {
      AcceptedAreRouted(s, fds[..|fds| - 1]);
      assert fds == fds[..|fds| - 1] + [fds[|fds| - 1]];
    }
  }

  /** The i-th descriptor goes to the i-th thread after the counter, round and round, the
      last of equal ones winning, and no other client moves. */
  lemma {:induction false} AcceptAllRoutes<S>(s: State<S>, fds: seq<int>, i: nat)
    requires s.main.next < |s.threads| && i < |fds| && fds[i] !in fds[i + 1..]
    ensures var route := AcceptAll(s, fds).main.route;
      && fds[i] in route && route[fds[i]] == Turn(s.main.next + i, |s.threads|)
      && (forall fd | fd in s.main.route && fd !in fds :: fd in route && route[fd] == s.main.route[fd])
  {
    hide Turn;
    AcceptedAreRouted(s, fds);
    var rest, fd := fds[..|fds| - 1], fds[|fds| - 1];
    AcceptAllNext(s, rest);
    if i < |rest| {
      assert fds[i + 1..] == rest[i + 1..] + [fd];
      assert fd in fds[i + 1..];
      AcceptAllRoutes(s, rest, i);
    }
  }

  /** The invariant holds after each accept. */
  ghost predicate KeptThroughout<S(!new)>(exec: Executor<S>, first: S, s: State<S>, fds: seq<int>)
    requires s.main.next < |s.threads|
  {
    Inv(exec, first, AcceptAll(s, fds)) && (fds != [] ==> KeptThroughout(exec, first, s, fds[..|fds| - 1]))
  }

  /** That is so if and only if no descriptor is routed, from before or by an earlier one
      of these. */
  lemma {:induction false} AcceptAllExactly<S(!new)>(exec: Executor<S>, first: S, s: State<S>, fds: seq<int>)
    requires Inv(exec, first, s) && s.main.next < |s.threads|
    ensures KeptThroughout(exec, first, s, fds) <==> AllNew(s.main.route, fds)
  {
    hide Inv;
    if fds != [] {
      var rest, fd := fds[..|fds| - 1], fds[|fds| - 1];
      AcceptAllExactly(exec, first, s, rest);
      AcceptedAreRouted(s, rest);
      AllNewLast(s.main.route, fds);
      if Inv(exec, first, AcceptAll(s, rest)) {
        FdReuse.AcceptKeepsExactly(exec, first, AcceptAll(s, rest), fd);
      }
      if KeptThroughout(exec, first, s, rest) {
        assert Inv(exec, first, AcceptAll(s, rest));
      }
    }
  }

  lemma AllNewLast(route: map<int, nat>, fds: seq<int>)
    requires fds != []
    ensures var rest, fd := fds[..|fds| - 1], fds[|fds| - 1];
      AllNew(route, fds) <==> AllNew(route, rest) && fd !in route && fd !in rest
  {
    var rest := fds[..|fds| - 1];
    assert forall i | 0 <= i < |rest| :: rest[i] == fds[i] && rest[..i] == fds[..i];
  }

  lemma QueuedNone()
    ensures Queued([]) == []
  {
  }

  /** A batch from its `i`-th request on: that one, then the rest. */
  lemma BatchFrom(store: Data, fd: int, nows: seq<int>, requests: seq<RespValue>, i: nat)
    requires |nows| == |requests| && i < |requests|
    ensures var (mid, reply) := Replies.Serve(store, nows[i], requests[i]);
      var whole := RunBatch(Replies.Serve, store, fd, nows[i..], requests[i..]);
      var rest := RunBatch(Replies.Serve, mid, fd, nows[i + 1..], requests[i + 1..]);
      whole.0 == rest.0 && Channels.Replies(whole.1) == reply + Channels.Replies(rest.1)
  {
    hide Replies.Serve;
    assert nows[i..][1..] == nows[i + 1..] && requests[i..][1..] == requests[i + 1..];
    var (mid, reply) := Replies.Serve(store, nows[i], requests[i]);
    var rest := RunBatch(Replies.Serve, mid, fd, nows[i + 1..], requests[i + 1..]).1;
    var whole := RunBatch(Replies.Serve, store, fd, nows[i..], requests[i..]).1;
    assert whole == [Executed(fd, nows[i], requests[i], reply)] + rest;
    assert whole[1..] == rest;
  }

  lemma NoBatch(store: Data, fd: int)
    ensures forall nows: seq<int>, requests: seq<RespValue> | |nows| == |requests| == 0 ::
      RunBatch(Replies.Serve, store, fd, nows, requests) == (store, [])
    ensures Channels.Replies([]) == ""
  {
  }

  /** The requests in all message lists, thread by thread. */
  function Waiting(lists: seq<seq<OutMsg>>): seq<RespValue> {
    if lists == [] then []
    else Waiting(lists[..|lists| - 1]) + Queued(lists[|lists| - 1])
  }

  lemma CanTakeNow(first: Data, s: State<Data>, i: nat, nows: seq<int>)
    requires Inv(Replies.Serve, first, s) && i < |s.threads| && s.threads[i].outbox != []
    requires CanExecute(s.threads[i].outbox[0], nows)
    ensures CanTake(Replies.Serve, s, i, nows)
  {
    hide Good, Replies.Serve, RunBatch, Serial;
  }

  lemma NextOf(start: nat, i: nat, n: nat)
    requires n > 0
    ensures ((start + i) % n + 1) % n == (start + i + 1) % n
  {
    var a := start + i;
    var q, r := a / n, a % n;
    if r + 1 < n {
      Remainder(a + 1, q, r + 1, n);
      Remainder(r + 1, 0, r + 1, n);
    } else {
      Remainder(a + 1, q + 1, 0, n);
      Remainder(n, 1, 0, n);
    }
  }

  lemma Remainder(a: int, q: int, r: int, n: int)
    requires 0 <= r < n && a == q * n + r
    ensures a % n == r
  {
    var d := a / n - q;
    Multiple(d, n);
    assert d * n == (a / n) * n - q * n;
  }

  lemma Multiple(d: int, n: int)
    requires n > 0
    ensures (d >= 1 ==> d * n >= n) && (d <= -1 ==> d * n <= -n)
  {
  }
}
