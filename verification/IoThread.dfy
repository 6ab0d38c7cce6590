/** An IO thread as it runs: connections updated in place, the read, emit and flush
    loops, each proved to do what `Channels` says of it in one step. The kernel's
    answers to `recv` and `send` are parameters. */
module IoThread {
  import opened Text
  import opened Resp
  import opened RespQueue
  import opened Channels
  import ReplyOrder

  // ---- The kernel's answers ----

  /** How the last `recv` of a read ended. */
  datatype ReadEnd = Dry | PeerClosed | ReadFailed

  datatype SendResult = Took(n: nat) | WouldBlock | SendFailed

  function Joined(chunks: seq<string>): string {
    if chunks == [] then "" else Joined(chunks[..|chunks| - 1]) + chunks[|chunks| - 1]
  }

  function Total(sends: seq<SendResult>): nat {
    if sends == [] then 0
    else Total(sends[..|sends| - 1]) + (match sends[|sends| - 1] case Took(n) => n case _ => 0)
  }

  /** The answers a kernel gives while `size` bytes are written out: each takes some of
      what is left, and the writes stop when nothing is left or one takes nothing. */
  ghost predicate Possible(sends: seq<SendResult>, size: nat) {
    && (forall i | 0 <= i < |sends| :: sends[i] != Took(0) && Total(sends[..i]) < size)
    && (forall i | 0 <= i < |sends| - 1 :: sends[i].Took?)
    && Total(sends) <= size
    && (sends == [] || sends[|sends| - 1].Took? ==> Total(sends) == size)
  }

  /** What those answers amount to. */
  function Result(sends: seq<SendResult>): Flush {
    if sends != [] && sends[|sends| - 1].SendFailed? then Broken else Sent(Total(sends))
  }

  /** The first pop parses the whole buffer. */
  lemma PopFirst(buffer: string)
    ensures var d := Greedy(buffer);
      var (q, out) := PopValue(Decoder(buffer, []));
      && (d.malformed <==> out.Malformed?)
      && q.buffer == d.rest && Greedy(d.rest) == Drained([], d.rest, d.malformed)
      && (out.Value? ==> d.values == [out.value] + q.values)
      && (out.Nothing? ==> d.values == [] && q.values == [])
  {
    hide Parse, Greedy;
    GreedyStops(buffer);
    GreedyAtStop(Greedy(buffer).rest);
    assert [] + Greedy(buffer).values == Greedy(buffer).values;
  }

  /** Later pops only hand out what is queued. */
  lemma PopNext(rest: string, values: seq<RespValue>)
    requires Greedy(rest) == Drained([], rest, false)
    ensures var (q, out) := PopValue(Decoder(rest, values));
      && q.buffer == rest && !out.Malformed?
      && (out.Value? <==> values != [])
      && (out.Value? ==> values == [out.value] + q.values)
      && (out.Nothing? ==> q.values == [])
  {
    hide Parse, Greedy;
    assert values + [] == values;
  }

  // ---- Connections ----

  class Connection {
    const fd: int
    const queue: RespValueQueue
    var out: string
    var armed: bool          // subscribed to EPOLLOUT
    ghost var received: string
    ghost var sent: string

    constructor (fd: int)
      ensures View() == FRESH && Ready() && Serves(fd) && fresh(queue)
    {
      this.fd := fd;
      queue := new RespValueQueue(fd);
      out, armed, received, sent := "", false, "", "";
    }

    ghost function View(): Conn
      reads this, queue
    {
      Conn(queue.buffer, out, received, sent)
    }

    ghost predicate Serves(f: int) {
      fd == f && queue.owner == f
    }

    /** Nothing parsed is left behind, and the socket is watched for room exactly while
        bytes wait for it. */
    ghost predicate Ready()
      reads this, queue
    {
      queue.values == [] && (armed <==> out != "")
    }

    /** Pushes every chunk the socket had; false when the peer is gone. */
    method ReadIntoParseQueue(chunks: seq<string>, end: ReadEnd) returns (alive: bool)
      modifies this`received, queue
      ensures queue.State() == PushString(old(queue.State()), Joined(chunks))
      ensures received == old(received) + Joined(chunks)
      ensures alive == end.Dry?
    {
      for i := 0 to |chunks|
        invariant queue.State() == PushString(old(queue.State()), Joined(chunks[..i]))
        invariant received == old(received) + Joined(chunks[..i])
      {
        assert chunks[..i + 1][..i] == chunks[..i];
        queue.Push(chunks[i]);
        received := received + chunks[i];
      }
      assert chunks[..|chunks|] == chunks;
      alive := end.Dry?;
    }

    /** Every complete request in the buffer as one batch, or the exception. */
    method EmitParsedCommands() returns (batch: seq<RespValue>, wellFormed: bool)
      requires queue.values == []
      modifies queue
      ensures var d := Greedy(old(queue.buffer));
        && wellFormed == !d.malformed
        && (wellFormed ==> batch == d.values && queue.State() == Decoder(d.rest, []))
    {
      hide Parse, Greedy, PopValue;
      ghost var d := Greedy(queue.buffer);
      PopFirst(queue.buffer);
      batch := [];
      var request := queue.Pop();
      while request.Value?
        invariant d.malformed <==> request.Malformed?
        invariant !d.malformed ==> queue.buffer == d.rest
        invariant request.Value? ==> d.values == batch + ([request.value] + queue.values)
        invariant request.Nothing? ==> d.values == batch && queue.values == []
        decreases request.Value?, |queue.values|
      {
        PopNext(d.rest, queue.values);
        assert batch + ([request.value] + queue.values) == (batch + [request.value]) + queue.values;
        batch := batch + [request.value];
        assert queue.values == [] ==> batch + queue.values == batch;
        request := queue.Pop();
      }
      wellFormed := !request.Malformed?;
    }

    /** The read and the emit of `HandleReadable`, up to the exception if there is one. */
    method ReadAndParse(chunks: seq<string>, end: ReadEnd)
      returns (alive: bool, batch: seq<RespValue>, wellFormed: bool)
      requires Ready()
      modifies this`received, queue
      ensures alive == end.Dry?
      ensures var d := Greedy(old(queue.buffer) + Joined(chunks));
        && wellFormed == !d.malformed
        && (wellFormed ==>
              && batch == d.values && Ready()
              && View() == old(View()).(buffer := d.rest, received := old(received) + Joined(chunks)))
    {
      hide Greedy, Joined;
      alive := ReadIntoParseQueue(chunks, end);
      batch, wellFormed := EmitParsedCommands();
    }

    /** Writes what the socket takes and keeps the rest; false on a failed write. */
    method FlushOutBuffer(sends: seq<SendResult>) returns (open: bool)
      requires Possible(sends, |out|)
      modifies this`out, this`armed, this`sent
      ensures open == Result(sends).Sent?
      ensures var n := Total(sends);
        open ==> out == old(out)[n..] && sent == old(sent) + old(out)[..n] && (armed <==> out != "")
    {
      hide Possible, Total;
      var count, i, wouldBlock := 0, 0, false;
      TotalOfNone();
      while count < |out| && !wouldBlock
        invariant i <= |sends| && count == Total(sends[..i]) <= |out|
        invariant out == old(out) && sent == old(sent)
        invariant if wouldBlock then i == |sends| && i > 0 && sends[i - 1].WouldBlock?
                  else i > 0 ==> sends[i - 1].Took?
        decreases |sends| - i
      {
        NextAnswer(sends, |out|, i);
        match sends[i] {
          case Took(n) => count := count + n;
          case WouldBlock => wouldBlock := true;
          case SendFailed =>
            out := "";
            return false;
        }
        i := i + 1;
      }
      if !wouldBlock {
        LastAnswer(sends, |out|, i);
      }
      assert sends[..|sends|] == sends;
      sent := sent + out[..count];
      out := out[count..];
      armed := out != "";
      open := true;
    }
  }

  lemma TotalOfNone()
    ensures forall sends: seq<SendResult> :: Total(sends[..0]) == 0
  {
  }

  /** While bytes are left and no write was refused, there is one more answer. */
  lemma NextAnswer(sends: seq<SendResult>, size: nat, i: nat)
    requires Possible(sends, size) && i <= |sends| && Total(sends[..i]) < size
    requires i > 0 ==> sends[i - 1].Took?
    ensures i < |sends|
    ensures Total(sends[..i + 1]) == Total(sends[..i]) + (match sends[i] case Took(n) => n case _ => 0) <= size
    ensures !sends[i].Took? ==> i + 1 == |sends|
  {
    assert sends[..|sends|] == sends;
    assert sends[..i + 1][..i] == sends[..i];
    TotalGrows(sends, i + 1);
  }

  /** Once every byte is taken there are no more answers. */
  lemma LastAnswer(sends: seq<SendResult>, size: nat, i: nat)
    requires Possible(sends, size) && i <= |sends| && Total(sends[..i]) >= size
    ensures i == |sends|
  {
    TotalGrows(sends, i);
  }

  lemma {:induction false} TotalGrows(sends: seq<SendResult>, i: nat)
    requires i <= |sends|
    ensures Total(sends[..i]) <= Total(sends)
    decreases |sends|
  {
    if i < |sends| {
      TotalGrows(sends[..|sends| - 1], i);
      assert sends[..|sends| - 1][..i] == sends[..i];
    } else {
      assert sends[..i] == sends;
    }
  }

  // ---- The thread ----

  class IoThread {
    var conns: map<int, Connection>
    var inbox: seq<InMsg>
    var outbox: seq<OutMsg>

    ghost function Owned(): (objects: set<object>)
      reads this`conns
      ensures this !in objects
    {
      (set fd | fd in conns :: conns[fd] as object) + (set fd | fd in conns :: conns[fd].queue as object)
    }

    /** Each connection is ready and serves its own descriptor, so no two share anything. */
    ghost predicate Valid()
      reads this`conns, Owned()
    {
      forall fd | fd in conns :: conns[fd].Serves(fd) && conns[fd].Ready()
    }

    ghost function Views(): (views: map<int, Conn>)
      reads this`conns, Owned()
      ensures views.Keys == conns.Keys
    {
      map fd | fd in conns :: conns[fd].View()
    }

    ghost function View(): Thread
      reads this, Owned()
    {
      Thread(inbox, outbox, Views())
    }

    constructor ()
      ensures Valid() && View() == Thread([], [], map[])
    {
      conns, inbox, outbox := map[], [], [];
    }

    method CloseConnection(fd: int)
      requires Valid()
      modifies this`conns, this`outbox
      ensures Valid() && View() == CloseConn(old(View()), fd)
      ensures Owned() <= old(Owned())
    {
      if fd !in conns {
        return;
      }
      conns := conns - {fd};
      outbox := outbox + [Disconnect(fd)];
    }

    /** `HandleReadable` is the one step `Read` on all the bytes read, then a close if the
        peer is gone. */
    method HandleReadable(fd: int, chunks: seq<string>, end: ReadEnd)
      requires Valid()
      modifies this`conns, this`outbox, Owned()
      ensures Valid() && Owned() <= old(Owned())
      ensures var t := Read(old(View()), fd, Joined(chunks));
        View() == if end.Dry? then t else CloseConn(t, fd)
    {
      hide Greedy, Joined, Views, Valid;
      if fd !in conns {
        return;
      }
      var alive, wellFormed := ReadAndEmit(fd, chunks, end);
      if !wellFormed {
        Forget(fd);
      } else if !alive {
        CloseConnection(fd);
      }
    }

    /** `HandleReadable` up to its closing: the batch goes out, or the exception is caught. */
    method ReadAndEmit(fd: int, chunks: seq<string>, end: ReadEnd) returns (alive: bool, wellFormed: bool)
      requires Valid() && fd in conns
      modifies this`outbox, conns[fd], conns[fd].queue
      ensures alive == end.Dry?
      ensures var c := old(Views())[fd];
        var d := Greedy(c.buffer + Joined(chunks));
        && wellFormed == !d.malformed
        && (wellFormed ==>
              && Valid()
              && Views() == old(Views())[fd := c.(buffer := d.rest, received := c.received + Joined(chunks))]
              && outbox == if d.values == [] then old(outbox) else old(outbox) + [Batch(fd, d.values)])
        && (!wellFormed ==> outbox == old(outbox) && Others(fd) && Views() - {fd} == old(Views()) - {fd})
    {
      hide Greedy, Joined, Views, Valid;
      var batch;
      alive, batch, wellFormed := ReadConnection(fd, chunks, end);
      if wellFormed && batch != [] {
        Emit(Batch(fd, batch));
      }
    }

    /** `Emit`, with room in the outbox. */
    method Emit(msg: OutMsg)
      modifies this`outbox
      ensures outbox == old(outbox) + [msg]
      ensures Views() == old(Views()) && Valid() == old(Valid())
    {
      outbox := outbox + [msg];
    }

    method ReadConnection(fd: int, chunks: seq<string>, end: ReadEnd)
      returns (alive: bool, batch: seq<RespValue>, wellFormed: bool)
      requires Valid() && fd in conns
      modifies conns[fd], conns[fd].queue
      ensures alive == end.Dry?
      ensures var c := old(Views())[fd];
        var d := Greedy(c.buffer + Joined(chunks));
        && wellFormed == !d.malformed
        && Others(fd) && Views() - {fd} == old(Views()) - {fd}
        && (wellFormed ==>
              && Valid() && batch == d.values
              && Views() == old(Views())[fd := c.(buffer := d.rest, received := c.received + Joined(chunks))])
    {
      hide Greedy, Joined;
      var conn := conns[fd];
      alive, batch, wellFormed := conn.ReadAndParse(chunks, end);
      assert forall f | f in conns && f != fd :: conns[f].View() == old(conns[f].View());
    }

    /** `Valid`, but for the connection of `fd`. */
    ghost predicate Others(fd: int)
      reads this`conns, Owned()
    {
      forall f | f in conns :: conns[f].Serves(f) && (f != fd ==> conns[f].Ready())
    }

    /** A connection closed on malformed input is dropped with whatever its queue holds. */
    method Forget(fd: int)
      requires fd in conns && Others(fd)
      modifies this`conns, this`outbox
      ensures Valid() && Owned() <= old(Owned())
      ensures Views() == old(Views()) - {fd} && outbox == old(outbox) + [Disconnect(fd)]
    {
      conns := conns - {fd};
      outbox := outbox + [Disconnect(fd)];
    }

    method HandleAssign(fd: int)
      requires Valid()
      modifies this`conns
      ensures Valid() && View() == Handle(old(View()), Assign(fd), Broken)
      ensures fresh(Owned() - old(Owned()))
    {
      if fd in conns {
        return;
      }
      var conn := new Connection(fd);
      conns := conns[fd := conn];
      assert Views() == old(Views())[fd := FRESH];
    }

    /** `FlushOutBuffer` and the close it may end in. */
    method Flush(fd: int, sends: seq<SendResult>)
      requires fd in conns && Others(fd) && conns[fd].queue.values == []
      requires Possible(sends, |conns[fd].out|)
      modifies this`conns, this`outbox, conns[fd]
      ensures Valid() && Owned() <= old(Owned())
      ensures var c := old(Views())[fd];
        && CanFlush(c, Result(sends))
        && match Result(sends)
           case Sent(n) =>
             outbox == old(outbox) &&
             Views() == old(Views())[fd := c.(sent := c.sent + c.out[..n], out := c.out[n..])]
           case Broken => outbox == old(outbox) + [Disconnect(fd)] && Views() == old(Views()) - {fd}
    {
      hide Views, Valid, Total, Possible;
      PossibleFlush(sends, |conns[fd].out|);
      OutIs(fd);
      var open := FlushBytes(fd, sends);
      if !open {
        Forget(fd);
      }
    }

    lemma OutIs(fd: int)
      requires fd in conns
      ensures Views()[fd].out == conns[fd].out
    {
    }

    method FlushBytes(fd: int, sends: seq<SendResult>) returns (open: bool)
      requires fd in conns && Others(fd) && conns[fd].queue.values == []
      requires Possible(sends, |conns[fd].out|)
      modifies conns[fd]
      ensures open == Result(sends).Sent?
      ensures var c, n := old(Views())[fd], Total(sends);
        && Others(fd) && Views() - {fd} == old(Views()) - {fd}
        && (open ==>
              && n <= |c.out| && Valid()
              && Views() == old(Views())[fd := c.(sent := c.sent + c.out[..n], out := c.out[n..])])
    {
      PossibleFlush(sends, |conns[fd].out|);
      hide Total, Possible;
      var conn := conns[fd];
      open := conn.FlushOutBuffer(sends);
      assert forall f | f in conns && f != fd :: conns[f].View() == old(conns[f].View());
    }

    method HandleWritable(fd: int, sends: seq<SendResult>)
      requires Valid()
      requires fd in conns ==> Possible(sends, |conns[fd].out|)
      modifies this`conns, this`outbox, Owned()
      ensures Valid() && Owned() <= old(Owned())
      ensures if fd in old(conns)
              then CanFlush(old(View()).conns[fd], Result(sends)) && View() == FlushConn(old(View()), fd, Result(sends))
              else View() == old(View())
    {
      hide Views, Possible, Result;
      if fd in conns {
        Flush(fd, sends);
      }
    }

    method HandleWriteResponse(fd: int, bytes: string, sends: seq<SendResult>)
      requires Valid()
      requires fd in conns ==> Possible(sends, |conns[fd].out + bytes|)
      modifies this`conns, this`outbox, Owned()
      ensures Valid() && Owned() <= old(Owned())
      ensures CanHandle(old(View()), Write(fd, bytes), Result(sends))
      ensures View() == Handle(old(View()), Write(fd, bytes), Result(sends))
      ensures fd in old(conns) && Result(sends).Sent? ==>
        && fd in View().conns
        && var c, c' := old(View()).conns[fd], View().conns[fd];
        && c'.sent + c'.out == c.sent + c.out + bytes
        && |c'.sent| == |c.sent| + Result(sends).n
    {
      hide Possible, Total, Result;
      ghost var before := View();
      if fd !in conns {
        return;
      }
      Buffer(fd, bytes);
      hide Views;
      Flush(fd, sends);
      if Result(sends).Sent? {
        RepliesGoOn(before, fd, bytes, Result(sends));
      }
    }

    /** Append to the bytes that wait for the socket. */
    method Buffer(fd: int, bytes: string)
      requires Valid() && fd in conns
      modifies conns[fd]
      ensures Others(fd) && conns[fd].queue.values == [] && conns[fd].out == old(conns[fd].out) + bytes
      ensures var c := old(Views())[fd]; Views() == old(Views())[fd := c.(out := c.out + bytes)]
    {
      var conn := conns[fd];
      conn.out := conn.out + bytes;
      assert forall f | f in conns && f != fd :: conns[f].View() == old(conns[f].View());
    }

    /** `DrainInbox` delivers every message waiting, in order, and those the main thread
        pushes behind them meanwhile. */
    method DrainInbox(turns: seq<Turn>)
      requires Valid() && CanDrain(View(), turns)
      modifies this, Owned()
      ensures Valid() && inbox == []
      ensures View() == Drain(old(View()), turns)
    {
      hide Possible, Views, Valid, CanDrain, Drain, AfterTurn, CanHandle, Result;
      var i := 0;
      assert turns[0..] == turns;
      while inbox != []
        invariant Valid() && i <= |turns| && fresh(Owned() - old(Owned()))
        invariant CanDrain(View(), turns[i..])
        invariant Drain(View(), turns[i..]) == Drain(old(View()), turns)
        decreases |turns| - i
      {
        DrainFirst(View(), turns[i..]);
        assert turns[i..][0] == turns[i] && turns[i..][1..] == turns[i + 1..];
        DrainOne(turns[i]);
        i := i + 1;
      }
      DrainNone(View(), turns[i..]);
    }

    /** One message of `DrainInbox`. */
    method DrainOne(turn: Turn)
      requires Valid() && inbox != []
      requires var m := inbox[0]; m.Write? && m.fd in View().conns ==>
        Possible(turn.sends, |View().conns[m.fd].out + m.bytes|)
      requires CanHandle(View(), inbox[0], Result(turn.sends))
      modifies this, Owned()
      ensures Valid() && fresh(Owned() - old(Owned()))
      ensures View() == AfterTurn(old(View()), turn)
    {
      hide Possible, Views, Valid, Handle, CanHandle, Result;
      ghost var before := View();
      var msg := inbox[0];
      inbox := inbox[1..];
      assert View() == before.(inbox := before.inbox[1..]);
      match msg {
        case Assign(fd) =>
          AssignSendsNothing(View(), fd, Result(turn.sends));
          HandleAssign(fd);
        case Write(fd, bytes) =>
          assert fd in conns ==> Views()[fd].out == conns[fd].out by {
            if fd in conns {
              OutIs(fd);
            }
          }
          HandleWriteResponse(fd, bytes, turn.sends);
      }
      ghost var handled := View();
      inbox := inbox + turn.pushed;
      assert View() == handled.(inbox := handled.inbox + turn.pushed);
    }
  }

  /** What happens around one message: the kernel's answers while it is handled, and what
      the main thread pushes before the next pop. */
  datatype Turn = Turn(sends: seq<SendResult>, pushed: seq<InMsg>)

  /** There is a turn for every message, and the kernel's answers fit every write. */
  /** Delivering a reply that the socket takes some of keeps every byte, in order. */
  lemma RepliesGoOn(t: Thread, fd: int, bytes: string, flush: Flush)
    requires fd in t.conns && CanHandle(t, Write(fd, bytes), flush) && flush.Sent?
    ensures var t' := Handle(t, Write(fd, bytes), flush);
      && fd in t'.conns
      && var c, c' := t.conns[fd], t'.conns[fd];
      && c'.sent + c'.out == c.sent + c.out + bytes
      && |c'.sent| == |c.sent| + flush.n
  {
    var c := t.conns[fd];
    var out := c.out + bytes;
    assert (c.sent + out[..flush.n]) + out[flush.n..] == c.sent + out;
    assert c.sent + (c.out + bytes) == c.sent + c.out + bytes;
  }

  ghost predicate CanDrain(t: Thread, turns: seq<Turn>)
    decreases |turns|
  {
    t.inbox == [] ||
    (&& turns != []
     && var m := t.inbox[0];
     && (m.Write? && m.fd in t.conns ==> Possible(turns[0].sends, |t.conns[m.fd].out + m.bytes|))
     && CanHandle(t, m, Result(turns[0].sends))
     && CanDrain(AfterTurn(t, turns[0]), turns[1..]))
  }

  /** The thread once the oldest message is handled. */
  function Delivered(t: Thread, flush: Flush): (t': Thread)
    requires t.inbox != [] && CanHandle(t, t.inbox[0], flush)
    ensures t'.inbox == t.inbox[1..]
  {
    Handle(t.(inbox := t.inbox[1..]), t.inbox[0], flush)
  }

  function AfterTurn(t: Thread, turn: Turn): Thread
    requires t.inbox != [] && CanHandle(t, t.inbox[0], Result(turn.sends))
  {
    var t' := Delivered(t, Result(turn.sends));
    t'.(inbox := t'.inbox + turn.pushed)
  }

  ghost function Drain(t: Thread, turns: seq<Turn>): Thread
    requires CanDrain(t, turns)
    decreases |turns|
  {
    if t.inbox == [] then t else Drain(AfterTurn(t, turns[0]), turns[1..])
  }

  lemma AssignSendsNothing(t: Thread, fd: int, flush: Flush)
    ensures CanHandle(t, Assign(fd), flush) && CanHandle(t, Assign(fd), Broken)
    ensures Handle(t, Assign(fd), flush) == Handle(t, Assign(fd), Broken)
  {
  }

  lemma DrainNone(t: Thread, turns: seq<Turn>)
    requires CanDrain(t, turns) && t.inbox == []
    ensures Drain(t, turns) == t
  {
  }

  lemma DrainFirst(t: Thread, turns: seq<Turn>)
    requires CanDrain(t, turns) && t.inbox != []
    ensures turns != []
    ensures var m := t.inbox[0];
      && (m.Write? && m.fd in t.conns ==> Possible(turns[0].sends, |t.conns[m.fd].out + m.bytes|))
      && CanHandle(t, m, Result(turns[0].sends))
      && var t' := AfterTurn(t, turns[0]);
      CanDrain(t', turns[1..]) && Drain(t, turns) == Drain(t', turns[1..])
  {
  }

  /** Draining an inbox that nobody pushes to keeps every client's account straight. */
  lemma {:induction false} DrainKeeps<S(!new)>(exec: Executor<S>, first: S, s: State<S>, i: nat, turns: seq<Turn>)
    requires Inv(exec, first, s) && i < |s.threads| && CanDrain(s.threads[i], turns)
    requires forall j | 0 <= j < |turns| :: turns[j].pushed == []
    ensures Inv(exec, first, s.(threads := s.threads[i := Drain(s.threads[i], turns)]))
    decreases |turns|
  {
    hide Inv, Possible, Result, Handle, CanHandle;
    var t := s.threads[i];
    if t.inbox == [] {
      assert s.threads[i := t] == s.threads;
    } else {
      var flush := Result(turns[0].sends);
      ReplyOrder.DeliverKeeps(exec, first, s, i, flush);
      var t' := Delivered(t, flush);
      assert t'.inbox + turns[0].pushed == t'.inbox;
      var s' := s.(threads := s.threads[i := t']);
      DrainKeeps(exec, first, s', i, turns[1..]);
      var last := Drain(t', turns[1..]);
      assert s'.threads[i := last] == s.threads[i := last];
    }
  }

  lemma PossibleFlush(sends: seq<SendResult>, size: nat)
    requires Possible(sends, size)
    ensures match Result(sends) case Sent(n) => n <= size case Broken => size > 0
  {
  }
}
