/** `SingleConsumerProducerQueue`: a ring of `cap + 1` slots shared by one producer
    and one consumer thread, split into its atomic loads, stores and slot accesses.
    Atomic accesses are sequentially consistent here. */
module Spsc {
  import opened Text

  /** Where the producer is inside `Push`, with its locals. */
  datatype Producer<T> =
    | Resting
    | LoadedTail(element: T, t: nat)  // read tail_
    | SawRoom(element: T, t: nat)     // read head_, found room
    | Filled(element: T, t: nat)      // wrote buffer_[t]

  /** Where the consumer is inside `Pop`, with its locals. */
  datatype Consumer<T> =
    | Waiting
    | LoadedHead(h: nat)              // read head_
    | SawElement(h: nat)              // read tail_, found an element
    | Moved(h: nat, element: T)       // moved buffer_[h] out
    | Cleared(h: nat, element: T)     // reset buffer_[h]

  datatype Ring<T> = Ring(cap: nat, buffer: seq<Option<T>>, head: nat, tail: nat,
                          producer: Producer<T>, consumer: Consumer<T>)

  function Empty<T>(cap: nat): Ring<T> {
    Ring(cap, seq(cap + 1, _ => None), 0, 0, Resting, Waiting)
  }

  function Increment(n: nat, cap: nat): nat {
    (n + 1) % (cap + 1)
  }

  // ---- The atomic steps of Push ----

  function PushLoadTail<T>(q: Ring<T>, element: T): Ring<T>
    requires q.producer.Resting?
  {
    q.(producer := LoadedTail(element, q.tail))
  }

  /** The head load of `Push` sees a full ring: `Push` returns false. */
  predicate PushFails<T>(q: Ring<T>)
    requires q.producer.LoadedTail?
  {
    Increment(q.producer.t, q.cap) == q.head
  }

  function PushLoadHead<T>(q: Ring<T>): Ring<T>
    requires q.producer.LoadedTail?
  {
    q.(producer := if PushFails(q) then Resting else SawRoom(q.producer.element, q.producer.t))
  }

  function PushFill<T>(q: Ring<T>): Ring<T>
    requires q.producer.SawRoom? && q.producer.t < |q.buffer|
  {
    q.(buffer := q.buffer[q.producer.t := Some(q.producer.element)],
       producer := Filled(q.producer.element, q.producer.t))
  }

  function PushStoreTail<T>(q: Ring<T>): Ring<T>
    requires q.producer.Filled?
  {
    q.(tail := Increment(q.producer.t, q.cap), producer := Resting)
  }

  // ---- The atomic steps of Pop ----

  function PopLoadHead<T>(q: Ring<T>): Ring<T>
    requires q.consumer.Waiting?
  {
    q.(consumer := LoadedHead(q.head))
  }

  /** The tail load of `Pop` sees an empty ring: `Pop` returns nullopt. */
  predicate PopFindsNothing<T>(q: Ring<T>)
    requires q.consumer.LoadedHead?
  {
    q.consumer.h == q.tail
  }

  function PopLoadTail<T>(q: Ring<T>): Ring<T>
    requires q.consumer.LoadedHead?
  {
    q.(consumer := if PopFindsNothing(q) then Waiting else SawElement(q.consumer.h))
  }

  /** Moving out of a slot leaves something unspecified in it. */
  function PopMove<T>(q: Ring<T>, leftover: Option<T>): Ring<T>
    requires q.consumer.SawElement? && q.consumer.h < |q.buffer| && q.buffer[q.consumer.h].Some?
  {
    var h := q.consumer.h;
    q.(buffer := q.buffer[h := leftover], consumer := Moved(h, q.buffer[h].value))
  }

  function PopClear<T>(q: Ring<T>): Ring<T>
    requires q.consumer.Moved? && q.consumer.h < |q.buffer|
  {
    var h := q.consumer.h;
    q.(buffer := q.buffer[h := None], consumer := Cleared(h, q.consumer.element))
  }

  function PopStoreHead<T>(q: Ring<T>): Ring<T>
    requires q.consumer.Cleared?
  {
    q.(head := Increment(q.consumer.h, q.cap), consumer := Waiting)
  }

  // ---- What the ring holds ----

  /** The k-th slot from `head`, going round. */
  function Slot(head: nat, k: nat, cap: nat): nat {
    if head + k <= cap then head + k else head + k - (cap + 1)
  }

  function Length<T>(q: Ring<T>): nat
    requires q.head <= q.cap && q.tail <= q.cap
  {
    if q.head <= q.tail then q.tail - q.head else q.tail + (q.cap + 1) - q.head
  }

  /** The consumer has taken the front element out of its slot but not moved head_. */
  predicate FrontInHand<T>(q: Ring<T>) {
    q.consumer.Moved? || q.consumer.Cleared?
  }

  ghost predicate Shape<T>(q: Ring<T>) {
    && |q.buffer| == q.cap + 1
    && q.head <= q.cap
    && q.tail <= q.cap
  }

  ghost predicate Inv<T>(q: Ring<T>) {
    && Shape(q)
    && (forall k | (if FrontInHand(q) then 1 else 0) <= k < Length(q) ::
          q.buffer[Slot(q.head, k, q.cap)].Some?)
    && (q.producer.LoadedTail? ==> q.producer.t == q.tail)
    && (q.producer.SawRoom? ==> q.producer.t == q.tail && Length(q) < q.cap)
    && (q.producer.Filled? ==> q.producer.t == q.tail && Length(q) < q.cap &&
                               q.buffer[q.tail] == Some(q.producer.element))
    && (!q.consumer.Waiting? ==> q.consumer.h == q.head)
    && (q.consumer.SawElement? || FrontInHand(q) ==> 0 < Length(q))
  }

  function Item<T>(q: Ring<T>, k: nat): T
    requires Inv(q) && k < Length(q)
  {
    if k == 0 && FrontInHand(q) then q.consumer.element else q.buffer[Slot(q.head, k, q.cap)].value
  }

  /** The elements pushed and not yet popped, oldest first. */
  function Contents<T>(q: Ring<T>): (s: seq<T>)
    requires Inv(q)
    ensures |s| == Length(q)
  {
    seq(Length(q), k requires 0 <= k < Length(q) => Item(q, k))
  }

  // ---- Every step keeps the invariant; only the two stores change the contents ----

  lemma IncrementIsSlot(n: nat, cap: nat)
    requires n <= cap
    ensures Increment(n, cap) == Slot(n, 1, cap)
  {
  }

  lemma EmptyInv<T>(cap: nat)
    ensures Inv(Empty<T>(cap)) && Contents(Empty<T>(cap)) == []
  {
  }

  lemma PushLoadTailKeeps<T>(q: Ring<T>, element: T)
    requires Inv(q) && q.producer.Resting?
    ensures Inv(PushLoadTail(q, element)) && Contents(PushLoadTail(q, element)) == Contents(q)
  {
  }

  /** A failed `Push` means exactly `cap` elements are held at its head load, and a
      `Push` that goes on saw fewer. */
  lemma PushLoadHeadKeeps<T>(q: Ring<T>)
    requires Inv(q) && q.producer.LoadedTail?
    ensures PushFails(q) <==> |Contents(q)| == q.cap
    ensures Inv(PushLoadHead(q)) && Contents(PushLoadHead(q)) == Contents(q)
  {
    IncrementIsSlot(q.tail, q.cap);
  }

  lemma PushFillKeeps<T>(q: Ring<T>)
    requires Inv(q) && q.producer.SawRoom?
    ensures Inv(PushFill(q)) && Contents(PushFill(q)) == Contents(q)
  {
  }

  /** The tail store is where the element joins the queue. */
  lemma PushStoreTailAppends<T>(q: Ring<T>)
    requires Inv(q) && q.producer.Filled?
    ensures Inv(PushStoreTail(q))
    ensures Contents(PushStoreTail(q)) == Contents(q) + [q.producer.element]
  {
    IncrementIsSlot(q.tail, q.cap);
    assert q.tail == Slot(q.head, Length(q), q.cap);
  }

  lemma PopLoadHeadKeeps<T>(q: Ring<T>)
    requires Inv(q) && q.consumer.Waiting?
    ensures Inv(PopLoadHead(q)) && Contents(PopLoadHead(q)) == Contents(q)
  {
  }

  /** A `Pop` returns nullopt exactly when nothing is held at its tail load. */
  lemma PopLoadTailKeeps<T>(q: Ring<T>)
    requires Inv(q) && q.consumer.LoadedHead?
    ensures PopFindsNothing(q) <==> Contents(q) == []
    ensures Inv(PopLoadTail(q)) && Contents(PopLoadTail(q)) == Contents(q)
  {
  }

  lemma PopMoveKeeps<T>(q: Ring<T>, leftover: Option<T>)
    requires Inv(q) && q.consumer.SawElement?
    ensures q.buffer[q.consumer.h].Some?
    ensures Inv(PopMove(q, leftover)) && Contents(PopMove(q, leftover)) == Contents(q)
  {
    assert Slot(q.head, 0, q.cap) == q.head;
  }

  lemma PopClearKeeps<T>(q: Ring<T>)
    requires Inv(q) && q.consumer.Moved?
    ensures Inv(PopClear(q)) && Contents(PopClear(q)) == Contents(q)
  {
  }

  /** The head store is where the oldest element leaves, and it is the one returned. */
  lemma PopStoreHeadRemoves<T>(q: Ring<T>)
    requires Inv(q) && q.consumer.Cleared?
    ensures Contents(q) != [] && q.consumer.element == Contents(q)[0]
    ensures Inv(PopStoreHead(q)) && Contents(PopStoreHead(q)) == Contents(q)[1..]
  {
    IncrementIsSlot(q.head, q.cap);
    var q' := PopStoreHead(q);
    assert forall k: nat | k < Length(q') :: Slot(q'.head, k, q.cap) == Slot(q.head, k + 1, q.cap);
  }

  /** The slot the producer may write is never the slot the consumer may touch. */
  lemma NeverSameSlot<T>(q: Ring<T>)
    requires Inv(q)
    requires q.producer.SawRoom? || q.producer.Filled?
    requires q.consumer.SawElement? || FrontInHand(q)
    ensures q.producer.t != q.consumer.h
  {
  }

  // ---- Every interleaving ----

  datatype Action<T> =
    | StartPush(element: T) | LoadHead | Fill | StoreTail
    | StartPop | LoadTail | Move(leftover: Option<T>) | Clear | StoreHead

  /** A ring together with everything pushed into it and popped from it so far. */
  datatype History<T> = History(q: Ring<T>, pushed: seq<T>, popped: seq<T>)

  ghost predicate Enabled<T>(q: Ring<T>, a: Action<T>) {
    match a
    case StartPush(_) => q.producer.Resting?
    case LoadHead => q.producer.LoadedTail?
    case Fill => q.producer.SawRoom?
    case StoreTail => q.producer.Filled?
    case StartPop => q.consumer.Waiting?
    case LoadTail => q.consumer.LoadedHead?
    case Move(_) => q.consumer.SawElement?
    case Clear => q.consumer.Moved?
    case StoreHead => q.consumer.Cleared?
  }

  ghost function Perform<T>(h: History<T>, a: Action<T>): History<T>
    requires Inv(h.q) && Enabled(h.q, a)
  {
    var q := h.q;
    match a
    case StartPush(x) => h.(q := PushLoadTail(q, x))
    case LoadHead => h.(q := PushLoadHead(q))
    case Fill => h.(q := PushFill(q))
    case StoreTail => History(PushStoreTail(q), h.pushed + [q.producer.element], h.popped)
    case StartPop => h.(q := PopLoadHead(q))
    case LoadTail => h.(q := PopLoadTail(q))
    case Move(leftover) => assert Slot(q.head, 0, q.cap) == q.head; h.(q := PopMove(q, leftover))
    case Clear => h.(q := PopClear(q))
    case StoreHead => History(PopStoreHead(q), h.pushed, h.popped + [q.consumer.element])
  }

  /** First in, first out, nothing lost, at most `cap` held. */
  ghost predicate Fifo<T>(h: History<T>, cap: nat) {
    && Inv(h.q)
    && h.q.cap == cap
    && h.popped + Contents(h.q) == h.pushed
    && |Contents(h.q)| <= cap
  }

  lemma PerformKeepsFifo<T>(h: History<T>, a: Action<T>, cap: nat)
    requires Fifo(h, cap) && Enabled(h.q, a)
    ensures Fifo(Perform(h, a), cap)
  {
    hide Inv, Contents;
    var q := h.q;
    match a
    case StartPush(x) => PushLoadTailKeeps(q, x);
    case LoadHead => PushLoadHeadKeeps(q);
    case Fill => PushFillKeeps(q);
    case StoreTail => PushStoreTailAppends(q);
    case StartPop => PopLoadHeadKeeps(q);
    case LoadTail => PopLoadTailKeeps(q);
    case Move(leftover) => PopMoveKeeps(q, leftover);
    case Clear => PopClearKeeps(q);
    case StoreHead =>
      PopStoreHeadRemoves(q);
      assert [q.consumer.element] + Contents(q)[1..] == Contents(q);
  }

  ghost predicate Interleaved<T(!new)>(h: History<T>, h': History<T>) {
    Inv(h.q) && exists a :: Enabled(h.q, a) && h' == Perform(h, a)
  }

  /** In every interleaving of one producer and one consumer, at every moment, the
      elements popped followed by those held are the elements pushed. */
  lemma {:induction false} EveryRunIsFifo<T(!new)>(run: seq<History<T>>, cap: nat, i: nat)
    requires |run| > 0 && run[0] == History(Empty(cap), [], [])
    requires forall j | 0 <= j < |run| - 1 :: Interleaved(run[j], run[j + 1])
    requires i < |run|
    ensures Fifo(run[i], cap)
  {
    if i == 0 {
      EmptyInv<T>(cap);
    } else {
      EveryRunIsFifo(run, cap, i - 1);
      assert Interleaved(run[i - 1], run[i - 1 + 1]);
      var a :| Enabled(run[i - 1].q, a) && run[i] == Perform(run[i - 1], a);
      PerformKeepsFifo(run[i - 1], a, cap);
    }
  }
}
