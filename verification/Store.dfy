/** The key/value store and its expiry rules. The clock is a parameter: every read
    of `NowMs` is an argument `now`. Timestamps are unbounded here. */
module Store {
  import opened Text

  /** The no-expiry mark. */
  const NO_EXPIRY: int := -1

  datatype Entry = Entry(value: Option<string>, expiry: int)

  type Data = map<string, Entry>

  datatype ExpireOption = NX | XX | GT | LT | NA

  // ---- What each operation means ----

  function Get(data: Data, key: string, now: int): Option<string> {
    if key !in data then None
    else if data[key].expiry != NO_EXPIRY && data[key].expiry < now then None
    else data[key].value
  }

  function Set(data: Data, key: string, value: Option<string>): Data {
    data[key := Entry(value, NO_EXPIRY)]
  }

  /** Whether the option lets `proposed` replace `expiry`. */
  predicate Allows(option: ExpireOption, expiry: int, proposed: int) {
    match option
    case NX => expiry == NO_EXPIRY
    case XX => expiry != NO_EXPIRY
    case GT => expiry != NO_EXPIRY && expiry < proposed
    case LT => expiry == NO_EXPIRY || expiry > proposed
    case NA => true
  }

  predicate CanExpire(data: Data, key: string, timestamp: int, option: ExpireOption) {
    key in data && Allows(option, data[key].expiry, timestamp)
  }

  function ExpireAt(data: Data, key: string, timestamp: int, option: ExpireOption): Data {
    if CanExpire(data, key, timestamp, option) then data[key := data[key].(expiry := timestamp)] else data
  }

  function Ttl(data: Data, key: string, now: int): int {
    if key !in data then -2
    else if data[key].expiry == NO_EXPIRY then -1
    else if data[key].expiry - now <= 0 then -2
    else data[key].expiry - now
  }

  predicate CanPersist(data: Data, key: string, now: int) {
    key in data && data[key].expiry != NO_EXPIRY && data[key].expiry >= now
  }

  function Persist(data: Data, key: string, now: int): Data {
    if CanPersist(data, key, now) then data[key := data[key].(expiry := NO_EXPIRY)] else data
  }

  // ---- What a caller can observe ----

  /** An expiry with the no-expiry mark read as infinity. */
  datatype Deadline = At(ms: int) | Never

  function DeadlineOf(expiry: int): Deadline {
    if expiry == NO_EXPIRY then Never else At(expiry)
  }

  predicate Sooner(a: Deadline, b: Deadline) {
    a.At? && (b.Never? || a.ms < b.ms)
  }

  /** What the option asks of the old deadline and the new one. */
  predicate Permits(option: ExpireOption, before: Deadline, after: Deadline) {
    && (option.NX? ==> before.Never?)
    && (option.XX? ==> before.At?)
    && (option.GT? ==> Sooner(before, after))
    && (option.LT? ==> Sooner(after, before))
  }

  /** The key is stored and `t` is not past its deadline. */
  predicate Present(data: Data, key: string, t: int) {
    key in data && !Sooner(DeadlineOf(data[key].expiry), At(t))
  }

  /** No question about another key is answered differently at any time. */
  ghost predicate SameElsewhere(before: Data, after: Data, key: string) {
    forall k, t | k != key :: Get(after, k, t) == Get(before, k, t) && Ttl(after, k, t) == Ttl(before, k, t)
  }

  /** From now on the key reads as `value` up to and including its deadline. */
  ghost predicate ReadsUntil(data: Data, key: string, value: Option<string>, deadline: Deadline) {
    forall t ::
      && Get(data, key, t) == (if Sooner(deadline, At(t)) then None else value)
      && Ttl(data, key, t) == (if deadline.Never? then -1 else if t < deadline.ms then deadline.ms - t else -2)
  }

  // ---- The store object ----

  class Store {
    var data: Data

    constructor ()
      ensures data == map[]
    {
      data := map[];
    }

    method DoGet(key: string, now: int) returns (r: Option<string>)
      ensures r == Get(data, key, now)
      ensures r == if Present(data, key, now) then data[key].value else None
    {
      if key !in data {
        return None;
      }
      var found := data[key];
      if found.expiry != NO_EXPIRY && found.expiry < now {
        return None;
      }
      r := found.value;
    }

    method DoSet(key: string, value: Option<string>)
      modifies this
      ensures data == Set(old(data), key, value)
      ensures ReadsUntil(data, key, value, Never) && SameElsewhere(old(data), data, key)
    {
      data := data[key := Entry(value, NO_EXPIRY)];
    }

    method DoDel(key: string)
      modifies this
      ensures data == old(data) - {key}
      ensures forall t :: Get(data, key, t).None? && Ttl(data, key, t) == -2
      ensures SameElsewhere(old(data), data, key)
    {
      data := data - {key};
    }

    method DoExpireAt(key: string, timestamp: int, option: ExpireOption) returns (changed: bool)
      modifies this
      ensures changed == CanExpire(old(data), key, timestamp, option)
      ensures data == ExpireAt(old(data), key, timestamp, option)
      ensures changed <==> key in old(data) && Permits(option, DeadlineOf(old(data)[key].expiry), At(timestamp))
      ensures changed ==> ReadsUntil(data, key, old(data)[key].value, DeadlineOf(timestamp))
      ensures SameElsewhere(old(data), data, key)
    {
      if key !in data {
        return false;
      }
      var entry := data[key];
      match option {
        case NX =>
          if entry.expiry != NO_EXPIRY { return false; }
        case XX =>
          if entry.expiry == NO_EXPIRY { return false; }
        case GT =>
          if entry.expiry == NO_EXPIRY || entry.expiry >= timestamp { return false; }
        case LT =>
          if entry.expiry != NO_EXPIRY && entry.expiry <= timestamp { return false; }
        case NA =>
      }
      data := data[key := entry.(expiry := timestamp)];
      return true;
    }

    method DoTtl(key: string, now: int) returns (r: int)
      ensures r == Ttl(data, key, now)
      ensures r > 0 ==> forall t :: Present(data, key, t) <==> t <= now + r
      ensures r == -1 <==> forall t :: Present(data, key, t)
      ensures r == -2 <==> forall t | t > now :: !Present(data, key, t)
      ensures r > 0 || r == -1 || r == -2
    {
      assert Present(data, key, now + 1) ==> key in data;
      if key !in data {
        return -2;
      }
      var entry := data[key];
      assert entry.expiry != NO_EXPIRY ==> !Present(data, key, entry.expiry + 1);
      if entry.expiry == NO_EXPIRY {
        return -1;
      }
      var remaining := entry.expiry - now;
      if remaining <= 0 {
        return -2;
      }
      assert Present(data, key, entry.expiry);
      r := remaining;
    }

    method DoPersist(key: string, now: int) returns (done: bool)
      modifies this
      ensures done == CanPersist(old(data), key, now)
      ensures data == Persist(old(data), key, now)
      ensures done <==> Present(old(data), key, now) && exists t :: !Present(old(data), key, t)
      ensures done ==> ReadsUntil(data, key, old(data)[key].value, Never)
      ensures !done ==> data == old(data)
      ensures SameElsewhere(old(data), data, key)
    {
      if key !in data {
        return false;
      }
      var entry := data[key];
      assert entry.expiry != NO_EXPIRY ==> !Present(data, key, entry.expiry + 1);
      if entry.expiry == NO_EXPIRY || entry.expiry < now {
        return false;
      }
      data := data[key := entry.(expiry := NO_EXPIRY)];
      return true;
    }
  }

  // ---- Runs of commands ----

  datatype Command =
    | GetKey(key: string) | TtlOf(key: string)
    | SetKey(key: string, value: Option<string>) | DelKey(key: string)
    | Expire(key: string, timestamp: int, option: ExpireOption)
    | PersistKey(key: string)

  function Apply(data: Data, c: Command, now: int): Data {
    match c
    case GetKey(_) => data
    case TtlOf(_) => data
    case SetKey(k, v) => Set(data, k, v)
    case DelKey(k) => data - {k}
    case Expire(k, t, o) => ExpireAt(data, k, t, o)
    case PersistKey(k) => Persist(data, k, now)
  }

  /** Commands with the time each is run at. */
  type Script = seq<(Command, int)>

  function RunScript(data: Data, script: Script): Data
    decreases |script|
  {
    if script == [] then data
    else RunScript(Apply(data, script[0].0, script[0].1), script[1..])
  }

  /** The clock does not run backwards, from `start` to `end`. */
  predicate InOrder(script: Script, start: int, end: int) {
    if script == [] then start <= end
    else start <= script[0].1 && InOrder(script[1..], script[0].1, end)
  }

  /** A command that could bring `key` back. */
  predicate Revives(c: Command, key: string) {
    c.key == key && (c.SetKey? || c.Expire?)
  }

  /** Once absent, absent until someone sets it or gives it a new expiry: deleting or
      persisting it does not bring it back. */
  lemma {:induction false} AbsentStaysAbsent(data: Data, key: string, script: Script, start: int, end: int)
    requires Get(data, key, start).None? && InOrder(script, start, end)
    requires forall i | 0 <= i < |script| :: !Revives(script[i].0, key)
    ensures Get(RunScript(data, script), key, end).None?
    decreases |script|
  {
    if script != [] {
      var (c, now) := script[0];
      AbsentStaysAbsent(Apply(data, c, now), key, script[1..], now, end);
    }
  }

  lemma {:induction false} UntouchedKey(data: Data, key: string, script: Script)
    requires forall i | 0 <= i < |script| :: script[i].0.key != key
    ensures key in RunScript(data, script) <==> key in data
    ensures key in data ==> RunScript(data, script)[key] == data[key]
    decreases |script|
  {
    if script != [] {
      UntouchedKey(Apply(data, script[0].0, script[0].1), key, script[1..]);
    }
  }

  /** A positive TTL is exactly how long a non-null value stays readable: through
      `now + ttl` inclusive, and not after, whatever happens to other keys. */
  lemma TtlIsExact(data: Data, key: string, now: int, script: Script, later: int)
    requires Ttl(data, key, now) > 0 && data[key].value.Some?
    requires forall i | 0 <= i < |script| :: script[i].0.key != key
    ensures Get(RunScript(data, script), key, later)
         == if later <= now + Ttl(data, key, now) then data[key].value else None
  {
    UntouchedKey(data, key, script);
  }

  /** GET and TTL disagree about a key's existence exactly at the millisecond of its
      expiry, when GET still returns it and TTL already reports it gone, and for a null
      value at every moment before that, when GET returns nothing and TTL counts on. */
  lemma GetAndTtlDisagreeExactly(data: Data, key: string, now: int)
    ensures (Get(data, key, now).Some? != (Ttl(data, key, now) != -2)) <==>
      && key in data
      && var e := data[key];
      if e.value.Some? then e.expiry != NO_EXPIRY && now == e.expiry
      else e.expiry == NO_EXPIRY || now < e.expiry
  {
  }

  // ---- Sequences of EXPIRE with one option ----

  function Earlier(a: Deadline, b: Deadline): Deadline {
    if a.Never? || (b.At? && b.ms < a.ms) then b else a
  }

  function Later(a: Deadline, b: Deadline): Deadline {
    if b.Never? || (a.At? && a.ms < b.ms) then b else a
  }

  function ExpireAll(data: Data, key: string, times: seq<int>, option: ExpireOption): Data {
    if times == [] then data
    else ExpireAll(ExpireAt(data, key, times[0], option), key, times[1..], option)
  }

  function EarliestOf(d: Deadline, times: seq<int>): Deadline
    decreases |times|
  {
    if times == [] then d else EarliestOf(Earlier(d, At(times[0])), times[1..])
  }

  function LatestOf(d: Deadline, times: seq<int>): Deadline
    decreases |times|
  {
    if times == [] then d else LatestOf(Later(d, At(times[0])), times[1..])
  }

  /** `EarliestOf` and `LatestOf` are the least and greatest of what they are given. */
  lemma {:induction false} ExtremesAreExtreme(d: Deadline, times: seq<int>)
    ensures var e := EarliestOf(d, times);
      && (e == d || (e.At? && e.ms in times))
      && (d.At? ==> e.At? && e.ms <= d.ms)
      && (forall t | t in times :: e.At? && e.ms <= t)
    ensures var l := LatestOf(d, times);
      && (l == d || (l.At? && l.ms in times))
      && (d.Never? ==> l.Never?)
      && (d.At? ==> l.At? && l.ms >= d.ms && forall t | t in times :: t <= l.ms)
    decreases |times|
  {
    if times != [] {
      ExtremesAreExtreme(Earlier(d, At(times[0])), times[1..]);
      ExtremesAreExtreme(Later(d, At(times[0])), times[1..]);
      assert forall t :: t in times <==> t == times[0] || t in times[1..];
    }
  }

  /** Expiries on one key touch nothing but that key's expiry. */
  lemma {:induction false} ExpireAllFrame(data: Data, key: string, times: seq<int>, option: ExpireOption)
    ensures var d := ExpireAll(data, key, times, option);
      && d.Keys == data.Keys
      && (forall k | k in data :: d[k].value == data[k].value)
      && (forall k | k in data && k != key :: d[k] == data[k])
    decreases |times|
  {
    if times != [] {
      ExpireAllFrame(ExpireAt(data, key, times[0], option), key, times[1..], option);
    }
  }

  /** LT-only expiries leave the earliest of the initial deadline and all proposals. */
  lemma {:induction false} LtKeepsEarliest(data: Data, key: string, times: seq<int>)
    requires key in data && NO_EXPIRY !in times
    ensures var d := ExpireAll(data, key, times, LT);
      key in d && DeadlineOf(d[key].expiry) == EarliestOf(DeadlineOf(data[key].expiry), times)
    decreases |times|
  {
    if times != [] {
      LtKeepsEarliest(ExpireAt(data, key, times[0], LT), key, times[1..]);
    }
  }

  /** GT-only expiries leave the latest, so never touch a key without expiry. */
  lemma {:induction false} GtKeepsLatest(data: Data, key: string, times: seq<int>)
    requires key in data && NO_EXPIRY !in times
    ensures var d := ExpireAll(data, key, times, GT);
      key in d && DeadlineOf(d[key].expiry) == LatestOf(DeadlineOf(data[key].expiry), times)
    decreases |times|
  {
    if times != [] {
      GtKeepsLatest(ExpireAt(data, key, times[0], GT), key, times[1..]);
    }
  }

  /** The mark itself as a proposal: LT then keeps the earlier deadline exactly when
      the key's deadline was already before it. Everywhere else it keeps it always. */
  lemma LtExactlyEarlier(data: Data, key: string, t: int)
    requires key in data
    ensures DeadlineOf(ExpireAt(data, key, t, LT)[key].expiry) == Earlier(DeadlineOf(data[key].expiry), At(t))
       <==> (t != NO_EXPIRY || data[key].expiry < NO_EXPIRY)
  {
  }

  /** GT keeps the later deadline except when the mark replaces an earlier one. */
  lemma GtExactlyLater(data: Data, key: string, t: int)
    requires key in data
    ensures DeadlineOf(ExpireAt(data, key, t, GT)[key].expiry) == Later(DeadlineOf(data[key].expiry), At(t))
       <==> (t != NO_EXPIRY || data[key].expiry >= NO_EXPIRY)
  {
  }

  function Successes(data: Data, key: string, times: seq<int>, option: ExpireOption): nat {
    if times == [] then 0
    else (if CanExpire(data, key, times[0], option) then 1 else 0) +
         Successes(ExpireAt(data, key, times[0], option), key, times[1..], option)
  }

  /** How many proposals come up to and including the first that is not the mark. */
  function UpToFirstReal(times: seq<int>): nat {
    if times == [] then 0
    else if times[0] == NO_EXPIRY then 1 + UpToFirstReal(times[1..])
    else 1
  }

  /** An NX-only sequence succeeds on a key without expiry until a real timestamp has
      gone in: proposing the mark succeeds and leaves the key as it was. */
  lemma {:induction false} NxSucceedsExactly(data: Data, key: string, times: seq<int>)
    ensures Successes(data, key, times, NX) ==
      if key in data && data[key].expiry == NO_EXPIRY then UpToFirstReal(times) else 0
  {
    if times != [] {
      NxSucceedsExactly(ExpireAt(data, key, times[0], NX), key, times[1..]);
    }
  }

  /** So it succeeds at most once if and only if the mark is not proposed, as the first
      of several, to a key without expiry. */
  lemma NxSucceedsOnceExactly(data: Data, key: string, times: seq<int>)
    ensures Successes(data, key, times, NX) <= 1 <==>
      !(key in data && data[key].expiry == NO_EXPIRY && |times| >= 2 && times[0] == NO_EXPIRY)
  {
    NxSucceedsExactly(data, key, times);
    if |times| >= 2 {
      assert UpToFirstReal(times[1..]) >= 1;
    }
  }
}
