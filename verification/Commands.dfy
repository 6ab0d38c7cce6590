/** Every command as a client meets it: the words it sends, the reply it gets, and what the
    store answers from then on. Each law names its keyword and option words outright and
    speaks of the store through `Present` alone, or through later questions. */
module Commands {
  import opened Text
  import opened Resp
  import opened Store
  import opened Dispatcher

  // ---- Requests ----

  /** A request of one word after the keyword. */
  function Ask(word: string, key: string): RespValue {
    Array([BulkString(Some(word)), BulkString(Some(key))])
  }

  lemma AskIs(word: string, arg: Option<string>)
    ensures Array([BulkString(Some(word)), BulkString(arg)]) == AsValue(Request(word, [arg]))
  {
    assert AsValue(Request(word, [arg])).elements == [BulkString(Some(word)), BulkString(arg)];
  }

  lemma TwoAre(word: string, a: Option<string>, b: Option<string>)
    ensures Array([BulkString(Some(word)), BulkString(a), BulkString(b)]) == AsValue(Request(word, [a, b]))
  {
    assert AsValue(Request(word, [a, b])).elements == [BulkString(Some(word)), BulkString(a), BulkString(b)];
  }

  lemma ThreeAre(word: string, a: Option<string>, b: Option<string>, c: Option<string>)
    ensures Array([BulkString(Some(word)), BulkString(a), BulkString(b), BulkString(c)])
         == AsValue(Request(word, [a, b, c]))
  {
    assert AsValue(Request(word, [a, b, c])).elements
        == [BulkString(Some(word)), BulkString(a), BulkString(b), BulkString(c)];
  }

  /** A request goes to the handler that claims its words. */
  lemma Goes(h: Handler, data: Data, now: int, r: Request)
    requires r.name != "" && h in CHAIN && !h.OnAnything?
    requires ParseCommand(AsValue(r)) == Some(r) ==> Claims(h, AsValue(r))
    ensures ParseCommand(AsValue(r)) == Some(r) && Claims(h, AsValue(r))
    ensures Dispatch(data, now, AsValue(r)) == Dispatcher.Handle(h, data, now, AsValue(r))
  {
    hide Claims, ParseCommand, AsValue, Dispatcher.Handle;
    ParseCommandExactly(AsValue(r), r);
    DispatchIsTheClaimant(h, data, now, AsValue(r));
  }

  // ---- GET, SET, DEL ----

  lemma GetLaw(data: Data, key: string, now: int)
    requires key != ""
    ensures Dispatch(data, now, Ask("GET", key))
         == (data, BulkString(if Present(data, key, now) then data[key].value else None))
  {
    hide Dispatch, ParseCommand, AsValue;
    AskIs("GET", Some(key));
    Goes(OnGet, data, now, Request("GET", [Some(key)]));
  }

  /** Whatever was there, a key that is set answers its value and has no expiry at any later
      time; no other key answers differently. */
  lemma SetLaw(data: Data, key: string, value: Option<string>, now: int)
    requires key != ""
    ensures var (after, reply) :=
        Dispatch(data, now, Array([BulkString(Some("SET")), BulkString(Some(key)), BulkString(value)]));
      && reply == SimpleString("OK")
      && ReadsUntil(after, key, value, Never)
      && (forall t :: Dispatch(after, t, Ask("GET", key)) == (after, BulkString(value)))
      && (forall t :: Dispatch(after, t, Ask("TTL", key)) == (after, Integer(-1)))
      && OnlyThat(data, after, key)
  {
    hide Dispatch, ParseCommand, AsValue;
    TwoAre("SET", Some(key), value);
    Goes(OnSet, data, now, Request("SET", [Some(key), value]));
    var after := Set(data, key, value);
    forall t
      ensures Dispatch(after, t, Ask("GET", key)) == (after, BulkString(value))
      ensures Dispatch(after, t, Ask("TTL", key)) == (after, Integer(-1))
    {
      GetLaw(after, key, t);
      var _ := TtlLaw("TTL", 1000, after, key, t);
    }
  }

  /** The entry of every other key is untouched. */
  ghost predicate OnlyThat(before: Data, after: Data, key: string) {
    forall k | k != key :: (k in after <==> k in before) && (k in before ==> after[k] == before[k])
  }

  lemma DelLaw(data: Data, key: string, now: int)
    requires key != ""
    ensures var (after, reply) := Dispatch(data, now, Ask("DEL", key));
      && reply == Integer(1)
      && key !in after && OnlyThat(data, after, key)
      && (forall t :: Dispatch(after, t, Ask("GET", key)) == (after, BulkString(None)))
      && (forall t :: Dispatch(after, t, Ask("TTL", key)) == (after, Integer(-2)))
  {
    hide Dispatch, ParseCommand, AsValue;
    AskIs("DEL", Some(key));
    Goes(OnDel, data, now, Request("DEL", [Some(key)]));
    var after := data - {key};
    forall t
      ensures Dispatch(after, t, Ask("GET", key)) == (after, BulkString(None))
      ensures Dispatch(after, t, Ask("TTL", key)) == (after, Integer(-2))
    {
      GetLaw(after, key, t);
      var _ := TtlLaw("TTL", 1000, after, key, t);
    }
  }

  // ---- TTL, PTTL ----

  /** Seconds for TTL, milliseconds for PTTL: -1 if the key never expires, -2 if it is gone from
      the next millisecond on, else the whole units from now to `last`, the last moment at
      which it is there. */
  lemma TtlLaw(word: string, unit: int, data: Data, key: string, now: int) returns (last: int)
    requires (word == "TTL" && unit == 1000) || (word == "PTTL" && unit == 1)
    requires key != ""
    ensures var (after, reply) := Dispatch(data, now, Ask(word, key));
      && after == data && reply.Integer?
      && (reply.n == -1 <==> forall t :: Present(data, key, t))
      && (reply.n == -2 <==> forall t | t > now :: !Present(data, key, t))
      && (reply.n != -1 && reply.n != -2 ==>
            && 0 <= reply.n && reply.n * unit <= last - now < (reply.n + 1) * unit && now < last
            && forall t :: Present(data, key, t) <==> t <= last)
  {
    hide Dispatch, ParseCommand, AsValue;
    AskIs(word, Some(key));
    var h := OnTtl(word, unit);
    assert h == CHAIN[7] || h == CHAIN[8];
    Goes(h, data, now, Request(word, [Some(key)]));
    last := if key in data then data[key].expiry else 0;
    TtlOutcomes(data, key, now);
    if Ttl(data, key, now) > 0 {
      var units := Ttl(data, key, now) / unit;
      assert units * unit <= Ttl(data, key, now) < (units + 1) * unit;
    }
  }

  lemma TtlOutcomes(data: Data, key: string, now: int)
    ensures var r := Ttl(data, key, now);
      && (r == -1 || r == -2 || r > 0)
      && (r == -1 <==> forall t :: Present(data, key, t))
      && (r == -2 <==> forall t | t > now :: !Present(data, key, t))
      && (r > 0 ==>
            && key in data && r == data[key].expiry - now
            && forall t :: Present(data, key, t) <==> t <= data[key].expiry)
  {
    assert Present(data, key, now + 1) ==> key in data;
    if key in data {
      var expiry := data[key].expiry;
      assert expiry != NO_EXPIRY ==> Present(data, key, expiry) && !Present(data, key, expiry + 1);
    }
  }

  // ---- The EXPIRE family ----

  /** The moment a request of the family asks for. */
  function Moment(word: string, n: int, now: int): int {
    if word == "EXPIRE" then now + n * 1000
    else if word == "PEXPIRE" then now + n
    else if word == "EXPIREAT" then n * 1000
    else n
  }

  predicate OfExpireFamily(word: string) {
    word == "EXPIRE" || word == "PEXPIRE" || word == "EXPIREAT" || word == "PEXPIREAT"
  }

  /** An integer text `text` for `n` moves the deadline of a stored key to that moment. */
  lemma ExpireLaw(word: string, data: Data, key: string, text: string, n: int, now: int)
    requires OfExpireFamily(word) && key != "" && IsIntegerText(text, n)
    ensures var (after, reply) := Dispatch(data, now,
        Array([BulkString(Some(word)), BulkString(Some(key)), BulkString(Some(text))]));
      && reply == Integer(if key in data then 1 else 0)
      && Moved(data, after, key, Moment(word, n, now), key in data)
  {
    hide Dispatch, ParseCommand, AsValue, WholeInteger;
    TwoAre(word, Some(key), Some(text));
    WholeIntegerExactly(Some(text), n);
    var h := HandlerFor(word);
    var r := Request(word, [Some(key), Some(text)]);
    Goes(h, data, now, r);
    assert Proposed(h, r, now) == Moment(word, n, now);
  }

  /** With an option word the deadline moves, and the reply is 1, only if the key, as it
      stood: never expires, for NX; expires, for XX; is gone by the new moment, for GT; is
      still there right after the new moment, for LT. */
  lemma ExpireOptionLaw(word: string, data: Data, key: string, text: string, n: int, option: string, now: int)
    requires OfExpireFamily(word) && key != "" && IsIntegerText(text, n)
    requires option == "NX" || option == "XX" || option == "GT" || option == "LT"
    ensures var (after, reply) := Dispatch(data, now,
        Array([BulkString(Some(word)), BulkString(Some(key)), BulkString(Some(text)), BulkString(Some(option))]));
      var moment := Moment(word, n, now);
      && (reply == Integer(0) || reply == Integer(1))
      && Moved(data, after, key, moment, reply == Integer(1))
      && (option == "NX" ==> (reply == Integer(1) <==> forall t :: Present(data, key, t)))
      && (option == "XX" ==> (reply == Integer(1) <==> key in data && exists t :: !Present(data, key, t)))
      && (option == "GT" ==> (reply == Integer(1) <==> key in data && !Present(data, key, moment)))
      && (option == "LT" ==> (reply == Integer(1) <==> Present(data, key, moment + 1)))
  {
    var chosen := ToOption(Some(option)).value;
    ExpireGoes(word, data, key, text, n, option, chosen, now);
    OptionOutcomes(data, key, Moment(word, n, now));
    hide Dispatch, Moment, CanExpire, Moved, IsIntegerText;
    ExpireAtMoves(data, key, Moment(word, n, now), chosen);
  }

  lemma ExpireGoes(word: string, data: Data, key: string, text: string, n: int, option: string,
                   chosen: ExpireOption, now: int)
    requires OfExpireFamily(word) && key != "" && IsIntegerText(text, n) && ToOption(Some(option)) == Some(chosen)
    ensures var moment := Moment(word, n, now);
      Dispatch(data, now,
        Array([BulkString(Some(word)), BulkString(Some(key)), BulkString(Some(text)), BulkString(Some(option))]))
      == (ExpireAt(data, key, moment, chosen), Integer(if CanExpire(data, key, moment, chosen) then 1 else 0))
  {
    hide Dispatch, ParseCommand, AsValue, WholeInteger, CanExpire, ExpireAt, Moment, ToOption, IsIntegerText;
    ThreeAre(word, Some(key), Some(text), Some(option));
    WholeIntegerExactly(Some(text), n);
    var r := Request(word, [Some(key), Some(text), Some(option)]);
    var h := HandlerFor(word);
    Goes(h, data, now, r);
    assert Proposed(h, r, now) == Moment(word, n, now);
  }

  lemma ExpireAtMoves(data: Data, key: string, moment: int, option: ExpireOption)
    ensures Moved(data, ExpireAt(data, key, moment, option), key, moment, CanExpire(data, key, moment, option))
  {
  }

  /** The key reads as before, up to and including the new moment, and nothing else changes;
      or nothing changes at all. The moment -1 is the store's mark for none. */
  ghost predicate Moved(before: Data, after: Data, key: string, moment: int, done: bool) {
    && OnlyThat(before, after, key)
    && (done ==>
          && key in before && key in after && after[key].value == before[key].value
          && forall t :: Present(after, key, t) <==> moment == NO_EXPIRY || t <= moment)
    && (!done ==> after == before)
  }

  function HandlerFor(word: string): (h: Handler)
    requires OfExpireFamily(word)
    ensures h in CHAIN && h.OnExpire? && h.name == word
    ensures forall r: Request, now | |r.args| >= 2 && WholeInteger(r.args[1]).Some? ::
      Proposed(h, r, now) == Moment(word, WholeInteger(r.args[1]).value, now)
  {
    assert CHAIN[3] == OnExpire("EXPIRE", 1000, true) && CHAIN[4] == OnExpire("PEXPIRE", 1, true);
    assert CHAIN[5] == OnExpire("EXPIREAT", 1000, false) && CHAIN[6] == OnExpire("PEXPIREAT", 1, false);
    if word == "EXPIRE" then OnExpire("EXPIRE", 1000, true)
    else if word == "PEXPIRE" then OnExpire("PEXPIRE", 1, true)
    else if word == "EXPIREAT" then OnExpire("EXPIREAT", 1000, false)
    else OnExpire("PEXPIREAT", 1, false)
  }

  lemma OptionOutcomes(data: Data, key: string, moment: int)
    ensures CanExpire(data, key, moment, NX) <==> forall t :: Present(data, key, t)
    ensures CanExpire(data, key, moment, XX) <==> key in data && exists t :: !Present(data, key, t)
    ensures CanExpire(data, key, moment, GT) <==> key in data && !Present(data, key, moment)
    ensures CanExpire(data, key, moment, LT) <==> Present(data, key, moment + 1)
  {
    assert Present(data, key, 0) ==> key in data;
    if key in data && data[key].expiry != NO_EXPIRY {
      assert !Present(data, key, data[key].expiry + 1);
    }
  }

  /** The integers a client may write. */
  lemma WholeIntegerExactly(arg: Option<string>, n: int)
    ensures WholeInteger(arg) == Some(n) <==> arg.Some? && IsIntegerText(arg.value, n)
  {
    hide FromChars;
    if arg.Some? {
      var text := arg.value;
      FromCharsExactly(text, n, |text|);
      assert text[..|text|] == text;
    }
  }

  lemma PrintedInteger(n: int)
    requires IsInt64(n)
    ensures WholeInteger(Some(ToString(n))) == Some(n) && IsIntegerText(ToString(n), n)
  {
    hide FromChars, IsIntegerText;
    FromCharsOfToString(n, "");
    assert ToString(n) + "" == ToString(n);
    WholeIntegerExactly(Some(ToString(n)), n);
  }

  // ---- PERSIST ----

  /** The reply is 1 exactly if the key is there and would have expired, and then it never
      does; otherwise nothing changes. */
  lemma PersistLaw(data: Data, key: string, now: int)
    requires key != ""
    ensures var (after, reply) := Dispatch(data, now, Ask("PERSIST", key));
      && (reply == Integer(0) || reply == Integer(1))
      && (reply == Integer(1) <==> Present(data, key, now) && exists t :: !Present(data, key, t))
      && Moved(data, after, key, NO_EXPIRY, reply == Integer(1))
  {
    hide Dispatch, ParseCommand, AsValue;
    AskIs("PERSIST", Some(key));
    Goes(OnPersist, data, now, Request("PERSIST", [Some(key)]));
    if key in data && data[key].expiry != NO_EXPIRY {
      assert !Present(data, key, data[key].expiry + 1);
    }
  }

  // ---- The rest ----

  lemma EchoLaw(data: Data, arg: Option<string>, now: int)
    ensures Dispatch(data, now, Array([BulkString(Some("ECHO")), BulkString(arg)])) == (data, BulkString(arg))
    ensures Dispatch(data, now, Array([BulkString(Some("PING")), BulkString(arg)])) == (data, BulkString(arg))
    ensures Dispatch(data, now, Array([BulkString(Some("PING"))])) == (data, SimpleString("PONG"))
  {
    hide Dispatch, ParseCommand, AsValue;
    AskIs("ECHO", arg);
    AskIs("PING", arg);
    NoneIs("PING");
    Goes(OnEcho, data, now, Request("ECHO", [arg]));
    Goes(OnPing, data, now, Request("PING", [arg]));
    Goes(OnPing, data, now, Request("PING", []));
  }

  lemma NoneIs(word: string)
    ensures Array([BulkString(Some(word))]) == AsValue(Request(word, []))
  {
    assert AsValue(Request(word, [])).elements == [BulkString(Some(word))];
  }

  lemma HelloLaw(data: Data, arg: Option<string>, now: int)
    ensures Dispatch(data, now, Array([BulkString(Some("HELLO"))])) == (data, HELLO_INFO)
    ensures Dispatch(data, now, Array([BulkString(Some("HELLO")), BulkString(arg)]))
         == (data, if arg == Some("2") then HELLO_INFO
                   else SimpleError("NOPROTO unsupported protocol version"))
    ensures HELLO_INFO.elements[4..6] == [BulkString(Some("proto")), Integer(2)]
  {
    hide Dispatch, ParseCommand, AsValue;
    AskIs("HELLO", arg);
    NoneIs("HELLO");
    Goes(OnHello, data, now, Request("HELLO", [arg]));
    Goes(OnHello, data, now, Request("HELLO", []));
  }

  /** The requests the laws above speak of. */
  ghost predicate Known(v: RespValue) {
    && v.Array? && v.elements != []
    && (forall i | 0 <= i < |v.elements| :: v.elements[i].BulkString?)
    && v.elements[0].payload.Some?
    && KnownWords(v.elements[0].payload.value, seq(|v.elements| - 1, i requires 0 <= i < |v.elements| - 1 =>
                    if v.elements[i + 1].BulkString? then v.elements[i + 1].payload else None))
  }

  ghost predicate KnownWords(word: string, args: seq<Option<string>>) {
    var keyed := |args| >= 1 && args[0].Some? && args[0] != Some("");
    || ((word == "GET" || word == "DEL" || word == "TTL" || word == "PTTL" || word == "PERSIST") &&
          |args| == 1 && keyed)
    || (word == "SET" && |args| == 2 && keyed)
    || (OfExpireFamily(word) && (|args| == 2 || |args| == 3) && keyed &&
          args[1].Some? && (exists n :: IsIntegerText(args[1].value, n)) &&
          (|args| == 3 ==> args[2] == Some("NX") || args[2] == Some("XX") || args[2] == Some("GT") || args[2] == Some("LT")))
    || (word == "ECHO" && |args| == 1)
    || ((word == "PING" || word == "HELLO") && |args| <= 1)
  }

  /** Everything else, whatever its shape, gets the same error and changes nothing. */
  lemma UnknownLaw(data: Data, now: int, v: RespValue)
    requires !Known(v)
    ensures Dispatch(data, now, v) == (data, SimpleError("Unknown subcommand or command"))
  {
    hide Dispatcher.Handle, Claims, ParseCommand, Known;
    var h := FirstClaim(v, 0);
    if !h.OnAnything? {
      ClaimNeedsKeyword(h, v);
      ClaimedIsKnown(h, v);
      assert false;
    }
    AnythingAnswers(h, data, now, v);
  }

  lemma AnythingAnswers(h: Handler, data: Data, now: int, v: RespValue)
    requires h.OnAnything? && Claims(h, v)
    ensures Dispatcher.Handle(h, data, now, v) == (data, SimpleError("Unknown subcommand or command"))
  {
  }

  lemma ClaimedIsKnown(h: Handler, v: RespValue)
    requires h in CHAIN && !h.OnAnything? && Claims(h, v)
    ensures Known(v)
  {
    hide ParseCommand, KnownWords, WholeInteger;
    ClaimNeedsKeyword(h, v);
    var r := ParseCommand(v).value;
    ClaimedWords(h, v);
    hide Claims;
    ParseCommandExactly(v, r);
    var args := seq(|v.elements| - 1, i requires 0 <= i < |v.elements| - 1 =>
                      if v.elements[i + 1].BulkString? then v.elements[i + 1].payload else None);
    assert args == r.args;
  }

  lemma ClaimedWords(h: Handler, v: RespValue)
    requires h in CHAIN && !h.OnAnything? && Claims(h, v)
    ensures ParseCommand(v).Some?
    ensures KnownWords(ParseCommand(v).value.name, ParseCommand(v).value.args)
  {
    hide ParseCommand, WholeInteger, IsIntegerText;
    var r := ParseCommand(v).value;
    if h.OnExpire? {
      WholeIntegerExactly(r.args[1], WholeInteger(r.args[1]).value);
    }
  }
}
